/** Replacing a dead staging mount and its publish binds: the node's side of heal in
    pkg/driver/supervisor.go. */
module Healing {
  import opened Keys
  import opened Mounts
  import opened Hosts

  lemma {:induction false} OutsideExactly(table: Table, ps: set<Path>, m: Mount)
    ensures m in Outside(table, ps) <==> m in table && forall p | p in ps :: !(p <= m.point)
  {
    if table != [] {
      OutsideExactly(table[..|table| - 1], ps, m);
      assert table == table[..|table| - 1] + [table[|table| - 1]];
    }
  }

  /** No path of ps is above another. */
  ghost predicate Unnested(ps: set<Path>) {
    forall p, q | p in ps && q in ps && p <= q :: p == q
  }

  /** The paths of a heal: none above another, each mounted on at most once, nothing below them. */
  ghost predicate Separate(table: Table, ps: set<Path>) {
    && Unnested(ps)
    && (forall p | p in ps :: Unstacked(table, p))
  }

  /** What the detaching half of a heal has done for the paths in gone: nothing is left mounted there,
      and nothing outside ps was touched. */
  ghost predicate Detached(before: Table, table: Table, ps: set<Path>, gone: set<Path>) {
    && (forall p | p in ps :: Unstacked(table, p)) && (forall q | Unstacked(before, q) :: Unstacked(table, q))
    && (forall m | m in table :: m in before && m.point !in gone)
    && Outside(table, ps) == Outside(before, ps)
    && (forall q | (forall p | p in ps :: !(p <= q)) :: Holding(table, q) == Holding(before, q))
  }

  lemma DetachOne(before: Table, table: Table, ps: set<Path>, gone: set<Path>, p: Path)
    requires Detached(before, table, ps, gone) && p in ps
    ensures Detached(before, Detach(table, p), ps, gone + {p})
  {
    forall q | Unstacked(table, q) ensures Unstacked(Detach(table, p), q) {
      DetachKeepsUnstacked(table, p, q);
    }
    DetachTakesNoMore(table, p);
    DetachEmpties(table, p);
    DetachKeepsOutside(table, p, ps);
    forall q | forall r | r in ps :: !(r <= q) ensures Holding(Detach(table, p), q) == Holding(before, q) {
      DetachKeepsHolding(table, p, q);
    }
  }

  /** What the mounting half has done: at the paths of ps only the new device is mounted, and nothing
      outside ps was touched. */
  ghost predicate Mounted(before: Table, table: Table, ps: set<Path>, dev: string) {
    && (forall m | m in table :: m in before || m.point in ps)
    && (forall m | m in table && m.point in ps :: m.dev == dev)
    && Outside(table, ps) == Outside(before, ps)
    && (forall q | (forall p | p in ps :: !(p <= q)) :: Holding(table, q) == Holding(before, q))
  }

  /** What one finds at p is a mount made there, like m in all else: device, root, restrictions, type. */
  ghost predicate Shows(table: Table, p: Path, m: Mount) {
    Holding(table, p) == Some(Mount(m.dev, m.root, p, m.bits, m.fstype))
  }

  lemma MountOne(before: Table, table: Table, ps: set<Path>, m: Mount)
    requires Mounted(before, table, ps, m.dev) && m.point in ps
    requires Unnested(ps)
    ensures Mounted(before, table + [m], ps, m.dev) && Shows(table + [m], m.point, m)
    ensures StillShows(table, table + [m], ps, m)
  {
    forall p ensures Holding(table + [m], p) == if m.point <= p then Some(m) else Holding(table, p) {
      HoldingAppend(table, m, p);
    }
    OutsideAppend(table, m, ps);
  }

  /** The paths of a heal: the staging path and the publish targets. */
  function HealPaths(stage: Path, targets: seq<Path>): set<Path> {
    {stage} + set t | t in targets
  }

  /** The binds go first, then the staging mount. */
  method DetachAll(host: Host, stage: Path, targets: seq<Path>)
    requires host.Valid() && Separate(host.tables[host.own], HealPaths(stage, targets))
    modifies host
    ensures host.Valid() && host.tables == old(host.tables)[host.own := host.tables[host.own]] && host.calls == old(host.calls)
    ensures var ps := HealPaths(stage, targets); Detached(old(host.tables[host.own]), host.tables[host.own], ps, ps)
  {
    ghost var before, ps := host.tables[host.own], HealPaths(stage, targets);
    for i := 0 to |targets|
      invariant host.Valid() && host.tables == old(host.tables)[host.own := host.tables[host.own]] && host.calls == old(host.calls)
      invariant Detached(before, host.tables[host.own], ps, First(targets, i))
    {
      DetachOne(before, host.tables[host.own], ps, First(targets, i), targets[i]);
      FirstStep(targets, i);
      host.LazyUnmount(targets[i]);
    }
    DetachOne(before, host.tables[host.own], ps, First(targets, |targets|), stage);
    host.LazyUnmount(stage);
    assert targets[..|targets|] == targets && First(targets, |targets|) + {stage} == ps;
  }

  ghost function First(targets: seq<Path>, n: nat): set<Path>
    requires n <= |targets|
  {
    set t | t in targets[..n]
  }

  lemma FirstStep(targets: seq<Path>, i: nat)
    requires i < |targets|
    ensures First(targets, i + 1) == First(targets, i) + {targets[i]}
  {
    assert targets[..i + 1] == targets[..i] + [targets[i]];
  }

  /** mount --bind stage target: the target shows what the staging path shows. */
  function Bind(table: Table, stage: Path, target: Path): Table {
    var shown := Holding(table, stage);
    if shown.None? then table
    else
      HoldingIsAbove(table, stage);
      table + [CloneOf(shown.value, stage, 0, target)]
  }

  /** The table once the first n targets are bound; binds says which of the calls succeed. */
  function BindFirst(table: Table, stage: Path, targets: seq<Path>, n: nat, binds: nat -> bool): Table
    requires n <= |targets|
  {
    if n == 0 then table
    else
      var rest := BindFirst(table, stage, targets, n - 1, binds);
      if binds(n - 1) then Bind(rest, stage, targets[n - 1]) else rest
  }

  /** However many binds are made, the paths of the heal carry the new device alone; each target bound
      shows the staging path's mount, and so does that path all along. */
  lemma {:induction false} BindsShow(before: Table, table: Table, targets: seq<Path>, n: nat, binds: nat -> bool,
                                     ps: set<Path>, staged: Mount)
    requires n <= |targets| && staged.point in ps && (forall t | t in targets :: t in ps) && Unnested(ps)
    requires Mounted(before, table, ps, staged.dev) && Shows(table, staged.point, staged)
    ensures var now := BindFirst(table, staged.point, targets, n, binds);
            && Mounted(before, now, ps, staged.dev) && Shows(now, staged.point, staged)
            && forall k | 0 <= k < n && binds(k) :: Shows(now, targets[k], staged)
  {
    if n > 0 {
      BindsShow(before, table, targets, n - 1, binds, ps, staged);
      if binds(n - 1) {
        BindShows(before, BindFirst(table, staged.point, targets, n - 1, binds), targets[n - 1], ps, staged);
      }
    }
  }

  /** Mounting the staging path again and binding its targets, from where detaching ended. */
  lemma {:induction false} RemountShows(before: Table, table: Table, staged: Mount, targets: seq<Path>, binds: nat -> bool)
    requires var ps := HealPaths(staged.point, targets); Unnested(ps) && Detached(before, table, ps, ps)
    ensures var ps, now := HealPaths(staged.point, targets), BindFirst(table + [staged], staged.point, targets, |targets|, binds);
            && Mounted(before, now, ps, staged.dev) && Shows(now, staged.point, staged)
            && forall k | 0 <= k < |targets| && binds(k) :: Shows(now, targets[k], staged)
  {
    var ps := HealPaths(staged.point, targets);
    MountOne(before, table, ps, staged);
    BindsShow(before, table + [staged], targets, |targets|, binds, ps, staged);
  }

  /** The paths of a heal, none twice. */
  ghost predicate Distinct(stage: Path, targets: seq<Path>) {
    && (forall k | 0 <= k < |targets| :: targets[k] != stage)
    && (forall j, k | 0 <= j < k < |targets| :: targets[j] != targets[k])
  }

  /** At the paths of ps, and at every path beside them that was so, no mount lies over another. */
  ghost predicate Tidy(before: Table, table: Table, ps: set<Path>) {
    && (forall p | p in ps :: Unstacked(table, p))
    && (forall q | Unstacked(before, q) && (forall p | p in ps :: !(p <= q)) :: Unstacked(table, q))
  }

  lemma MountIsTidy(before: Table, table: Table, ps: set<Path>, m: Mount)
    requires Tidy(before, table, ps) && m.point in ps && Unnested(ps) && NoneAt(table, m.point)
    ensures Tidy(before, table + [m], ps)
    ensures forall p | p != m.point && NoneAt(table, p) :: NoneAt(table + [m], p)
  {
    forall p ensures Unstacked(table + [m], p) <==> Unstacked(table, p) && (m.point <= p ==> NoneAt(table, p)) {
      UnstackedAppend(table, m, p);
    }
  }

  lemma {:induction false} BindsAreTidy(before: Table, table: Table, stage: Path, targets: seq<Path>, n: nat, binds: nat -> bool,
                                        ps: set<Path>)
    requires n <= |targets| && (forall t | t in targets :: t in ps) && Unnested(ps) && Distinct(stage, targets)
    requires Tidy(before, table, ps) && forall t | t in targets :: NoneAt(table, t)
    ensures var now := BindFirst(table, stage, targets, n, binds);
            Tidy(before, now, ps) && forall k | n <= k < |targets| :: NoneAt(now, targets[k])
  {
    if n > 0 {
      BindsAreTidy(before, table, stage, targets, n - 1, binds, ps);
      var now := BindFirst(table, stage, targets, n - 1, binds);
      var shown := Holding(now, stage);
      if binds(n - 1) && shown.Some? {
        HoldingIsAbove(now, stage);
        MountIsTidy(before, now, ps, CloneOf(shown.value, stage, 0, targets[n - 1]));
      }
    }
  }

  /** So the paths of a heal are as fit for the next one as they were. */
  lemma RemountIsTidy(before: Table, table: Table, staged: Mount, targets: seq<Path>, binds: nat -> bool)
    requires var ps := HealPaths(staged.point, targets); Unnested(ps) && Detached(before, table, ps, ps)
    requires Distinct(staged.point, targets)
    ensures Tidy(before, BindFirst(table + [staged], staged.point, targets, |targets|, binds), HealPaths(staged.point, targets))
  {
    var ps := HealPaths(staged.point, targets);
    MountIsTidy(before, table, ps, staged);
    BindsAreTidy(before, table + [staged], staged.point, targets, |targets|, binds, ps);
  }

  lemma BindShows(before: Table, table: Table, target: Path, ps: set<Path>, staged: Mount)
    requires target in ps && Unnested(ps) && Mounted(before, table, ps, staged.dev) && Shows(table, staged.point, staged)
    ensures var now := Bind(table, staged.point, target);
            Mounted(before, now, ps, staged.dev) && Shows(now, target, staged) && StillShows(table, now, ps, staged)
  {
    var shown := Holding(table, staged.point).value;
    var bound := CloneOf(shown, staged.point, 0, target);
    assert shown.root + staged.point[|shown.point|..] == shown.root && bound == Mount(staged.dev, staged.root, target, staged.bits, staged.fstype);
    MountOne(before, table, ps, bound);
  }

  /** Whatever of ps showed such a mount before shows one now. */
  ghost predicate StillShows(was: Table, now: Table, ps: set<Path>, m: Mount) {
    forall p | p in ps && Shows(was, p, m) :: Shows(now, p, m)
  }

  /** Binds what the staging path shows to each target. */
  method BindAll(host: Host, stage: Path, targets: seq<Path>, binds: nat -> bool)
    requires host.Valid()
    modifies host
    ensures host.Valid() && host.calls == old(host.calls)
    ensures host.tables == old(host.tables)[host.own := BindFirst(old(host.tables[host.own]), stage, targets, |targets|, binds)]
  {
    ghost var was := host.tables;
    for i := 0 to |targets|
      invariant host.Valid() && host.calls == old(host.calls)
      invariant host.tables == was[host.own := BindFirst(was[host.own], stage, targets, i, binds)]
    {
      var shown := Holding(host.tables[host.own], stage);
      if binds(i) && shown.Some? {
        HoldingIsAbove(host.tables[host.own], stage);
        host.Mount(CloneOf(shown.value, stage, 0, targets[i]));
      }
    }
  }

  lemma SamePath(p: Path, q: Path)
    ensures p <= q && q <= p ==> p == q
  {}

  /** With nothing mounted at the paths of ps, a path of ps lives on the mount around them. */
  lemma {:induction false} BareLivesOutside(table: Table, ps: set<Path>, stage: Path)
    requires stage in ps && Unnested(ps) && forall m | m in table :: m.point !in ps
    ensures Holding(table, stage) == Holding(Outside(table, ps), stage)
  {
    if table != [] {
      var init, last := table[..|table| - 1], table[|table| - 1];
      BareLivesOutside(init, ps, stage);
      HoldingAppend(Outside(init, ps), last, stage);
      if p :| p in ps && p <= last.point <= stage {
        SamePath(stage, last.point);
      }
    }
  }

  /** After a remount that failed, the staging path is a bare directory: its probe meets a dead endpoint,
      and the remount is tried again, exactly when the mount around the heal's paths was dead before. */
  lemma FailedRemountIsRetriedIff(before: Table, table: Table, ps: set<Path>, stage: Path, broken: set<string>)
    requires Detached(before, table, ps, ps) && stage in ps && Unnested(ps)
    ensures Dead(table, broken, stage) <==> Dead(Outside(before, ps), broken, stage)
  {
    BareLivesOutside(table, ps, stage);
  }

  /** Of three mounts, the second and third beside each other, detaching the second leaves the others. */
  lemma DetachSecond(root: Mount, a: Mount, b: Mount)
    requires a.point != [] && b.point != [] && a.point[0] != b.point[0] && root.point == []
    ensures Detach([root, a, b], a.point) == [root, b] && Unstacked([root, a, b], a.point)
  {
    var p := a.point;
    assert [root, a, b] == [root] + [a] + [b] && [root] == [] + [root];
    UnstackedAppend([], root, p);
    UnstackedAppend([root], a, p);
    UnstackedAppend([root] + [a], b, p);
    DetachAppend([root], a, p);
    DetachAppend([root] + [a], b, p);
  }

  lemma HoldingOfThree(x: Mount, y: Mount, z: Mount, p: Path)
    ensures Holding([x, y], p) == if y.point <= p then Some(y) else if x.point <= p then Some(x) else None
    ensures Holding([x, y, z], p) == if z.point <= p then Some(z) else Holding([x, y], p)
  {
    assert [x, y, z] == [] + [x] + [y] + [z] && [x, y] == [] + [x] + [y];
    HoldingAppend([], x, p);
    HoldingAppend([] + [x], y, p);
    HoldingAppend([] + [x] + [y], z, p);
  }

  /** Two volumes whose mounters died with the plugin: once the heal of the first fails to remount it,
      its staging path answers the probe, though the second volume's mount is dead still. */
  lemma FailedRemountIsNotRetried(root: Mount, a: Mount, b: Mount)
    requires root.point == [] && a.point == ["a"] && b.point == ["b"] && root.dev !in {a.dev, b.dev}
    ensures var before, after, broken := [root, a, b], [root, b], {a.dev, b.dev};
            && Detached(before, after, {["a"]}, {["a"]})
            && Dead(before, broken, ["a"]) && !Dead(after, broken, ["a"]) && Dead(after, broken, ["b"])
  {
    DetachSecond(root, a, b);
    DetachOne([root, a, b], [root, a, b], {["a"]}, {}, ["a"]);
    assert {} + {["a"]} == {["a"]};
    assert !(["b"] <= ["a"]) by { assert ["b"][0] != ["a"][0]; }
    HoldingOfThree(root, a, b, ["a"]);
    HoldingOfThree(root, b, b, ["a"]);
    HoldingOfThree(root, b, b, ["b"]);
  }
}
