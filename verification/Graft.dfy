/** One graft pass over the containers that hold dead mounts: the loop of graftHolders in
    pkg/driver/graft.go. */
module Grafting {
  import opened Keys
  import opened Flags
  import opened Mounts
  import opened Holders
  import opened Hosts

  // ---- The pass, as values ----

  /** What a pass has made of the mount tables, how many helpers ran, and the devices it keeps back. */
  datatype Progress = Progress(tables: map<string, Table>, calls: nat, keep: set<string>)

  /** The helper's call for a holder: the clone comes from the holder's subPath below the staging path
      and keeps the holder's restrictions. */
  function Attempt(host: Host, stage: map<string, Path>, h: Holder, s: Progress): Ran
    requires h.mount.dev in stage
  {
    host.Run(s.tables, host.helper(s.calls), h.pid, stage[h.mount.dev] + h.mount.root, h.mount.point, Kept(h.mount.bits))
  }

  predicate Skipped(stage: map<string, Path>, h: Holder, s: Progress) {
    h.mount.dev in s.keep || h.mount.dev !in stage
  }

  /** One turn of the loop: a failed graft keeps its device back. */
  function Turn(host: Host, stage: map<string, Path>, h: Holder, s: Progress): Progress {
    if Skipped(stage, h, s) then s
    else
      var ran := Attempt(host, stage, h, s);
      Progress(ran.tables, s.calls + 1, if ran.ok then s.keep else s.keep + {h.mount.dev})
  }

  function Turns(host: Host, stage: map<string, Path>, holders: seq<Holder>, n: nat, s: Progress): Progress
    requires n <= |holders|
  {
    if n == 0 then s else Turn(host, stage, holders[n - 1], Turns(host, stage, holders, n - 1, s))
  }

  function HoldersOf(host: Host, tables: map<string, Table>, dead: set<string>): seq<Holder> {
    HeldBySpeakers(host.Proc(tables), |host.tasks|, dead)
  }

  /** The devices whose staging is dead itself. */
  function ProbedDead(host: Host, tables: map<string, Table>, stage: map<string, Path>): set<string> {
    set d | d in stage && host.own in tables && Dead(tables[host.own], host.broken, stage[d])
  }

  /** A graft pass for the devices of stage, each with its staging path. */
  function Pass(host: Host, tables: map<string, Table>, calls: nat, stage: map<string, Path>): Progress {
    if !host.hasHelper || stage == map[] then Progress(tables, calls, stage.Keys)
    else
      var holders := HoldersOf(host, tables, stage.Keys);
      Turns(host, stage, holders, |holders|, Progress(tables, calls, ProbedDead(host, tables, stage)))
  }

  // ---- The pass on the host ----

  /** Runs the helper on one holder, with the staging path p. */
  method TryGraft(host: Host, h: Holder, p: Path) returns (ok: bool)
    requires host.Valid()
    modifies host
    ensures host.Valid() && host.calls == old(host.calls) + 1
    ensures Ran(ok, host.tables) ==
            host.Run(old(host.tables), host.helper(old(host.calls)), h.pid, p + h.mount.root, h.mount.point, Kept(h.mount.bits))
  {
    var flags := GraftFlags(Options(h.mount.bits));
    RestrictionsReachTheHelper(h.mount.bits);
    ok := host.NsmountHeal(h.pid, p + h.mount.root, h.mount.point, flags);
  }

  /** Runs the helper on every holder of a device not kept back; a failure keeps its device back. */
  method GraftAll(host: Host, holders: seq<Holder>, stage: map<string, Path>, kept: set<string>) returns (keep: set<string>)
    requires host.Valid() && forall h | h in holders :: h.mount.dev in stage
    modifies host
    ensures host.Valid()
    ensures Progress(host.tables, host.calls, keep) ==
            Turns(host, stage, holders, |holders|, Progress(old(host.tables), old(host.calls), kept))
  {
    keep := kept;
    for n := 0 to |holders|
      invariant host.Valid()
      invariant Progress(host.tables, host.calls, keep) ==
                Turns(host, stage, holders, n, Progress(old(host.tables), old(host.calls), kept))
    {
      var h := holders[n];
      if h.mount.dev !in keep {
        var ok := TryGraft(host, h, stage[h.mount.dev]);
        if !ok {
          keep := keep + {h.mount.dev};
        }
      }
    }
  }

  /** Which devices a pass keeps back: those kept already, and those with a holder whose helper failed. */
  lemma {:induction false} KeptExactly(host: Host, stage: map<string, Path>, holders: seq<Holder>, n: nat, s: Progress, d: string)
    requires n <= |holders|
    ensures d in Turns(host, stage, holders, n, s).keep <==>
            d in s.keep || exists k :: 0 <= k < n && FailedAt(host, stage, holders, k, s) && holders[k].mount.dev == d
  {
    if n > 0 {
      KeptExactly(host, stage, holders, n - 1, s, d);
      if FailedAt(host, stage, holders, n - 1, s) && holders[n - 1].mount.dev == d {
        assert d in Turns(host, stage, holders, n, s).keep;
      }
    }
  }

  /** The helper was run on holder k, and failed. */
  predicate FailedAt(host: Host, stage: map<string, Path>, holders: seq<Holder>, k: nat, s: Progress)
    requires k < |holders|
  {
    var at := Turns(host, stage, holders, k, s);
    !Skipped(stage, holders[k], at) && !Attempt(host, stage, holders[k], at).ok
  }

  lemma {:induction false} KeepGrows(host: Host, stage: map<string, Path>, holders: seq<Holder>, k: nat, n: nat, s: Progress)
    requires k <= n <= |holders|
    ensures Turns(host, stage, holders, k, s).keep <= Turns(host, stage, holders, n, s).keep
  {
    if k < n {
      KeepGrows(host, stage, holders, k, n - 1, s);
    }
  }

  // ---- Staging ----

  /** A path below p lives on p's mount when nothing is mounted below p. */
  lemma {:induction false} HoldingBelow(table: Table, p: Path, q: Path)
    requires forall m | m in table && p <= m.point :: m.point == p
    ensures Holding(table, p + q) == Holding(table, p)
  {
    if table != [] {
      var last := table[|table| - 1];
      HoldingBelow(table[..|table| - 1], p, q);
      if last.point <= p + q && |last.point| >= |p| {
        assert p <= last.point;
      } else if last.point <= p + q {
        assert last.point == (p + q)[..|last.point|] == p[..|last.point|];
      }
    }
  }

  /** Nothing is mounted below the staging path, and unless its probe meets a dead endpoint its mount
      is not one of the dead devices: a dead superblock that is remembered answers no probe. */
  ghost predicate Fit(table: Table, broken: set<string>, p: Path, dead: set<string>) {
    && (forall m | m in table && p <= m.point :: m.point == p)
    && (Holding(table, p).Some? ==> Holding(table, p).value.dev in broken || Holding(table, p).value.dev !in dead)
  }

  /** What a graft puts in the place of h: what the staging path shows, at h's subPath root, with at
      least h's restrictions. */
  function Replacement(own: Table, p: Path, h: Mount): Mount
    requires Holding(own, p).Some? && Holding(own, p).value.point <= p + h.root
  {
    CloneOf(Holding(own, p).value, p + h.root, Kept(h.bits), h.point)
  }

  /** Where a container had h it finds the replacement: a mount of the device that the staging path shows, at
      h's subPath root, that restricts what either mount did. */
  ghost predicate Grafted(own: Table, p: Path, h: Mount, table: Table) {
    && Holding(own, p).Some? && Holding(own, p).value.point <= p + h.root
    && var m := Holding(own, p).value;
       Holding(table, h.point) == Some(Mount(m.dev, m.root + (p + h.root)[|m.point|..], h.point, m.bits | (h.bits & 15), m.fstype))
  }

  /** So a read-only mount stays read-only, and whatever else h or the staging's mount forbade is forbidden
      still. */
  lemma GraftedRestricts(own: Table, p: Path, h: Mount, table: Table)
    requires Grafted(own, p, h, table)
    ensures var c, m := Holding(table, h.point).value, Holding(own, p).value;
            && c.bits & (h.bits & 15) == h.bits & 15 && c.bits & m.bits == m.bits
            && (h.bits & MOUNT_ATTR_RDONLY != 0 ==> c.bits & 1 != 0) && (h.bits & MOUNT_ATTR_NOSUID != 0 ==> c.bits & 2 != 0)
            && (h.bits & MOUNT_ATTR_NODEV != 0 ==> c.bits & 4 != 0) && (h.bits & MOUNT_ATTR_NOEXEC != 0 ==> c.bits & 8 != 0)
  {}

  // ---- What a pass does to each holder ----

  ghost function VisibleSet(host: Host): set<string> {
    set t | t in host.tasks && host.Visible(t.ns) :: t.ns
  }

  function NsName(host: Host, h: Holder): string {
    var ns := NsOf(host.tasks, h.pid);
    if ns.Some? then ns.value else ""
  }

  ghost predicate HeldAt(host: Host, holders: seq<Holder>, ns: string, m: Mount) {
    exists j :: 0 <= j < |holders| && NsOf(host.tasks, holders[j].pid) == Some(ns) && holders[j].mount == m
  }

  /** The holders are the dead FUSE mounts of the visible namespaces, each once, none above another. */
  ghost predicate AllHeld(host: Host, tables: map<string, Table>, holders: seq<Holder>, dead: set<string>) {
    && (forall j | 0 <= j < |holders| :: HolderFits(host, tables, holders[j], dead))
    && (forall i, j | 0 <= i < |holders| && 0 <= j < |holders| && i != j && NsName(host, holders[i]) == NsName(host, holders[j]) ::
          !(holders[i].mount.point <= holders[j].mount.point))
    && (forall ns, m {:trigger HeldAt(host, holders, ns, m)} | ns in VisibleSet(host) && ns in tables && m in tables[ns]
          && DeadFuse(m, dead) :: HeldAt(host, holders, ns, m))
  }

  ghost predicate HolderFits(host: Host, tables: map<string, Table>, h: Holder, dead: set<string>) {
    && NsOf(host.tasks, h.pid) == Some(NsName(host, h)) && NsName(host, h) in VisibleSet(host) && NsName(host, h) in tables
    && DeadFuse(h.mount, dead) && h.mount in tables[NsName(host, h)]
  }

  ghost predicate AllScattered(host: Host, tables: map<string, Table>, dead: set<string>) {
    forall ns | ns in VisibleSet(host) :: ns in tables && Scattered(tables[ns], dead)
  }

  /** The stagings of the devices not kept back answer, and show none of the dead devices. */
  ghost predicate Answering(host: Host, own: Table, stage: map<string, Path>, keep: set<string>, dead: set<string>) {
    forall d | d in stage && d !in keep :: Fit(own, host.broken, stage[d], dead) && !Dead(own, host.broken, stage[d])
  }

  /** A pass over these holders may start. dead may name more devices than the pass looks for: those of
      earlier and later passes. */
  ghost predicate Ready(host: Host, stage: map<string, Path>, holders: seq<Holder>, s: Progress, dead: set<string>) {
    && stage.Keys <= dead && host.Sound(s.tables) && AllScattered(host, s.tables, dead)
    && AllHeld(host, s.tables, holders, stage.Keys) && Answering(host, s.tables[host.own], stage, s.keep, dead)
  }

  /** A call of the helper leaves alone every mount that is not at or below its target. */
  lemma RunElsewhere(host: Host, tables: map<string, Table>, goes: Helper, pid: nat, src: Path, target: Path, bits: bv8,
                     ns: string, m: Mount)
    requires ns in tables && (NsOf(host.tasks, pid) == Some(ns) ==> !(target <= m.point))
    ensures var ran := host.Run(tables, goes, pid, src, target, bits);
            ran.tables.Keys == tables.Keys && SameStanding(tables[ns], ran.tables[ns], m)
  {
    if host.Reaches(tables, goes, pid, src) && NsOf(host.tasks, pid) == Some(ns) {
      HoldingIsAbove(tables[host.own], src);
      var clone := CloneOf(Holding(tables[host.own], src).value, src, bits, target);
      ElsewhereUnmoved(tables[ns], target, clone, m);
      ElsewhereUnmoved(Detach(tables[ns], target), target, clone, m);
    }
  }

  /** The umount2 of a call for holder h takes h's mount: the call gets that far, its umount2 works, and
      the mount is what the container finds there, not another over it. */
  predicate Takes(host: Host, before: map<string, Table>, goes: Helper, h: Holder, p: Path) {
    && host.Reaches(before, goes, h.pid, p + h.mount.root) && goes.detaches
    && NsName(host, h) in before && Holding(before[NsName(host, h)], h.mount.point) == Some(h.mount)
  }

  /** The helper has run on holder h when the tables were before: its mount is still in the container's
      table iff no umount2 took it, and if the helper worked the container finds the replacement. */
  ghost predicate Treated(host: Host, before: map<string, Table>, goes: Helper, h: Holder, p: Path, table: Table) {
    && (h.mount in table <==> !Takes(host, before, goes, h, p))
    && (host.Reaches(before, goes, h.pid, p + h.mount.root) && goes.moves ==>
          host.own in before && Grafted(before[host.own], p, h.mount, table))
  }

  lemma RunTreats(host: Host, tables: map<string, Table>, goes: Helper, h: Holder, p: Path, dead: set<string>)
    requires host.Sound(tables) && HolderFits(host, tables, h, dead) && Scattered(tables[NsName(host, h)], dead)
    requires Fit(tables[host.own], host.broken, p, dead) && !Dead(tables[host.own], host.broken, p)
    ensures var ran := host.Run(tables, goes, h.pid, p + h.mount.root, h.mount.point, Kept(h.mount.bits));
            && ran.tables.Keys == tables.Keys && Treated(host, tables, goes, h, p, ran.tables[NsName(host, h)])
            && (ran.ok <==> host.Reaches(tables, goes, h.pid, p + h.mount.root) && goes.moves)
  {
    var ns, own := NsName(host, h), tables[host.own];
    var ran := host.Run(tables, goes, h.pid, p + h.mount.root, h.mount.point, Kept(h.mount.bits));
    DetachTakesShown(tables[ns], h.mount, dead);
    HoldingBelow(own, p, h.mount.root);
    HoldingIsAbove(own, p);
    if ran.ok {
      RunPutsClone(host, tables, goes, h.pid, p + h.mount.root, h.mount.point, Kept(h.mount.bits));
      assert Replacement(own, p, h.mount) != h.mount;
    }
  }

  /** A call leaves the dead mounts apart and adds none. */
  lemma RunKeepsScattered(host: Host, tables: map<string, Table>, goes: Helper, h: Holder, p: Path, dead: set<string>)
    requires host.Sound(tables) && HolderFits(host, tables, h, dead) && Scattered(tables[NsName(host, h)], dead)
    requires Fit(tables[host.own], host.broken, p, dead) && !Dead(tables[host.own], host.broken, p)
    ensures var ns, ran := NsName(host, h), host.Run(tables, goes, h.pid, p + h.mount.root, h.mount.point, Kept(h.mount.bits));
            && ran.tables.Keys == tables.Keys && ran.tables == tables[ns := ran.tables[ns]]
            && Scattered(ran.tables[ns], dead) && forall m | m in ran.tables[ns] && DeadFuse(m, dead) :: m in tables[ns]
  {
    var ns, own := NsName(host, h), tables[host.own];
    DetachTakesNoMore(tables[ns], h.mount.point);
    DetachKeepsScattered(tables[ns], h.mount.point, dead);
    HoldingBelow(own, p, h.mount.root);
    HoldingIsAbove(own, p);
    if host.Reaches(tables, goes, h.pid, p + h.mount.root) {
      var left := if goes.detaches then Detach(tables[ns], h.mount.point) else tables[ns];
      MountKeepsScattered(left, Replacement(own, p, h.mount), dead);
    }
  }

  /** Where holder k stands after n turns: as it stood before, or as its own turn left it. */
  ghost predicate Stands(host: Host, stage: map<string, Path>, holders: seq<Holder>, n: nat, s: Progress, k: nat)
    requires n <= |holders| && k < |holders|
  {
    var now, h := Turns(host, stage, holders, n, s), holders[k];
    var at := Turns(host, stage, holders, if k < n then k else n, s);
    && NsName(host, h) in now.tables && NsName(host, h) in s.tables
    && if n <= k || Skipped(stage, h, at) then SameStanding(s.tables[NsName(host, h)], now.tables[NsName(host, h)], h.mount)
       else Treated(host, at.tables, host.helper(at.calls), h, stage[h.mount.dev], now.tables[NsName(host, h)])
  }

  /** Nothing but the containers' tables changes, no dead mount comes to them, and those there stay apart. */
  ghost predicate OnlyContainers(host: Host, before: map<string, Table>, tables: map<string, Table>, dead: set<string>) {
    && tables.Keys == before.Keys && host.Sound(tables) && host.own in before && tables[host.own] == before[host.own]
    && AllScattered(host, tables, dead)
    && forall ns, m | ns in VisibleSet(host) && ns in tables && m in tables[ns] && DeadFuse(m, dead) :: m in before[ns]
  }

  lemma RunTouchesContainers(host: Host, tables: map<string, Table>, goes: Helper, h: Holder, p: Path, dead: set<string>)
    requires host.Sound(tables) && HolderFits(host, tables, h, dead) && AllScattered(host, tables, dead)
    requires Fit(tables[host.own], host.broken, p, dead) && !Dead(tables[host.own], host.broken, p)
    ensures var ran := host.Run(tables, goes, h.pid, p + h.mount.root, h.mount.point, Kept(h.mount.bits));
            OnlyContainers(host, tables, ran.tables, dead)
  {
    RunKeepsScattered(host, tables, goes, h, p, dead);
  }

  lemma OnlyContainersOnward(host: Host, first: map<string, Table>, next: map<string, Table>, last: map<string, Table>, dead: set<string>)
    requires OnlyContainers(host, first, next, dead) && OnlyContainers(host, next, last, dead)
    ensures OnlyContainers(host, first, last, dead)
  {}

  /** A holder whose turn has not come stands where it did, and its staging answers if it is not skipped. */
  lemma TurnIsFit(host: Host, stage: map<string, Path>, holders: seq<Holder>, n: nat, s: Progress, dead: set<string>)
    requires n < |holders| && Ready(host, stage, holders, s, dead) && Stands(host, stage, holders, n, s, n)
    requires OnlyContainers(host, s.tables, Turns(host, stage, holders, n, s).tables, dead)
    ensures var now, h := Turns(host, stage, holders, n, s), holders[n];
            && HolderFits(host, now.tables, h, dead) && Scattered(now.tables[NsName(host, h)], dead)
            && (!Skipped(stage, h, now) ==>
                  Fit(now.tables[host.own], host.broken, stage[h.mount.dev], dead)
                  && !Dead(now.tables[host.own], host.broken, stage[h.mount.dev]))
  {
    KeepGrows(host, stage, holders, 0, n, s);
    assert HolderFits(host, s.tables, holders[n], stage.Keys);
  }

  lemma TurnTouchesContainers(host: Host, stage: map<string, Path>, holders: seq<Holder>, n: nat, s: Progress, dead: set<string>)
    requires 0 < n <= |holders| && Ready(host, stage, holders, s, dead) && Stands(host, stage, holders, n - 1, s, n - 1)
    requires OnlyContainers(host, s.tables, Turns(host, stage, holders, n - 1, s).tables, dead)
    ensures OnlyContainers(host, s.tables, Turns(host, stage, holders, n, s).tables, dead)
  {
    var now, h := Turns(host, stage, holders, n - 1, s), holders[n - 1];
    TurnIsFit(host, stage, holders, n - 1, s, dead);
    if !Skipped(stage, h, now) {
      RunTouchesContainers(host, now.tables, host.helper(now.calls), h, stage[h.mount.dev], dead);
      OnlyContainersOnward(host, s.tables, now.tables, Turns(host, stage, holders, n, s).tables, dead);
    }
  }

  /** The n-th holder's own turn. */
  lemma OwnTurn(host: Host, stage: map<string, Path>, holders: seq<Holder>, n: nat, s: Progress, dead: set<string>)
    requires 0 < n <= |holders| && Ready(host, stage, holders, s, dead) && Stands(host, stage, holders, n - 1, s, n - 1)
    requires OnlyContainers(host, s.tables, Turns(host, stage, holders, n - 1, s).tables, dead)
    ensures Stands(host, stage, holders, n, s, n - 1)
  {
    var now, h := Turns(host, stage, holders, n - 1, s), holders[n - 1];
    TurnIsFit(host, stage, holders, n - 1, s, dead);
    if !Skipped(stage, h, now) {
      RunTreats(host, now.tables, host.helper(now.calls), h, stage[h.mount.dev], dead);
    }
  }

  /** The n-th turn leaves alone a mount that is not at or below the point of its holder. */
  lemma TurnElsewhere(host: Host, stage: map<string, Path>, holders: seq<Holder>, n: nat, s: Progress, ns: string, m: Mount)
    requires 0 < n <= |holders| && ns in Turns(host, stage, holders, n - 1, s).tables
    requires NsOf(host.tasks, holders[n - 1].pid) == Some(ns) ==> !(holders[n - 1].mount.point <= m.point)
    ensures var now, next := Turns(host, stage, holders, n - 1, s).tables, Turns(host, stage, holders, n, s).tables;
            ns in next && SameStanding(now[ns], next[ns], m)
  {
    var now, h := Turns(host, stage, holders, n - 1, s), holders[n - 1];
    if !Skipped(stage, h, now) {
      RunElsewhere(host, now.tables, host.helper(now.calls), h.pid, stage[h.mount.dev] + h.mount.root, h.mount.point,
                   Kept(h.mount.bits), ns, m);
    }
  }

  lemma OtherTurn(host: Host, stage: map<string, Path>, holders: seq<Holder>, n: nat, s: Progress, k: nat, dead: set<string>)
    requires 0 < n <= |holders| && k < |holders| && k != n - 1 && Ready(host, stage, holders, s, dead)
    requires Stands(host, stage, holders, n - 1, s, k)
    ensures Stands(host, stage, holders, n, s, k)
  {
    assert HolderFits(host, s.tables, holders[n - 1], stage.Keys) && HolderFits(host, s.tables, holders[k], stage.Keys);
    TurnElsewhere(host, stage, holders, n, s, NsName(host, holders[k]), holders[k].mount);
  }

  /** After any number of turns: each holder stands as its turn left it. */
  lemma {:induction false} AllStand(host: Host, stage: map<string, Path>, holders: seq<Holder>, n: nat, s: Progress, dead: set<string>)
    requires n <= |holders| && Ready(host, stage, holders, s, dead)
    ensures OnlyContainers(host, s.tables, Turns(host, stage, holders, n, s).tables, dead)
    ensures forall k | 0 <= k < |holders| :: Stands(host, stage, holders, n, s, k)
  {
    if n == 0 {
      NothingMoved(host, stage, holders, s, dead);
    } else {
      AllStand(host, stage, holders, n - 1, s, dead);
      assert holders[n - 1] in holders;
      TurnTouchesContainers(host, stage, holders, n, s, dead);
      OneTurnMore(host, stage, holders, n, s, dead);
    }
  }

  lemma OneTurnMore(host: Host, stage: map<string, Path>, holders: seq<Holder>, n: nat, s: Progress, dead: set<string>)
    requires 0 < n <= |holders| && Ready(host, stage, holders, s, dead)
    requires OnlyContainers(host, s.tables, Turns(host, stage, holders, n - 1, s).tables, dead)
    requires forall k {:trigger holders[k]} | 0 <= k < |holders| :: Stands(host, stage, holders, n - 1, s, k)
    ensures forall k | 0 <= k < |holders| :: Stands(host, stage, holders, n, s, k)
  {
    forall k | 0 <= k < |holders| ensures Stands(host, stage, holders, n, s, k) {
      assert holders[k] in holders;
      OneStands(host, stage, holders, n, s, k, dead);
    }
  }

  lemma OneStands(host: Host, stage: map<string, Path>, holders: seq<Holder>, n: nat, s: Progress, k: nat, dead: set<string>)
    requires 0 < n <= |holders| && k < |holders| && Ready(host, stage, holders, s, dead)
    requires OnlyContainers(host, s.tables, Turns(host, stage, holders, n - 1, s).tables, dead)
    requires Stands(host, stage, holders, n - 1, s, k)
    ensures Stands(host, stage, holders, n, s, k)
  {
    if k == n - 1 {
      OwnTurn(host, stage, holders, n, s, dead);
    } else {
      OtherTurn(host, stage, holders, n, s, k, dead);
    }
  }

  lemma NothingMoved(host: Host, stage: map<string, Path>, holders: seq<Holder>, s: Progress, dead: set<string>)
    requires Ready(host, stage, holders, s, dead)
    ensures OnlyContainers(host, s.tables, Turns(host, stage, holders, 0, s).tables, dead)
    ensures forall k | 0 <= k < |holders| :: Stands(host, stage, holders, 0, s, k)
  {
    forall k | 0 <= k < |holders| ensures Stands(host, stage, holders, 0, s, k) {
      assert HolderFits(host, s.tables, holders[k], stage.Keys);
    }
  }

  /** A dead mount that the pass does not look for stands as it did. */
  lemma {:induction false} BystanderStays(host: Host, stage: map<string, Path>, holders: seq<Holder>, n: nat, s: Progress,
                                          dead: set<string>, ns: string, m: Mount)
    requires n <= |holders| && Ready(host, stage, holders, s, dead)
    requires ns in VisibleSet(host) && m in s.tables[ns] && DeadFuse(m, dead) && m.dev !in stage
    ensures ns in Turns(host, stage, holders, n, s).tables
    ensures SameStanding(s.tables[ns], Turns(host, stage, holders, n, s).tables[ns], m)
  {
    if n > 0 {
      BystanderStays(host, stage, holders, n - 1, s, dead, ns, m);
      assert HolderFits(host, s.tables, holders[n - 1], stage.Keys);
      if NsOf(host.tasks, holders[n - 1].pid) == Some(ns) {
        ScatteredApart(s.tables[ns], dead, holders[n - 1].mount, m);
      }
      TurnElsewhere(host, stage, holders, n, s, ns, m);
    }
  }

  // ---- What a whole pass does ----

  /** No path of a container meets a FUSE mount of d. */
  ghost predicate Unmet(host: Host, tables: map<string, Table>, d: string) {
    forall ns, q | ns in VisibleSet(host) && ns in tables && Holding(tables[ns], q).Some? :: !DeadFuse(Holding(tables[ns], q).value, {d})
  }

  /** What the pass owes a device that it does not keep back. */
  ghost predicate Replaced(host: Host, before: map<string, Table>, tables: map<string, Table>, p: Path, d: string) {
    && host.own in before && !Dead(before[host.own], host.broken, p)
    && (forall ns, m | ns in VisibleSet(host) && ns in before && ns in tables && m in before[ns] && DeadFuse(m, {d}) ::
          Grafted(before[host.own], p, m, tables[ns]))
    && Unmet(host, tables, d)
  }

  /** Every holder of a device that the pass does not keep back was treated, and its helper worked. */
  lemma HolderServed(host: Host, stage: map<string, Path>, holders: seq<Holder>, s: Progress, k: nat)
    requires k < |holders| && holders[k].mount.dev in stage
    requires holders[k].mount.dev !in Turns(host, stage, holders, |holders|, s).keep
    ensures var at := Turns(host, stage, holders, k, s);
            !Skipped(stage, holders[k], at) && Attempt(host, stage, holders[k], at).ok
  {
    KeepGrows(host, stage, holders, k, |holders|, s);
    KeepGrows(host, stage, holders, k + 1, |holders|, s);
  }

  lemma HolderGrafted(host: Host, stage: map<string, Path>, holders: seq<Holder>, s: Progress, ns: string, m: Mount)
    requires Ready(host, stage, holders, s, stage.Keys)
    requires ns in VisibleSet(host) && ns in s.tables && m in s.tables[ns] && DeadFuse(m, stage.Keys)
    requires m.dev !in Turns(host, stage, holders, |holders|, s).keep
    ensures var end := Turns(host, stage, holders, |holders|, s);
            ns in end.tables && Grafted(s.tables[host.own], stage[m.dev], m, end.tables[ns])
  {
    AllStand(host, stage, holders, |holders|, s, stage.Keys);
    assert HeldAt(host, holders, ns, m);
    var k :| 0 <= k < |holders| && NsOf(host.tasks, holders[k].pid) == Some(ns) && holders[k].mount == m;
    HolderServed(host, stage, holders, s, k);
    AllStand(host, stage, holders, k, s, stage.Keys);
    assert Stands(host, stage, holders, |holders|, s, k) && NsName(host, holders[k]) == ns;
  }

  /** Every dead mount of d that was there is found replaced, so no path meets one. */
  lemma ReplacedIsUnmet(host: Host, before: map<string, Table>, tables: map<string, Table>, p: Path, d: string, dead: set<string>)
    requires host.own in before && before.Keys == tables.Keys && d in dead
    requires Holding(before[host.own], p).Some? ==> Holding(before[host.own], p).value.dev !in dead
    requires forall ns, m | ns in VisibleSet(host) && ns in before && m in before[ns] && DeadFuse(m, {d}) ::
               Grafted(before[host.own], p, m, tables[ns])
    requires forall ns, m | ns in VisibleSet(host) && ns in tables && m in tables[ns] && DeadFuse(m, dead) :: m in before[ns]
    ensures Unmet(host, tables, d)
  {
    forall ns, m | ns in VisibleSet(host) && ns in before && m in before[ns] && DeadFuse(m, {d})
      ensures Holding(tables[ns], m.point).Some? && Holding(tables[ns], m.point).value.dev != d
    {}
    forall ns, q | ns in VisibleSet(host) && ns in tables && Holding(tables[ns], q).Some?
      ensures !DeadFuse(Holding(tables[ns], q).value, {d})
    {
      var x := Holding(tables[ns], q).value;
      ShownAtItsPoint(tables[ns], q);
      HoldingIsAbove(tables[ns], q);
      assert DeadFuse(x, {d}) ==> DeadFuse(x, dead);
    }
  }

  lemma TurnsReplace(host: Host, stage: map<string, Path>, holders: seq<Holder>, s: Progress, d: string)
    requires Ready(host, stage, holders, s, stage.Keys)
    requires d in stage && d !in Turns(host, stage, holders, |holders|, s).keep
    ensures Replaced(host, s.tables, Turns(host, stage, holders, |holders|, s).tables, stage[d], d)
  {
    var end := Turns(host, stage, holders, |holders|, s);
    AllStand(host, stage, holders, |holders|, s, stage.Keys);
    KeepGrows(host, stage, holders, 0, |holders|, s);
    forall ns, m | ns in VisibleSet(host) && ns in s.tables && m in s.tables[ns] && DeadFuse(m, {d})
      ensures Grafted(s.tables[host.own], stage[d], m, end.tables[ns])
    {
      HolderGrafted(host, stage, holders, s, ns, m);
    }
    ReplacedIsUnmet(host, s.tables, end.tables, stage[d], d, stage.Keys);
  }

  /** A device that a pass does not keep back is off the containers' hands. */
  lemma PassReplaces(host: Host, tables: map<string, Table>, calls: nat, stage: map<string, Path>, d: string)
    requires host.Sound(tables) && AllScattered(host, tables, stage.Keys)
    requires forall d | d in stage :: Fit(tables[host.own], host.broken, stage[d], stage.Keys)
    requires d in stage && d !in Pass(host, tables, calls, stage).keep
    ensures Replaced(host, tables, Pass(host, tables, calls, stage).tables, stage[d], d)
  {
    HoldersAreAllHeld(host, tables, stage.Keys);
    TurnsReplace(host, stage, HoldersOf(host, tables, stage.Keys), Progress(tables, calls, ProbedDead(host, tables, stage)), d);
  }

  /** A pass keeps back every device if there is no helper; else exactly those whose staging is dead
      itself, and those with a holder that the helper failed on. */
  lemma PassKeepsExactly(host: Host, tables: map<string, Table>, calls: nat, stage: map<string, Path>, d: string)
    requires d in stage && host.own in tables
    ensures d in Pass(host, tables, calls, stage).keep <==>
            || !host.hasHelper || Dead(tables[host.own], host.broken, stage[d])
            || var holders, s := HoldersOf(host, tables, stage.Keys), Progress(tables, calls, ProbedDead(host, tables, stage));
               exists k :: 0 <= k < |holders| && FailedAt(host, stage, holders, k, s) && holders[k].mount.dev == d
  {
    if host.hasHelper {
      var holders := HoldersOf(host, tables, stage.Keys);
      KeptExactly(host, stage, holders, |holders|, Progress(tables, calls, ProbedDead(host, tables, stage)), d);
    }
  }

  /** The helper is there and works whenever it is called. */
  ghost predicate AlwaysWorks(host: Host) {
    host.hasHelper && forall n :: host.helper(n).Enters? && host.helper(n).moves
  }

  /** With stagings that answer and a helper that works, a pass keeps no device back. */
  lemma HealthyPassKeepsNone(host: Host, tables: map<string, Table>, calls: nat, stage: map<string, Path>)
    requires host.Sound(tables) && AllScattered(host, tables, stage.Keys) && AlwaysWorks(host)
    requires forall d | d in stage :: Fit(tables[host.own], host.broken, stage[d], stage.Keys)
    requires forall d | d in stage :: Holding(tables[host.own], stage[d]).Some? && !Dead(tables[host.own], host.broken, stage[d])
    ensures Pass(host, tables, calls, stage).keep == {}
  {
    var holders, s := HoldersOf(host, tables, stage.Keys), Progress(tables, calls, ProbedDead(host, tables, stage));
    HoldersAreAllHeld(host, tables, stage.Keys);
    forall k | 0 <= k < |holders| ensures !FailedAt(host, stage, holders, k, s) {
      HealthyTurnWorks(host, stage, holders, k, s);
    }
    forall d | d in stage ensures d !in Pass(host, tables, calls, stage).keep {
      PassKeepsExactly(host, tables, calls, stage, d);
    }
    KeepsOnlyStaged(host, stage, holders, |holders|, s);
  }

  lemma {:induction false} KeepsOnlyStaged(host: Host, stage: map<string, Path>, holders: seq<Holder>, n: nat, s: Progress)
    requires n <= |holders| && s.keep <= stage.Keys
    ensures Turns(host, stage, holders, n, s).keep <= stage.Keys
  {
    if n > 0 {
      KeepsOnlyStaged(host, stage, holders, n - 1, s);
    }
  }

  lemma HealthyTurnWorks(host: Host, stage: map<string, Path>, holders: seq<Holder>, k: nat, s: Progress)
    requires k < |holders| && Ready(host, stage, holders, s, stage.Keys) && AlwaysWorks(host)
    requires forall d | d in stage :: Fit(s.tables[host.own], host.broken, stage[d], stage.Keys)
                                      && Holding(s.tables[host.own], stage[d]).Some?
    ensures !FailedAt(host, stage, holders, k, s)
  {
    var h := holders[k];
    AllStand(host, stage, holders, k, s, stage.Keys);
    assert HolderFits(host, s.tables, h, stage.Keys);
    HoldingBelow(s.tables[host.own], stage[h.mount.dev], h.mount.root);
  }

  /** The umount2 of holder k's turn took its mount from the container's table. */
  predicate TakenAt(host: Host, stage: map<string, Path>, holders: seq<Holder>, k: nat, s: Progress)
    requires k < |holders|
  {
    var at, h := Turns(host, stage, holders, k, s), holders[k];
    !Skipped(stage, h, at) && Takes(host, at.tables, host.helper(at.calls), h, stage[h.mount.dev])
  }

  /** What a container finds at a holder's point at its turn is what it found there when the pass began. */
  lemma ShownAsAtFirst(host: Host, stage: map<string, Path>, holders: seq<Holder>, k: nat, s: Progress, dead: set<string>)
    requires k < |holders| && Ready(host, stage, holders, s, dead)
    ensures var ns, p := NsName(host, holders[k]), holders[k].mount.point;
            ns in s.tables && ns in Turns(host, stage, holders, k, s).tables
            && Holding(Turns(host, stage, holders, k, s).tables[ns], p) == Holding(s.tables[ns], p)
  {
    AllStand(host, stage, holders, k, s, dead);
    assert Stands(host, stage, holders, k, s, k);
  }

  lemma StaysIffNotTaken(host: Host, stage: map<string, Path>, holders: seq<Holder>, k: nat, s: Progress, dead: set<string>)
    requires k < |holders| && Ready(host, stage, holders, s, dead)
    ensures var after := Turns(host, stage, holders, |holders|, s).tables;
            NsName(host, holders[k]) in after
            && (holders[k].mount in after[NsName(host, holders[k])] <==> !TakenAt(host, stage, holders, k, s))
  {
    AllStand(host, stage, holders, |holders|, s, dead);
    assert HolderFits(host, s.tables, holders[k], stage.Keys) && Stands(host, stage, holders, |holders|, s, k);
  }

  /** After a pass, a dead mount is found again by the next findHolders, its device still remembered,
      exactly when no umount2 took it -- the device was kept back before its turn came, or the helper
      stopped before its umount2, or that failed, or another mount lay over this one and was taken in its
      stead. So a graft that failed is retried only in those cases. */
  lemma FoundAgainIffNotTaken(host: Host, stage: map<string, Path>, holders: seq<Holder>, k: nat, s: Progress,
                              remembered: set<string>, dead: set<string>)
    requires k < |holders| && Ready(host, stage, holders, s, dead) && holders[k].mount.dev in remembered
    ensures var after := Turns(host, stage, holders, |holders|, s).tables;
            (exists pid :: NsOf(host.tasks, pid) == NsOf(host.tasks, holders[k].pid)
                           && Holder(pid, holders[k].mount) in HoldersOf(host, after, remembered))
            <==> !TakenAt(host, stage, holders, k, s)
  {
    var h := holders[k];
    AllStand(host, stage, holders, |holders|, s, dead);
    assert HolderFits(host, s.tables, h, stage.Keys);
    StaysIffNotTaken(host, stage, holders, k, s, dead);
    FoundIffThere(host, Turns(host, stage, holders, |holders|, s).tables, remembered, NsName(host, h), h.mount);
  }

  /** So after a pass no visible container holds a device any more -- findHolders reports none -- exactly
      when the umount2 of each of its holders' turns took the mount. */
  lemma NoHolderLeftIff(host: Host, stage: map<string, Path>, holders: seq<Holder>, s: Progress, d: string, dead: set<string>)
    requires Ready(host, stage, holders, s, dead) && d in stage
    ensures HoldersOf(host, Turns(host, stage, holders, |holders|, s).tables, {d}) == []
            <==> forall k | 0 <= k < |holders| && holders[k].mount.dev == d :: TakenAt(host, stage, holders, k, s)
  {
    var after := Turns(host, stage, holders, |holders|, s).tables;
    forall k | 0 <= k < |holders| && holders[k].mount.dev == d && !TakenAt(host, stage, holders, k, s)
      ensures HoldersOf(host, after, {d}) != []
    {
      FoundAgainIffNotTaken(host, stage, holders, k, s, {d}, dead);
    }
    if HoldersOf(host, after, {d}) != [] {
      var k := OriginOfHolder(host, stage, holders, s, HoldersOf(host, after, {d})[0], d, dead);
      FoundAgainIffNotTaken(host, stage, holders, k, s, {d}, dead);
    }
  }

  /** A holder found after a pass was one before it. */
  lemma OriginOfHolder(host: Host, stage: map<string, Path>, holders: seq<Holder>, s: Progress, h: Holder, d: string, dead: set<string>)
    returns (k: nat)
    requires Ready(host, stage, holders, s, dead) && d in stage
    requires h in HoldersOf(host, Turns(host, stage, holders, |holders|, s).tables, {d})
    ensures k < |holders| && holders[k].mount == h.mount && h.mount.dev == d && NsOf(host.tasks, holders[k].pid) == NsOf(host.tasks, h.pid)
  {
    AllStand(host, stage, holders, |holders|, s, dead);
    var i := HolderSource(host, Turns(host, stage, holders, |holders|, s).tables, {d}, h);
    assert DeadFuse(h.mount, dead) && DeadFuse(h.mount, stage.Keys) && HeldAt(host, holders, host.tasks[i].ns, h.mount);
    k :| 0 <= k < |holders| && NsOf(host.tasks, holders[k].pid) == Some(host.tasks[i].ns) && holders[k].mount == h.mount;
  }

  /** findHolders reports a dead FUSE mount of a visible namespace iff it is in that namespace's table. */
  lemma FoundIffThere(host: Host, tables: map<string, Table>, dead: set<string>, ns: string, m: Mount)
    requires host.Sound(tables) && ns in VisibleSet(host) && DeadFuse(m, dead)
    ensures (exists pid :: NsOf(host.tasks, pid) == Some(ns) && Holder(pid, m) in HoldersOf(host, tables, dead)) <==> m in tables[ns]
  {
    if pid :| NsOf(host.tasks, pid) == Some(ns) && Holder(pid, m) in HoldersOf(host, tables, dead) {
      var i := HolderSource(host, tables, dead, Holder(pid, m));
    }
    if m in tables[ns] {
      var pid := DeadMountIsHeld(host, tables, dead, ns, m);
    }
  }

  // ---- What findHolders hands to the pass ----

  ghost predicate Apart(hs: seq<Holder>) {
    forall i, j | 0 <= i < |hs| && 0 <= j < |hs| && i != j && hs[i].pid == hs[j].pid ::
      !(hs[i].mount.point <= hs[j].mount.point)
  }

  lemma {:induction false} HeldIsApart(pid: nat, table: Table, dead: set<string>)
    requires Scattered(table, dead)
    ensures Apart(Held(pid, table, dead))
    ensures forall h | h in Held(pid, table, dead) :: h.pid == pid
  {
    if table != [] {
      var init := table[..|table| - 1];
      HeldIsApart(pid, init, dead);
      var hs := Held(pid, init, dead);
      forall i | 0 <= i < |hs| ensures hs[i].mount in init && DeadFuse(hs[i].mount, dead) {
        HeldExactly(pid, init, dead, hs[i]);
      }
    }
  }

  ghost predicate PidsDiffer(proc: ProcDir) {
    forall i, j | 0 <= i < j < |proc.entries| && proc.entries[i].pid.Some? :: proc.entries[i].pid != proc.entries[j].pid
  }

  lemma {:induction false} HoldersAreApart(proc: ProcDir, n: nat, dead: set<string>)
    requires n <= |proc.entries| && PidsDiffer(proc)
    requires forall i | 0 <= i < n && Readable(proc, proc.entries[i]) :: Scattered(proc.entries[i].mounts.value, dead)
    ensures Apart(HeldBySpeakers(proc, n, dead))
    ensures forall h | h in HeldBySpeakers(proc, n, dead) :: exists i :: 0 <= i < n && proc.entries[i].pid == Some(h.pid)
  {
    if n > 0 {
      HoldersAreApart(proc, n - 1, dead);
      if Speaks(proc, n - 1) {
        var e := proc.entries[n - 1];
        HeldIsApart(e.pid.value, e.mounts.value, dead);
        var before := HeldBySpeakers(proc, n - 1, dead);
        assert forall i | 0 <= i < |before| :: before[i] in before && before[i].pid != e.pid.value;
      }
    }
  }

  /** A holder comes from the one process that speaks for its namespace. */
  lemma HolderSource(host: Host, tables: map<string, Table>, dead: set<string>, h: Holder) returns (i: nat)
    requires host.Sound(tables) && h in HoldersOf(host, tables, dead)
    ensures i < |host.tasks| && Speaks(host.Proc(tables), i) && host.tasks[i].pid == h.pid
    ensures NsOf(host.tasks, h.pid) == Some(host.tasks[i].ns) && host.tasks[i].ns in VisibleSet(host)
    ensures h.mount in tables[host.tasks[i].ns] && DeadFuse(h.mount, dead)
  {
    var proc := host.Proc(tables);
    HeldBySpeakersExactly(proc, |host.tasks|, dead, h);
    i :| 0 <= i < |host.tasks| && Speaks(proc, i) && proc.entries[i].pid == Some(h.pid)
         && h.mount in proc.entries[i].mounts.value && DeadFuse(h.mount, dead);
    NsOfTask(host.tasks, i);
    assert host.Visible(host.tasks[i].ns);
  }

  lemma SameNamespaceSamePid(host: Host, tables: map<string, Table>, dead: set<string>, g: Holder, h: Holder)
    requires host.Sound(tables)
    requires g in HoldersOf(host, tables, dead) && h in HoldersOf(host, tables, dead)
    requires NsOf(host.tasks, g.pid) == NsOf(host.tasks, h.pid)
    ensures g.pid == h.pid
  {
    var proc := host.Proc(tables);
    var a := HolderSource(host, tables, dead, g);
    var b := HolderSource(host, tables, dead, h);
    assert proc.entries[a].ns == proc.entries[b].ns;
    assert a == b;
  }

  lemma DeadMountIsHeld(host: Host, tables: map<string, Table>, dead: set<string>, ns: string, m: Mount) returns (pid: nat)
    requires host.Sound(tables) && ns in VisibleSet(host) && m in tables[ns] && DeadFuse(m, dead)
    ensures Holder(pid, m) in HoldersOf(host, tables, dead)
    ensures NsOf(host.tasks, pid) == Some(ns)
  {
    var proc := host.Proc(tables);
    var t :| t in host.tasks && t.ns == ns && host.Visible(ns);
    var u :| u in host.tasks && u.ns == ns && u.readable;
    var k :| 0 <= k < |host.tasks| && host.tasks[k] == u;
    var i := OneSpeaker(proc, k);
    pid := host.tasks[i].pid;
    HeldBySpeakersExactly(proc, |host.tasks|, dead, Holder(pid, m));
    NsOfTask(host.tasks, i);
  }

  /** What findHolders reports is every dead FUSE mount of every visible namespace, each once. */
  lemma HoldersAreAllHeld(host: Host, tables: map<string, Table>, dead: set<string>)
    requires host.Sound(tables) && AllScattered(host, tables, dead)
    ensures AllHeld(host, tables, HoldersOf(host, tables, dead), dead)
  {
    var out := HoldersOf(host, tables, dead);
    OutIsApart(host, tables, dead);
    forall j | 0 <= j < |out| ensures HolderFits(host, tables, out[j], dead) {
      var i := HolderSource(host, tables, dead, out[j]);
    }
    forall i, j | 0 <= i < |out| && 0 <= j < |out| && i != j && NsName(host, out[i]) == NsName(host, out[j])
      ensures !(out[i].mount.point <= out[j].mount.point)
    {
      assert HolderFits(host, tables, out[i], dead) && HolderFits(host, tables, out[j], dead);
      SameNamespaceSamePid(host, tables, dead, out[i], out[j]);
    }
    forall ns, m | ns in VisibleSet(host) && ns in tables && m in tables[ns] && DeadFuse(m, dead)
      ensures HeldAt(host, out, ns, m)
    {
      var pid := DeadMountIsHeld(host, tables, dead, ns, m);
      var j :| 0 <= j < |out| && out[j] == Holder(pid, m);
      assert NsOf(host.tasks, out[j].pid) == Some(ns) && out[j].mount == m;
    }
  }

  lemma OutIsApart(host: Host, tables: map<string, Table>, dead: set<string>)
    requires host.Sound(tables) && AllScattered(host, tables, dead)
    ensures Apart(HoldersOf(host, tables, dead))
  {
    var proc := host.Proc(tables);
    forall i | 0 <= i < |proc.entries| && Readable(proc, proc.entries[i])
      ensures Scattered(proc.entries[i].mounts.value, dead)
    {
      assert host.Visible(host.tasks[i].ns) && host.tasks[i].ns in VisibleSet(host);
    }
    HoldersAreApart(proc, |host.tasks|, dead);
  }
}
