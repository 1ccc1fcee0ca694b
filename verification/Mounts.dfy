/** Mount tables: the mounts of one namespace in the order they were made, and what detaching and
    grafting do to them. Paths are resolved as the kernel does: a path lives on the last mount made
    at or above it. */
module Mounts {
  import opened Keys

  /** A mount: its superblock's device, its root inside that filesystem, where it sits, its
      restrictions (MOUNT_ATTR_* bits) and its filesystem type. */
  datatype Mount = Mount(dev: string, root: Path, point: Path, bits: bv8, fstype: string)

  type Table = seq<Mount>

  /** The mount that path p lives on. */
  function Holding(table: Table, p: Path): Option<Mount> {
    if table == [] then None
    else if table[|table| - 1].point <= p then Some(table[|table| - 1])
    else Holding(table[..|table| - 1], p)
  }

  /** p is itself a mount point. */
  predicate MountedAt(table: Table, p: Path) {
    Holding(table, p).Some? && Holding(table, p).value.point == p
  }

  /** umount2(p, MNT_DETACH): takes the mount at p away with all that was mounted on it since; a
      path that is no mount point changes nothing. */
  function Detach(table: Table, p: Path): Table {
    if table == [] then []
    else
      var init, last := table[..|table| - 1], table[|table| - 1];
      if last.point <= p then (if last.point == p then init else table)
      else if MountedAt(init, p) && p <= last.point then Detach(init, p)
      else Detach(init, p) + [last]
  }

  /** A detached clone of what src shows, put at target with more restrictions. */
  function CloneOf(m: Mount, src: Path, bits: bv8, target: Path): Mount
    requires m.point <= src
  {
    Mount(m.dev, m.root + src[|m.point|..], target, m.bits | bits, m.fstype)
  }

  /** The probe of p meets a dead endpoint. */
  predicate Dead(table: Table, broken: set<string>, p: Path) {
    Holding(table, p).Some? && Holding(table, p).value.dev in broken
  }

  /** mountDevice: the device of the last mount made at p, "" if none. */
  function DeviceAt(table: Table, p: Path): string {
    if table == [] then ""
    else if table[|table| - 1].point == p then table[|table| - 1].dev
    else DeviceAt(table[..|table| - 1], p)
  }

  /** mountDevice's loop. */
  method MountDevice(table: Table, p: Path) returns (dev: string)
    ensures dev == DeviceAt(table, p)
  {
    dev := "";
    for n := 0 to |table|
      invariant dev == DeviceAt(table[..n], p)
    {
      assert table[..n + 1][..n] == table[..n];
      if table[n].point == p {
        dev := table[n].dev;
      }
    }
    assert table[..|table|] == table;
  }

  /** Of the mounts made at p the last is one of device d. */
  ghost predicate TopmostAt(table: Table, p: Path, d: string) {
    exists i :: 0 <= i < |table| && table[i].point == p && table[i].dev == d
                && forall j | i < j < |table| :: table[j].point != p
  }

  lemma TopmostAppend(table: Table, m: Mount, p: Path, d: string)
    ensures TopmostAt(table + [m], p, d) <==> if m.point == p then m.dev == d else TopmostAt(table, p, d)
  {
    var all := table + [m];
    assert all[|table|] == m && forall j | 0 <= j < |table| :: all[j] == table[j];
    if m.point == p && m.dev == d {
      assert all[|table|].point == p;
    }
  }

  /** The device that mountDevice answers is the topmost mount's; it answers none where nothing is mounted. */
  lemma {:induction false} DeviceIsTopmost(table: Table, p: Path, d: string)
    ensures d != "" ==> (DeviceAt(table, p) == d <==> TopmostAt(table, p, d))
    ensures NoneAt(table, p) ==> DeviceAt(table, p) == ""
  {
    if table != [] {
      var init, last := table[..|table| - 1], table[|table| - 1];
      assert table == init + [last];
      DeviceIsTopmost(init, p, d);
      TopmostAppend(init, last, p, d);
    }
  }

  // ---- Dead FUSE mounts in a container's table ----

  predicate DeadFuse(m: Mount, dead: set<string>) {
    m.dev in dead && "fuse" <= m.fstype
  }

  /** Each dead mount is in the table once, and none is at or above another; any other mount may lie over
      them or under them. */
  ghost predicate Scattered(table: Table, dead: set<string>) {
    table == [] ||
    var init, last := table[..|table| - 1], table[|table| - 1];
    && Scattered(init, dead)
    && (DeadFuse(last, dead) ==>
          forall m | m in init && DeadFuse(m, dead) :: !(last.point <= m.point) && !(m.point <= last.point))
  }

  lemma {:induction false} DetachTakesNoMore(table: Table, p: Path)
    ensures forall m | m in Detach(table, p) :: m in table
    ensures forall m | m in table && !(p <= m.point) :: m in Detach(table, p)
  {
    if table != [] {
      DetachTakesNoMore(table[..|table| - 1], p);
      assert table == table[..|table| - 1] + [table[|table| - 1]];
    }
  }

  lemma {:induction false} DetachKeepsScattered(table: Table, p: Path, dead: set<string>)
    requires Scattered(table, dead)
    ensures Scattered(Detach(table, p), dead)
  {
    if table != [] {
      var init, last := table[..|table| - 1], table[|table| - 1];
      DetachKeepsScattered(init, p, dead);
      DetachTakesNoMore(init, p);
      var d := Detach(init, p) + [last];
      assert d[..|d| - 1] == Detach(init, p);
    }
  }

  lemma MountKeepsScattered(table: Table, m: Mount, dead: set<string>)
    requires Scattered(table, dead) && !DeadFuse(m, dead)
    ensures Scattered(table + [m], dead)
  {
    assert (table + [m])[..|table|] == table;
  }

  lemma {:induction false} FewerAreScattered(table: Table, dead: set<string>, fewer: set<string>)
    requires Scattered(table, dead) && fewer <= dead
    ensures Scattered(table, fewer)
  {
    if table != [] {
      FewerAreScattered(table[..|table| - 1], dead, fewer);
    }
  }

  lemma {:induction false} ScatteredApart(table: Table, dead: set<string>, a: Mount, b: Mount)
    requires Scattered(table, dead) && a in table && b in table && a != b && DeadFuse(a, dead) && DeadFuse(b, dead)
    ensures !(a.point <= b.point)
  {
    var init, last := table[..|table| - 1], table[|table| - 1];
    if a in init && b in init {
      ScatteredApart(init, dead, a, b);
    }
  }

  /** Detaching at a dead mount's point takes it exactly when it is what its path shows: a mount made over
      it since is taken in its stead. */
  lemma {:induction false} DetachTakesShown(table: Table, m: Mount, dead: set<string>)
    requires Scattered(table, dead) && m in table && DeadFuse(m, dead)
    ensures m in Detach(table, m.point) <==> Holding(table, m.point) != Some(m)
  {
    var init, last := table[..|table| - 1], table[|table| - 1];
    if m in init {
      DetachTakesShown(init, m, dead);
    }
    DetachTakesNoMore(init, m.point);
  }

  /** Detaching at p leaves every path not below p on its mount. */
  lemma {:induction false} DetachKeepsHolding(table: Table, p: Path, q: Path)
    requires !(p <= q)
    ensures Holding(Detach(table, p), q) == Holding(table, q)
  {
    if table != [] {
      var init, last := table[..|table| - 1], table[|table| - 1];
      DetachKeepsHolding(init, p, q);
      HoldingAppend(Detach(init, p), last, q);
    }
  }

  /** How a mount and what its path shows stand in two tables. */
  ghost predicate SameStanding(table: Table, table': Table, m: Mount) {
    && (m in table' <==> m in table)
    && Holding(table', m.point) == Holding(table, m.point)
  }

  /** Neither detaching at p nor mounting there touches a mount that is not at or below p. */
  lemma ElsewhereUnmoved(table: Table, p: Path, clone: Mount, m: Mount)
    requires !(p <= m.point) && clone.point == p
    ensures SameStanding(table, Detach(table, p), m) && SameStanding(table, table + [clone], m)
  {
    DetachTakesNoMore(table, p);
    DetachKeepsHolding(table, p, m.point);
    HoldingAppend(table, clone, m.point);
  }

  lemma {:induction false} HoldingIsAbove(table: Table, p: Path)
    ensures Holding(table, p).Some? ==> Holding(table, p).value in table && Holding(table, p).value.point <= p
  {
    if table != [] && !(table[|table| - 1].point <= p) {
      HoldingIsAbove(table[..|table| - 1], p);
    }
  }

  /** A mount that some path shows, its own path shows. */
  lemma {:induction false} ShownAtItsPoint(table: Table, q: Path)
    requires Holding(table, q).Some?
    ensures Holding(table, Holding(table, q).value.point) == Holding(table, q)
  {
    var init, last := table[..|table| - 1], table[|table| - 1];
    if !(last.point <= q) {
      ShownAtItsPoint(init, q);
      HoldingIsAbove(init, q);
    }
  }

  // ---- The node's own table ----

  predicate NoneAt(table: Table, p: Path) {
    forall m | m in table :: m.point != p
  }

  /** Since a mount was made at p, nothing was mounted at or above p. */
  ghost predicate Unstacked(table: Table, p: Path) {
    table == [] ||
    (Unstacked(table[..|table| - 1], p) && (table[|table| - 1].point <= p ==> NoneAt(table[..|table| - 1], p)))
  }

  lemma {:induction false} DetachEmpties(table: Table, p: Path)
    requires Unstacked(table, p)
    ensures NoneAt(Detach(table, p), p)
  {
    if table != [] {
      var init, last := table[..|table| - 1], table[|table| - 1];
      DetachEmpties(init, p);
      assert table == init + [last];
    }
  }

  lemma {:induction false} DetachKeepsUnstacked(table: Table, p: Path, q: Path)
    requires Unstacked(table, q)
    ensures Unstacked(Detach(table, p), q)
  {
    if table != [] {
      var init, last := table[..|table| - 1], table[|table| - 1];
      DetachKeepsUnstacked(init, p, q);
      DetachTakesNoMore(init, p);
      var d := Detach(init, p) + [last];
      assert d[..|d| - 1] == Detach(init, p);
    }
  }

  /** The mounts that are at or below none of ps. */
  function Outside(table: Table, ps: set<Path>): Table {
    if table == [] then []
    else
      var init, last := Outside(table[..|table| - 1], ps), table[|table| - 1];
      if exists p | p in ps :: p <= last.point then init else init + [last]
  }

  lemma OutsideAppend(table: Table, m: Mount, ps: set<Path>)
    ensures Outside(table + [m], ps) ==
            if exists p | p in ps :: p <= m.point then Outside(table, ps) else Outside(table, ps) + [m]
  {
    assert (table + [m])[..|table|] == table;
  }

  lemma {:induction false} DetachKeepsOutside(table: Table, p: Path, ps: set<Path>)
    requires p in ps
    ensures Outside(Detach(table, p), ps) == Outside(table, ps)
  {
    if table != [] {
      var init, last := table[..|table| - 1], table[|table| - 1];
      DetachKeepsOutside(init, p, ps);
      OutsideAppend(Detach(init, p), last, ps);
    }
  }

  // ---- What resolving and detaching are, without recursion ----

  /** A path lives on the last mount m made at or above it; detaching takes m away, if it is at the path itself,
      with what was mounted at or below it after m, and nothing else. */
  lemma {:induction false} DetachTakes(before: Table, m: Mount, after: Table, p: Path)
    requires m.point <= p && forall a | a in after :: !(a.point <= p)
    ensures Holding(before + [m] + after, p) == Some(m)
    ensures Detach(before + [m] + after, p) == if m.point == p then before + Outside(after, {p}) else before + [m] + after
  {
    if after == [] {
      DetachTop(before, m, p);
    } else {
      var n := |after| - 1;
      assert after == after[..n] + [after[n]];
      DetachTakes(before, m, after[..n], p);
      DetachLast(before, m, after[..n], after[n], p);
    }
  }

  lemma DetachTop(before: Table, m: Mount, p: Path)
    requires m.point <= p
    ensures Holding(before + [m] + [], p) == Some(m)
    ensures Detach(before + [m] + [], p) == if m.point == p then before + Outside([], {p}) else before + [m] + []
  {
    assert before + [m] + [] == before + [m] && before + Outside([], {p}) == before;
    HoldingAppend(before, m, p);
    DetachAppend(before, m, p);
  }

  lemma DetachLast(before: Table, m: Mount, after: Table, last: Mount, p: Path)
    requires m.point <= p && !(last.point <= p) && Holding(before + [m] + after, p) == Some(m)
    requires Detach(before + [m] + after, p) == if m.point == p then before + Outside(after, {p}) else before + [m] + after
    ensures Holding(before + [m] + (after + [last]), p) == Some(m)
    ensures Detach(before + [m] + (after + [last]), p) ==
            if m.point == p then before + Outside(after + [last], {p}) else before + [m] + (after + [last])
  {
    var table := before + [m] + after;
    assert before + [m] + (after + [last]) == table + [last];
    HoldingAppend(table, last, p);
    DetachAppend(table, last, p);
    OutsideLast(after, last, p);
    Associated(before, Outside(after, {p}), last);
  }

  lemma Associated(a: Table, b: Table, m: Mount)
    ensures a + (b + [m]) == a + b + [m]
  {}

  lemma OutsideLast(after: Table, last: Mount, p: Path)
    ensures Outside(after + [last], {p}) == if p <= last.point then Outside(after, {p}) else Outside(after, {p}) + [last]
  {
    var ps := {p};
    OutsideAppend(after, last, ps);
    assert p in ps;
    if q :| q in ps && q <= last.point {
      assert q == p;
    }
  }

  /** Where nothing is mounted at or above a path, it lives nowhere, and detaching it changes nothing. */
  lemma {:induction false} DetachesNothing(table: Table, p: Path)
    requires forall m | m in table :: !(m.point <= p)
    ensures Detach(table, p) == table && Holding(table, p) == None
  {
    if table != [] {
      DetachesNothing(table[..|table| - 1], p);
    }
  }

  lemma HoldingAppend(table: Table, m: Mount, p: Path)
    ensures Holding(table + [m], p) == if m.point <= p then Some(m) else Holding(table, p)
  {
    assert (table + [m])[..|table|] == table;
  }

  lemma UnstackedAppend(table: Table, m: Mount, p: Path)
    ensures Unstacked(table + [m], p) <==> Unstacked(table, p) && (m.point <= p ==> NoneAt(table, p))
  {
    assert (table + [m])[..|table|] == table;
  }

  lemma DetachAppend(table: Table, m: Mount, p: Path)
    ensures Detach(table + [m], p) ==
            if m.point <= p then (if m.point == p then table else table + [m])
            else if MountedAt(table, p) && p <= m.point then Detach(table, p)
            else Detach(table, p) + [m]
  {
    assert (table + [m])[..|table|] == table;
  }
}
