/** Which containers still hold a dead mount: findHolders in pkg/driver/graft.go. */
module Holders {
  import opened Keys
  import opened Mounts

  /** One entry of /proc: its name as a number, the mount namespace its ns/mnt link names, and its
      mountinfo -- each None when it cannot be read. */
  datatype Process = Process(pid: Option<nat>, ns: Option<string>, mounts: Option<Table>)

  /** /proc as the plugin finds it; own and init are the namespaces of "self" and "1". */
  datatype ProcDir = ProcDir(own: Option<string>, init: Option<string>, entries: seq<Process>)

  datatype Holder = Holder(pid: nat, mount: Mount)

  predicate Foreign(proc: ProcDir, ns: string) {
    proc.own != Some(ns) && proc.init != Some(ns)
  }

  /** A process that can speak for its namespace. */
  predicate Readable(proc: ProcDir, p: Process) {
    p.pid.Some? && p.ns.Some? && p.mounts.Some? && Foreign(proc, p.ns.value)
  }

  /** The first process that can speak for its namespace does. */
  predicate Speaks(proc: ProcDir, i: int) {
    && 0 <= i < |proc.entries| && Readable(proc, proc.entries[i])
    && forall j | 0 <= j < i && Readable(proc, proc.entries[j]) :: proc.entries[j].ns != proc.entries[i].ns
  }

  /** The dead FUSE mounts of a table, held by pid. */
  function Held(pid: nat, table: Table, dead: set<string>): seq<Holder> {
    if table == [] then []
    else
      var before, m := Held(pid, table[..|table| - 1], dead), table[|table| - 1];
      if DeadFuse(m, dead) then before + [Holder(pid, m)] else before
  }

  /** What the speakers among the first n processes hold. */
  function HeldBySpeakers(proc: ProcDir, n: nat, dead: set<string>): seq<Holder>
    requires n <= |proc.entries|
  {
    if n == 0 then []
    else if Speaks(proc, n - 1) then
      HeldBySpeakers(proc, n - 1, dead) + Held(proc.entries[n - 1].pid.value, proc.entries[n - 1].mounts.value, dead)
    else HeldBySpeakers(proc, n - 1, dead)
  }

  /** findHolders. */
  method FindHolders(proc: ProcDir, dead: set<string>) returns (out: seq<Holder>)
    ensures out == HeldBySpeakers(proc, |proc.entries|, dead)
  {
    var seen: set<string> := {};
    if proc.own.Some? {
      seen := seen + {proc.own.value};
    }
    if proc.init.Some? {
      seen := seen + {proc.init.value};
    }
    out := [];
    for n := 0 to |proc.entries|
      invariant out == HeldBySpeakers(proc, n, dead)
      invariant forall ns :: ns in seen <==>
                  !Foreign(proc, ns) || exists j :: 0 <= j < n && Readable(proc, proc.entries[j]) && proc.entries[j].ns == Some(ns)
    {
      var e := proc.entries[n];
      if e.pid.None? || e.ns.None? || e.ns.value in seen || e.mounts.None? {
        continue;
      }
      seen := seen + {e.ns.value};
      ghost var before := out;
      var table := e.mounts.value;
      for k := 0 to |table|
        invariant out == before + Held(e.pid.value, table[..k], dead)
      {
        assert table[..k + 1][..k] == table[..k];
        if DeadFuse(table[k], dead) {
          out := out + [Holder(e.pid.value, table[k])];
        }
      }
      assert table[..|table|] == table;
    }
  }

  lemma {:induction false} HeldExactly(pid: nat, table: Table, dead: set<string>, h: Holder)
    ensures h in Held(pid, table, dead) <==> h.pid == pid && h.mount in table && DeadFuse(h.mount, dead)
  {
    if table != [] {
      HeldExactly(pid, table[..|table| - 1], dead, h);
      assert table == table[..|table| - 1] + [table[|table| - 1]];
    }
  }

  lemma {:induction false} HeldBySpeakersExactly(proc: ProcDir, n: nat, dead: set<string>, h: Holder)
    requires n <= |proc.entries|
    ensures h in HeldBySpeakers(proc, n, dead) <==>
            exists i :: 0 <= i < n && Speaks(proc, i) && proc.entries[i].pid == Some(h.pid)
                        && h.mount in proc.entries[i].mounts.value && DeadFuse(h.mount, dead)
  {
    if n > 0 {
      HeldBySpeakersExactly(proc, n - 1, dead, h);
      if Speaks(proc, n - 1) {
        var e := proc.entries[n - 1];
        HeldExactly(e.pid.value, e.mounts.value, dead, h);
        assert h in HeldBySpeakers(proc, n, dead) <==>
               h in HeldBySpeakers(proc, n - 1, dead) || h in Held(e.pid.value, e.mounts.value, dead);
      } else {
        assert HeldBySpeakers(proc, n, dead) == HeldBySpeakers(proc, n - 1, dead);
      }
    }
  }

  /** In a table y stands after x. */
  ghost predicate Follows(table: Table, x: Mount, y: Mount) {
    exists k, l :: 0 <= k < l < |table| && table[k] == x && table[l] == y
  }

  lemma {:induction false} HeldInOrder(pid: nat, table: Table, dead: set<string>, a: nat, b: nat)
    requires a < b < |Held(pid, table, dead)|
    ensures Follows(table, Held(pid, table, dead)[a].mount, Held(pid, table, dead)[b].mount)
  {
    var n := |table| - 1;
    var before := Held(pid, table[..n], dead);
    if b < |before| {
      HeldInOrder(pid, table[..n], dead, a, b);
      var k, l :| 0 <= k < l < n && table[..n][k] == before[a].mount && table[..n][l] == before[b].mount;
      assert table[k] == before[a].mount && table[l] == before[b].mount;
    } else {
      HeldExactly(pid, table[..n], dead, before[a]);
      var k :| 0 <= k < n && table[..n][k] == before[a].mount;
      assert table[k] == before[a].mount && table[n] == Held(pid, table, dead)[b].mount;
    }
  }

  /** Process i, or one after it in /proc, speaks for y too -- in its table after x, if it is i. */
  ghost predicate InOrder(proc: ProcDir, i: int, j: int, x: Holder, y: Holder) {
    && Speaks(proc, i) && Speaks(proc, j) && i <= j
    && proc.entries[i].pid == Some(x.pid) && proc.entries[j].pid == Some(y.pid)
    && (i == j ==> Follows(proc.entries[i].mounts.value, x.mount, y.mount))
  }

  /** The holders come in the order of /proc, and those of one process in the order of its mounts. */
  lemma {:induction false} HoldersInOrder(proc: ProcDir, n: nat, dead: set<string>, a: nat, b: nat)
    requires n <= |proc.entries| && a < b < |HeldBySpeakers(proc, n, dead)|
    ensures exists i, j :: 0 <= i < n && 0 <= j < n
                           && InOrder(proc, i, j, HeldBySpeakers(proc, n, dead)[a], HeldBySpeakers(proc, n, dead)[b])
  {
    var before, i := HeldBySpeakers(proc, n - 1, dead), n - 1;
    if b < |before| {
      HoldersInOrder(proc, n - 1, dead, a, b);
      var k, l :| 0 <= k < i && 0 <= l < i && InOrder(proc, k, l, before[a], before[b]);
      assert InOrder(proc, k, l, HeldBySpeakers(proc, n, dead)[a], HeldBySpeakers(proc, n, dead)[b]);
    } else {
      var pid, table := proc.entries[i].pid.value, proc.entries[i].mounts.value;
      var held, x, y := Held(pid, table, dead), HeldBySpeakers(proc, n, dead)[a], HeldBySpeakers(proc, n, dead)[b];
      assert y in held;
      HeldExactly(pid, table, dead, y);
      if a < |before| {
        HeldBySpeakersExactly(proc, i, dead, x);
        var k :| 0 <= k < i && Speaks(proc, k) && proc.entries[k].pid == Some(x.pid);
        assert InOrder(proc, k, i, x, y);
      } else {
        HeldInOrder(pid, table, dead, a - |before|, b - |before|);
        assert x in held;
        HeldExactly(pid, table, dead, x);
        assert InOrder(proc, i, i, x, y);
      }
    }
  }

  /** Every foreign namespace with a readable process is spoken for, by exactly one process: one that
      cannot be read never hides it. */
  lemma {:induction false} OneSpeaker(proc: ProcDir, k: nat) returns (i: nat)
    requires k < |proc.entries| && Readable(proc, proc.entries[k])
    ensures i <= k && Speaks(proc, i) && proc.entries[i].ns == proc.entries[k].ns
    ensures forall j | Speaks(proc, j) && proc.entries[j].ns == proc.entries[k].ns :: j == i
    decreases k
  {
    if j :| 0 <= j < k && Readable(proc, proc.entries[j]) && proc.entries[j].ns == proc.entries[k].ns {
      i := OneSpeaker(proc, j);
    } else {
      i := k;
      assert forall j: int | Speaks(proc, j) && j > k :: proc.entries[j].ns != proc.entries[k].ns;
    }
  }

  /** Over a still /proc, where processes of one namespace see the same mounts and pids differ, the
      holders are what they mean: each readable foreign namespace is reported through one process,
      with precisely its FUSE mounts of dead devices. */
  lemma HoldersExact(proc: ProcDir, dead: set<string>, k: nat) returns (pid: nat)
    requires k < |proc.entries| && Readable(proc, proc.entries[k])
    requires forall i, j | 0 <= i < j < |proc.entries| && proc.entries[i].pid.Some? ::
               proc.entries[i].pid != proc.entries[j].pid
    requires forall i, j | 0 <= i < |proc.entries| && 0 <= j < |proc.entries| && proc.entries[i].ns == proc.entries[j].ns
               && Readable(proc, proc.entries[i]) && Readable(proc, proc.entries[j]) ::
               proc.entries[i].mounts == proc.entries[j].mounts
    ensures exists i :: 0 <= i < |proc.entries| && proc.entries[i].pid == Some(pid) && proc.entries[i].ns == proc.entries[k].ns
    ensures forall m :: Holder(pid, m) in HeldBySpeakers(proc, |proc.entries|, dead) <==>
                        m in proc.entries[k].mounts.value && m.dev in dead && "fuse" <= m.fstype
    ensures forall h, j | h in HeldBySpeakers(proc, |proc.entries|, dead) && 0 <= j < |proc.entries|
              && proc.entries[j].pid == Some(h.pid) && proc.entries[j].ns == proc.entries[k].ns :: h.pid == pid
  {
    var i := OneSpeaker(proc, k);
    pid := proc.entries[i].pid.value;
    forall m ensures Holder(pid, m) in HeldBySpeakers(proc, |proc.entries|, dead) <==>
                     m in proc.entries[k].mounts.value && DeadFuse(m, dead)
    {
      HeldBySpeakersExactly(proc, |proc.entries|, dead, Holder(pid, m));
    }
    forall h, j | h in HeldBySpeakers(proc, |proc.entries|, dead) && 0 <= j < |proc.entries|
        && proc.entries[j].pid == Some(h.pid) && proc.entries[j].ns == proc.entries[k].ns
      ensures h.pid == pid
    {
      HeldBySpeakersExactly(proc, |proc.entries|, dead, h);
      var s :| 0 <= s < |proc.entries| && Speaks(proc, s) && proc.entries[s].pid == Some(h.pid);
      assert s == j;
    }
  }
}
