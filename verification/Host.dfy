/** The node as the supervisor acts on it: its mount tables, its processes, the probe of a mount and
    the graft helper (cmd/nsmount-heal/heal.c). */
module Hosts {
  import opened Strings
  import opened Keys
  import opened Flags
  import opened Mounts
  import opened Holders

  /** How a call of the helper goes: it stops before it is in the container's namespace; or it gets
      there, its umount2 works or not -- it goes on either way -- and so does its move_mount. */
  datatype Helper = StopsShort | Enters(detaches: bool, moves: bool)

  /** What a call of the helper answers, and the mount tables it leaves. */
  datatype Ran = Ran(ok: bool, tables: map<string, Table>)

  /** A process: its number, the mount namespace it is in, and whether its mountinfo can be read. */
  datatype Task = Task(pid: nat, ns: string, readable: bool)

  /** The namespace of a process. */
  function NsOf(tasks: seq<Task>, pid: nat): Option<string> {
    if tasks == [] then None
    else if tasks[0].pid == pid then Some(tasks[0].ns)
    else NsOf(tasks[1..], pid)
  }

  /** The per-mount options mountinfo shows for a mount's restrictions. */
  function OptionWords(bits: bv8): seq<string> {
    [if bits & MOUNT_ATTR_RDONLY != 0 then "ro" else "rw"]
    + (if bits & MOUNT_ATTR_NOSUID != 0 then ["nosuid"] else [])
    + (if bits & MOUNT_ATTR_NODEV != 0 then ["nodev"] else [])
    + (if bits & MOUNT_ATTR_NOEXEC != 0 then ["noexec"] else [])
    + ["relatime"]
  }

  function Options(bits: bv8): string { Join(OptionWords(bits), ',') }

  /** The restrictions among a mount's bits. */
  function Kept(bits: bv8): bv8 { bits & 15 }

  lemma OptionsNoComma(bits: bv8)
    ensures forall w | w in OptionWords(bits) :: ',' !in w
  {}

  lemma OptionBits(bits: bv8)
    ensures Restrictions(OptionWords(bits)) == Kept(bits)
  {
    var words := OptionWords(bits);
    RestrictionsMeanWords(words);
    RestrictionsAreFlags(words);
    assert "ro" in words <==> bits & 1 != 0;
    assert "nosuid" in words <==> bits & 2 != 0;
    assert "nodev" in words <==> bits & 4 != 0;
    assert "noexec" in words <==> bits & 8 != 0;
    SameBits(Restrictions(words), bits & 15);
  }

  lemma {:induction false} RestrictionsAreFlags(words: seq<string>)
    ensures Restrictions(words) & 15 == Restrictions(words)
  {
    if words != [] {
      RestrictionsAreFlags(words[1..]);
    }
  }

  lemma SameBits(a: bv8, b: bv8)
    requires a & 15 == a && b & 15 == b
    requires (a & 1 != 0 <==> b & 1 != 0) && (a & 2 != 0 <==> b & 2 != 0)
    requires (a & 4 != 0 <==> b & 4 != 0) && (a & 8 != 0 <==> b & 8 != 0)
    ensures a == b
  {}

  /** What the helper is told of a mount's options is what it restricts the clone to. */
  lemma {:induction false} RestrictionsReachTheHelper(bits: bv8)
    ensures MountFlagsOf(Join(FlagWords(Split(Options(bits), ',')), ',')) == Some(Kept(bits))
  {
    OptionsNoComma(bits);
    SplitJoin(OptionWords(bits), ',');
    FlagsSurvive(Options(bits));
    OptionBits(bits);
  }

  class Host {
    const own: string                // the plugin's mount namespace, which sees the node's mounts
    const init: string               // that of pid 1
    const tasks: seq<Task>
    const broken: set<string>        // devices whose daemon died
    const hasHelper: bool
    const helper: nat -> Helper      // how the n-th call of the helper goes
    var calls: nat
    var tables: map<string, Table>

    /** Every namespace has its table, and pids differ. */
    ghost predicate Sound(tables: map<string, Table>) {
      && own in tables
      && (forall t | t in tasks :: t.ns in tables)
      && (forall i, j | 0 <= i < j < |tasks| :: tasks[i].pid != tasks[j].pid)
    }

    ghost predicate Valid()
      reads this
    {
      Sound(tables)
    }

    /** /proc, over these tables. */
    function Proc(tables: map<string, Table>): ProcDir {
      ProcDir(Some(own), Some(init),
              seq(|tasks|, i requires 0 <= i < |tasks| =>
                Process(Some(tasks[i].pid), Some(tasks[i].ns),
                        if tasks[i].readable && tasks[i].ns in tables then Some(tables[tasks[i].ns]) else None)))
    }

    /** A container's namespace that some process lets the plugin see. */
    predicate Visible(ns: string) {
      ns != own && ns != init && exists t | t in tasks :: t.ns == ns && t.readable
    }

    /** lazyUnmount. */
    method LazyUnmount(p: Path)
      requires Valid()
      modifies this
      ensures Valid() && tables == old(tables)[own := Detach(old(tables[own]), p)] && calls == old(calls)
    {
      tables := tables[own := Detach(tables[own], p)];
    }

    /** A mount made in the plugin's namespace: the mounter's, or a bind of what src shows. */
    method Mount(m: Mount)
      requires Valid()
      modifies this
      ensures Valid() && tables == old(tables)[own := old(tables[own]) + [m]] && calls == old(calls)
    {
      tables := tables[own := tables[own] + [m]];
    }

    /** The helper gets as far as the container's namespace: src resolves, the process is there. */
    predicate Reaches(tables: map<string, Table>, goes: Helper, pid: nat, src: Path) {
      && goes.Enters? && own in tables && Holding(tables[own], src).Some?
      && NsOf(tasks, pid).Some? && NsOf(tasks, pid).value in tables
    }

    /** What the helper does to target in the process's namespace: a clone of what src shows, with more
        restrictions, takes the place of what is mounted there -- or covers it, if that stays. */
    function Run(tables: map<string, Table>, goes: Helper, pid: nat, src: Path, target: Path, bits: bv8): Ran {
      if !Reaches(tables, goes, pid, src) then Ran(false, tables)
      else
        HoldingIsAbove(tables[own], src);
        var ns := NsOf(tasks, pid).value;
        var left := if goes.detaches then Detach(tables[ns], target) else tables[ns];
        if goes.moves then
          Ran(true, tables[ns := left + [CloneOf(Holding(tables[own], src).value, src, bits, target)]])
        else Ran(false, tables[ns := left])
    }

    /** nsmount-heal pid src target flags: clones src in this namespace, restricts the clone, enters
        the process's namespace, detaches the target and moves the clone there. */
    method NsmountHeal(pid: nat, src: Path, target: Path, flags: string) returns (ok: bool)
      requires Valid()
      modifies this
      ensures Valid() && calls == old(calls) + 1
      ensures var bits := MountFlagsOf(flags);
              if bits.None? then !ok && tables == old(tables)
              else Ran(ok, tables) == Run(old(tables), helper(old(calls)), pid, src, target, bits.value)
    {
      var goes := helper(calls);
      calls := calls + 1;
      var bits := MountFlags(flags);
      var tree, ns := Holding(tables[own], src), NsOf(tasks, pid);
      if bits.None? || tree.None? || ns.None? || goes.StopsShort? {
        return false;
      }
      HoldingIsAbove(tables[own], src);
      NsOfIsTasks(tasks, pid);
      var clone := CloneOf(tree.value, src, bits.value, target);
      if goes.detaches {
        tables := tables[ns.value := Detach(tables[ns.value], target)];
      }
      if !goes.moves {
        return false;
      }
      tables := tables[ns.value := tables[ns.value] + [clone]];
      ok := true;
    }
  }

  /** Where a call of the helper works, the container finds a mount of the filesystem that src shows, at the
      directory that src is in it, with the restrictions of src's mount and those asked for. */
  lemma RunPutsClone(host: Host, tables: map<string, Table>, goes: Helper, pid: nat, src: Path, target: Path, bits: bv8)
    requires host.Run(tables, goes, pid, src, target, bits).ok
    ensures var ran := host.Run(tables, goes, pid, src, target, bits);
            && host.own in tables && Holding(tables[host.own], src).Some? && NsOf(host.tasks, pid).Some?
            && var m, ns := Holding(tables[host.own], src).value, NsOf(host.tasks, pid).value;
               && m.point <= src && ns in ran.tables
               && Holding(ran.tables[ns], target) ==
                  Some(Mount(m.dev, m.root + src[|m.point|..], target, m.bits | bits, m.fstype))
  {
    HoldingIsAbove(tables[host.own], src);
  }

  lemma {:induction false} NsOfIsTasks(tasks: seq<Task>, pid: nat)
    ensures NsOf(tasks, pid).Some? ==> exists t | t in tasks :: t.pid == pid && t.ns == NsOf(tasks, pid).value
  {
    if tasks != [] && tasks[0].pid != pid {
      NsOfIsTasks(tasks[1..], pid);
    }
  }

  lemma {:induction false} NsOfTask(tasks: seq<Task>, i: nat)
    requires i < |tasks| && forall a, b | 0 <= a < b < |tasks| :: tasks[a].pid != tasks[b].pid
    ensures NsOf(tasks, tasks[i].pid) == Some(tasks[i].ns)
  {
    if i > 0 {
      assert tasks[1..][i - 1] == tasks[i];
      NsOfTask(tasks[1..], i - 1);
    }
  }
}
