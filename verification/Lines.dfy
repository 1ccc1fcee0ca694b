/** A mount table and the mountinfo lines that show it: what parseMountinfo reads (pkg/driver/graft.go) is
    the table that the rest of the model works on. */
module Lines {
  import opened Strings
  import opened Keys
  import opened Flags
  import opened Mounts
  import opened Hosts
  import opened Mountinfo

  function AbsoluteName(p: Path): (name: string)
    ensures name != "" && name[0] == '/'
  {
    "/" + Join(p, '/')
  }

  /** The mount that a line read stands for. */
  function MountOf(e: Entry): Mount {
    Mount(e.dev, PointOf(e.root), PointOf(e.mountPoint), Restrictions(Split(e.opts, ',')), e.fstype)
  }

  lemma PathOfName(p: Path)
    requires CleanPath(p)
    ensures PointOf(AbsoluteName(p)) == p
  {
    var tail := Join(p, '/');
    SplitConcat("", tail, '/');
    assert "" + ['/'] + tail == AbsoluteName(p);
    if p == [] {
      assert Split(AbsoluteName(p), '/') == ["", ""];
      SkipsEmpty([""]);
      SkipsEmpty([]);
      assert [""] + [] == [""];
    } else {
      SplitCleanJoin(p);
      SkipsEmpty(p);
      CleanKeepsClean(p, []);
      assert [] + p == p;
    }
  }

  lemma SkipsEmpty(p: Path)
    ensures CleanSegments([""] + p, []) == CleanSegments(p, [])
  {
    assert ([""] + p)[1..] == p;
  }

  function MountsOf(entries: seq<Entry>): Table {
    seq(|entries|, i requires 0 <= i < |entries| => MountOf(entries[i]))
  }

  lemma {:induction false} EntryAt(records: seq<Record>, i: nat)
    requires i < |records|
    ensures |Entries(records)| == |records| && Entries(records)[i] == records[i].entry
  {
    var n := |records| - 1;
    if n > 0 {
      EntryAt(records[..n], if i < n then i else 0);
    }
  }

  /** Record r is a line for mount m: its options name m's restrictions, whatever else they name. */
  predicate Shown(m: Mount, r: Record) {
    && CleanPath(m.root) && CleanPath(m.point) && Printable(r)
    && r.entry.dev == m.dev && r.entry.root == AbsoluteName(m.root) && r.entry.mountPoint == AbsoluteName(m.point)
    && Restrictions(Split(r.entry.opts, ',')) == m.bits && r.entry.fstype == m.fstype
  }

  lemma ShownIsRead(m: Mount, r: Record)
    requires Shown(m, r)
    ensures Printable(r) && MountOf(r.entry) == m
  {
    PathOfName(m.root);
    PathOfName(m.point);
  }

  lemma ShownAreRead(table: Table, records: seq<Record>)
    requires |records| == |table| && forall i | 0 <= i < |table| :: Shown(table[i], records[i])
    ensures forall i | 0 <= i < |table| :: Printable(records[i]) && MountOf(records[i].entry) == table[i]
  {
    forall i | 0 <= i < |table| ensures Printable(records[i]) && MountOf(records[i].entry) == table[i] {
      ShownIsRead(table[i], records[i]);
    }
  }

  lemma {:induction false} MountsOfEntries(table: Table, records: seq<Record>)
    requires |records| == |table| && forall i | 0 <= i < |table| :: MountOf(records[i].entry) == table[i]
    ensures MountsOf(Entries(records)) == table
  {
    forall i | 0 <= i < |table| ensures |Entries(records)| == |table| && Entries(records)[i] == records[i].entry {
      EntryAt(records, i);
    }
  }

  /** Reading the lines that the kernel writes for a mount table gives the table back, in its order. */
  lemma TableIsRead(table: Table, records: seq<Record>)
    requires |records| == |table| && forall i | 0 <= i < |table| :: Shown(table[i], records[i])
    ensures MountsOf(ParseLines(Split(Print(records), '\n'))) == table
  {
    ShownAreRead(table, records);
    MountinfoRoundTrip(records);
    MountsOfEntries(table, records);
  }
}
