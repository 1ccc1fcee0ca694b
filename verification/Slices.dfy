/** The slices that the supervisor edits in place (pkg/driver/supervisor.go, pkg/driver/graft.go): a
    length over a backing array, which other slices may share. */
module Slices {
  import opened Volumes
  import opened Strings

  datatype Slice = Slice(backing: array<string>, len: nat) {
    ghost predicate Valid() { len <= backing.Length }

    function Elements(): seq<string>
      requires Valid()
      reads backing
    {
      backing[..len]
    }
  }

  /** append([]string{}, elements...): a slice in an array of its own. */
  method Make(elements: seq<string>) returns (s: Slice)
    ensures s.Valid() && fresh(s.backing) && s.Elements() == elements
  {
    var backing := new string[|elements|](i requires 0 <= i < |elements| => elements[i]);
    s := Slice(backing, |elements|);
  }

  /** append(s, x): in the backing array while there is room, in a larger one otherwise. */
  method Append(s: Slice, x: string) returns (r: Slice)
    requires s.Valid()
    modifies s.backing
    ensures r.Valid() && (r.backing == s.backing || fresh(r.backing))
    ensures r.Elements() == old(s.Elements()) + [x]
  {
    if s.len < s.backing.Length {
      s.backing[s.len] := x;
      r := Slice(s.backing, s.len + 1);
    } else {
      var elements, n := s.Elements(), s.len;
      var backing := new string[2 * n + 1](i requires 0 <= i < 2 * n + 1 => if i < n then elements[i] else "");
      assert backing[..n] == elements;
      backing[n] := x;
      r := Slice(backing, n + 1);
    }
  }

  /** Sorted elements with one more behind them, once sort.Strings has put that one in its place. */
  function LastSunk(e: seq<string>): seq<string>
    requires e != []
  {
    InsertSorted(e[..|e| - 1], e[|e| - 1])
  }

  /** now is was with its last element moved down to k, past those above it. */
  ghost predicate Sunk(was: seq<string>, now: seq<string>, k: nat, above: string -> bool) {
    && k < |was| == |now| && now[k] == was[|was| - 1] && (k > 0 ==> !above(was[k - 1]))
    && (forall j | 0 <= j < k :: now[j] == was[j])
    && (forall j | k <= j < |was| - 1 :: now[j + 1] == was[j] && above(was[j]))
  }

  lemma SunkIsSorted(was: seq<string>, now: seq<string>, k: nat, t: string)
    requires was != [] && t == was[|was| - 1] && Sunk(was, now, k, x => Less(t, x))
    ensures now == LastSunk(was)
  {
    var sorted := was[..|was| - 1];
    assert k > 0 ==> sorted[k - 1] == was[k - 1];
    assert forall j | k <= j < |sorted| :: sorted[j] == was[j] && Less(t, sorted[j]);
    PlaceIs(sorted, t, k);
    forall j | 0 <= j < |now| ensures now[j] == (sorted[..k] + [t] + sorted[k..])[j] {
      assert j > k ==> now[j] == now[j - 1 + 1] == was[j - 1];
    }
  }

  lemma PlaceIs(s: seq<string>, t: string, k: nat)
    requires k <= |s| && (k > 0 ==> !Less(t, s[k - 1])) && forall j | k <= j < |s| :: Less(t, s[j])
    ensures PlaceOf(s, t) == k
  {}

  /** Moves the last of the first n elements down past those above it. */
  method Sink(a: array<string>, n: nat, above: string -> bool) returns (k: nat)
    requires 0 < n <= a.Length
    modifies a
    ensures Sunk(old(a[..n]), a[..n], k, above)
  {
    ghost var was := a[..n];
    k := n - 1;
    var t := a[k];
    while k > 0 && above(a[k - 1])
      invariant k <= n - 1
      invariant forall j | 0 <= j < k :: a[j] == was[j]
      invariant forall j | k <= j < n - 1 :: a[j + 1] == was[j] && above(was[j])
    {
      a[k] := a[k - 1];
      k := k - 1;
    }
    a[k] := t;
    assert forall j | 0 <= j < n :: a[..n][j] == a[j];
  }

  /** What sort.Strings does to a slice sorted up to its last element: that one moves down to its place. */
  method SinkLast(s: Slice)
    requires s.Valid() && s.len > 0
    modifies s.backing
    ensures s.Elements() == LastSunk(old(s.Elements()))
  {
    var t := s.backing[s.len - 1];
    var k := Sink(s.backing, s.len, x => Less(t, x));
    SunkIsSorted(old(s.Elements()), s.Elements(), k, t);
  }

  /** append and sort.Strings, for a slice that is sorted. */
  method AppendSorted(s: Slice, x: string) returns (r: Slice)
    requires s.Valid()
    modifies s.backing
    ensures r.Valid() && (r.backing == s.backing || fresh(r.backing))
    ensures r.Elements() == InsertSorted(old(s.Elements()), x)
  {
    ghost var was := s.Elements();
    r := Append(s, x);
    SinkLast(r);
    assert (was + [x])[..|was|] == was;
  }

  /** out := s[:0], then append of each element to be kept: the filtered elements lie in s's own backing
      array, and no other is written. */
  method FilterInPlace(s: Slice, keep: string -> bool) returns (r: Slice)
    requires s.Valid()
    modifies s.backing
    ensures r.Valid() && r.backing == s.backing && r.len <= s.len
    ensures r.Elements() == Filter(old(s.Elements()), keep)
  {
    var a, m := s.backing, 0;
    for i := 0 to s.len
      invariant m <= i && a[..m] == Filter(old(a[..i]), keep)
      invariant a[i..] == old(a[i..])
    {
      assert a[i] == a[i..][0] == old(a[i..])[0] == old(a[i]);
      assert old(a[..i + 1])[..i] == old(a[..i]);
      ghost var kept := a[..m];
      if keep(a[i]) {
        a[m] := a[i];
        m := m + 1;
        assert a[..m] == kept + [old(a[i])];
      }
      assert a[i + 1..] == old(a[i + 1..]) by {
        assert a[i..][1..] == a[i + 1..];
        assert old(a[i..])[1..] == old(a[i + 1..]);
      }
    }
    r := Slice(a, m);
  }

  /** One slice for each volume; no two share an array. */
  class Lists {
    var slices: map<string, Slice>
    ghost var elements: map<string, seq<string>>
    ghost var home: map<array<string>, string>     // whose array it is, for every array ever used

    ghost function Arrays(): set<array<string>>
      reads this
    {
      home.Keys
    }

    ghost predicate Holds(id: string, s: Slice)
      reads this, s.backing
    {
      s.backing in home && home[s.backing] == id && s.Valid() && id in elements && s.Elements() == elements[id]
    }

    ghost predicate Valid()
      reads this, Arrays()
    {
      && slices.Keys == elements.Keys
      && forall id | id in slices :: slices[id].backing in home && Holds(id, slices[id])
    }

    function Read(id: string): seq<string>
      requires Valid() && id in elements
      reads this, Arrays()
      ensures Read(id) == elements[id]
    {
      assert Holds(id, slices[id]);
      slices[id].Elements()
    }

    constructor ()
      ensures Valid() && elements == map[] && home == map[]
    {
      slices, elements, home := map[], map[], map[];
    }

    method Create(id: string, content: seq<string>)
      requires Valid() && id !in elements
      modifies this
      ensures Valid() && fresh(Arrays() - old(Arrays())) && elements == old(elements)[id := content]
    {
      var s := Make(content);
      home, slices, elements := home[s.backing := id], slices[id := s], elements[id := content];
    }

    method Forget(id: string)
      requires Valid()
      modifies this
      ensures Valid() && home == old(home) && elements == old(elements) - {id}
    {
      slices, elements := slices - {id}, elements - {id};
    }

    /** Puts s, which holds content, in id's place. */
    method Install(id: string, s: Slice, ghost content: seq<string>)
      requires slices.Keys == elements.Keys && forall other | other in slices && other != id :: slices[other].backing in home && Holds(other, slices[other])
      requires s.Valid() && s.Elements() == content && (s.backing in home ==> home[s.backing] == id)
      modifies this
      ensures Valid() && Arrays() == old(Arrays()) + {s.backing} && elements == old(elements)[id := content]
    {
      home, slices, elements := home[s.backing := id], slices[id := s], elements[id := content];
    }

    /** append, then sort.Strings. */
    method AddSorted(id: string, x: string)
      requires Valid() && id in elements
      modifies this, Arrays()
      ensures Valid() && fresh(Arrays() - old(Arrays()))
      ensures elements == old(elements)[id := InsertSorted(old(elements)[id], x)]
    {
      assert Holds(id, slices[id]);
      ghost var now := InsertSorted(elements[id], x);
      var s := AppendSorted(slices[id], x);
      Install(id, s, now);
    }

    method Keep(id: string, keep: string -> bool)
      requires Valid() && id in elements
      modifies this, Arrays()
      ensures Valid() && home == old(home) && elements == old(elements)[id := Filter(old(elements)[id], keep)]
    {
      assert Holds(id, slices[id]);
      var s := FilterInPlace(slices[id], keep);
      slices, elements := slices[id := s], elements[id := Filter(elements[id], keep)];
    }
  }
}
