/** The directories of a burst that no other one contains (pkg/driver/watch.go). */
module Outermost {
  import opened Strings
  import opened Keys

  /** The order of the burst: shorter names first, then byte order. */
  predicate Before(a: string, b: string) {
    |a| < |b| || (|a| == |b| && Less(a, b))
  }

  predicate Sorted(dirs: seq<string>) {
    forall i, j | 0 <= i < j < |dirs| :: dirs[i] == dirs[j] || Before(dirs[i], dirs[j])
  }

  /** The code's test that dropping o drops d too. */
  predicate Contains(o: string, d: string) {
    o == "." || d == o || o + "/" <= d
  }

  /** On names it is what it means on segments, whatever the names. */
  lemma ContainsBySegments(o: string, d: string)
    ensures Contains(o, d) <==> DirPath(o) <= DirPath(d)
  {
    if o != "." && d == "." {
      OnlyRootContainsRoot(o);
    } else if o != "." {
      PrefixBySegments(d, o, '/');
      JoinSplit(o, '/');
      JoinSplit(d, '/');
      var so, sd := Split(o, '/'), Split(d, '/');
      assert so <= sd <==> so < sd || so == sd;
    }
  }

  lemma OnlyRootContainsRoot(o: string)
    ensures Contains(o, ".") <==> o == "."
  {
    assert (o + "/")[|o|] == '/';
  }

  /** The directories of a sorted burst that no earlier kept one contains. */
  function Kept(dirs: seq<string>): seq<string> {
    if dirs == [] then []
    else
      var kept, d := Kept(dirs[..|dirs| - 1]), dirs[|dirs| - 1];
      if exists o | o in kept :: Contains(o, d) then kept else kept + [d]
  }

  /** out drops what dirs drop, and no less would: some kept directory contains each of dirs, and
      no kept one but the root contains another. */
  ghost predicate MinimalCover(dirs: seq<string>, out: seq<string>) {
    && (forall o | o in out :: o in dirs)
    && (forall d {:trigger Contained(out, d)} | d in dirs :: Contained(out, d))
    && Antichain(out)
    && ("." in dirs ==> out != [] && out[|out| - 1] == "." && forall i | 0 <= i < |out| - 1 :: Before(out[i], "."))
  }

  ghost predicate Contained(out: seq<string>, d: string) {
    exists o :: o in out && Contains(o, d)
  }

  ghost predicate Antichain(out: seq<string>) {
    forall i, j | 0 <= i < |out| && 0 <= j < |out| && i != j ::
      out[i] != out[j] && (Contains(out[i], out[j]) ==> out[i] == ".")
  }

  ghost predicate InOrder(out: seq<string>) {
    forall i, j | 0 <= i < j < |out| :: Before(out[i], out[j]) && !Contains(out[i], out[j])
  }

  lemma {:induction false} KeptInOrder(dirs: seq<string>)
    requires Sorted(dirs)
    ensures forall o | o in Kept(dirs) :: o in dirs
    ensures InOrder(Kept(dirs))
  {
    if dirs != [] {
      var n := |dirs| - 1;
      var kept := Kept(dirs[..n]);
      KeptInOrder(dirs[..n]);
      forall o | o in kept && !Contains(o, dirs[n]) ensures Before(o, dirs[n]) {
        assert o in dirs[..n];
        var i :| 0 <= i < n && dirs[i] == o;
      }
    }
  }

  lemma {:induction false} KeptCovers(dirs: seq<string>, d: string)
    requires d in dirs
    ensures Contained(Kept(dirs), d)
  {
    var n := |dirs| - 1;
    if d in dirs[..n] {
      KeptCovers(dirs[..n], d);
      var o :| o in Kept(dirs[..n]) && Contains(o, d);
      assert o in Kept(dirs);
    } else {
      assert d == dirs[n] && Contains(d, d);
      assert d in Kept(dirs) || exists o :: o in Kept(dirs[..n]) && Contains(o, d);
    }
  }

  /** Nothing but the root contains what sorts before it. */
  lemma ContainsOnlyLater(o: string, d: string)
    requires Before(d, o) && Contains(o, d)
    ensures o == "."
  {
    LessTotal(o, d);
  }

  /** outermost's result is a minimal cover of the burst, whatever the order it came in. */
  lemma KeptIsMinimalCover(burst: seq<string>, dirs: seq<string>)
    requires Sorted(dirs) && multiset(dirs) == multiset(burst)
    ensures MinimalCover(burst, Kept(dirs))
  {
    var out := Kept(dirs);
    KeptInOrder(dirs);
    forall d | d in burst ensures Contained(out, d) {
      assert d in multiset(burst);
      KeptCovers(dirs, d);
    }
    forall o | o in out ensures o in burst {
      assert o in multiset(dirs);
    }
    InOrderIsMinimal(burst, out);
  }

  lemma InOrderIsMinimal(dirs: seq<string>, out: seq<string>)
    requires forall o | o in out :: o in dirs
    requires forall d {:trigger Contained(out, d)} | d in dirs :: Contained(out, d)
    requires InOrder(out)
    ensures MinimalCover(dirs, out)
  {
    AllApart(out);
    if "." in dirs {
      assert Contained(out, ".");
      RootIsLast(out);
    }
  }

  lemma AllApart(out: seq<string>)
    requires InOrder(out)
    ensures Antichain(out)
  {
    forall i, j | 0 <= i < |out| && 0 <= j < |out| && i != j
      ensures out[i] != out[j] && (Contains(out[i], out[j]) ==> out[i] == ".")
    {
      Apart(out, i, j);
    }
  }

  lemma Apart(out: seq<string>, i: nat, j: nat)
    requires InOrder(out) && i < |out| && j < |out| && i != j
    ensures out[i] != out[j] && (Contains(out[i], out[j]) ==> out[i] == ".")
  {
    if i < j {
      LessTotal(out[i], out[i]);
    } else {
      assert Before(out[j], out[i]);
      LessTotal(out[i], out[i]);
      if Contains(out[i], out[j]) {
        ContainsOnlyLater(out[i], out[j]);
      }
    }
  }

  lemma RootIsLast(out: seq<string>)
    requires Contained(out, ".") && InOrder(out)
    ensures out != [] && out[|out| - 1] == "." && forall i | 0 <= i < |out| - 1 :: Before(out[i], ".")
  {
    var o :| o in out && Contains(o, ".");
    OnlyRootContainsRoot(o);
    var i :| 0 <= i < |out| && out[i] == ".";
    assert Contains(out[i], out[|out| - 1]);
  }

  /** Shorter names come first, and those of one length by the first byte in which they differ. */
  lemma BeforeIs(a: string, b: string)
    ensures Before(a, b) <==>
            |a| < |b| || (|a| == |b| && exists i :: 0 <= i < |a| && a[..i] == b[..i] && a[i] < b[i])
  {
    LessIsBytewise(a, b);
  }

  lemma BeforeTotal(a: string, b: string)
    ensures a == b || Before(a, b) || Before(b, a)
    ensures !(Before(a, b) && Before(b, a))
  {
    LessTotal(a, b);
  }

  lemma BeforeTransitive(a: string, b: string, c: string)
    requires a == b || Before(a, b)
    requires b == c || Before(b, c)
    ensures a == c || Before(a, c)
  {
    if a != b && b != c && |a| == |b| == |c| {
      LessTransitive(a, b, c);
    }
  }

  /** Inserting in order keeps a sorted sequence sorted. */
  lemma SortedInsert(s: seq<string>, k: nat, d: string)
    requires Sorted(s) && k <= |s|
    requires k == 0 || s[k - 1] == d || Before(s[k - 1], d)
    requires k == |s| || s[k] == d || Before(d, s[k])
    ensures Sorted(s[..k] + [d] + s[k..])
  {
    var t := s[..k] + [d] + s[k..];
    forall i, j | 0 <= i < j < |t| ensures t[i] == t[j] || Before(t[i], t[j]) {
      if i < k && j == k && i < k - 1 {
        BeforeTransitive(s[i], s[k - 1], d);
      } else if i == k && j > k + 1 {
        BeforeTransitive(d, s[k], s[j - 1]);
      }
    }
  }

  /** sort.Slice in place; the library's algorithm is not the point, its result is. */
  method Sort(dirs: array<string>)
    modifies dirs
    ensures Sorted(dirs[..])
    ensures multiset(dirs[..]) == multiset(old(dirs[..]))
  {
    for i := 0 to dirs.Length
      invariant Sorted(dirs[..i])
      invariant multiset(dirs[..]) == multiset(old(dirs[..]))
    {
      Insert(dirs, i);
    }
    assert dirs[..] == dirs[..dirs.Length];
  }

  lemma Rotation(s: seq<string>, k: nat, i: nat)
    requires k <= i < |s|
    ensures multiset(s[..k] + [s[i]] + s[k..i] + s[i + 1..]) == multiset(s)
  {
    assert s == s[..k] + s[k..i] + [s[i]] + s[i + 1..];
  }

  /** Moves dirs[i] down into the sorted part before it. */
  method Insert(dirs: array<string>, i: nat)
    requires i < dirs.Length && Sorted(dirs[..i])
    modifies dirs
    ensures Sorted(dirs[..i + 1])
    ensures multiset(dirs[..]) == multiset(old(dirs[..]))
  {
    var d := dirs[i];
    var k := Shift(dirs, i);
    ghost var before := old(dirs[..]);
    if k > 0 { BeforeTotal(d, before[k - 1]); }
    SortedInsert(before[..i], k, d);
    assert dirs[..i + 1] == before[..i][..k] + [d] + before[..i][k..];
    assert dirs[..] == before[..k] + [d] + before[k..i] + before[i + 1..];
    Rotation(before, k, i);
  }

  /** Shifts the elements that dirs[i] sorts before up by one and puts it below them, at k. */
  method Shift(dirs: array<string>, i: nat) returns (k: nat)
    requires i < dirs.Length
    modifies dirs
    ensures k <= i && dirs[k] == old(dirs[i])
    ensures forall j | 0 <= j < k || i < j < dirs.Length :: dirs[j] == old(dirs[j])
    ensures forall j | k < j <= i :: dirs[j] == old(dirs[j - 1])
    ensures k < i ==> Before(old(dirs[i]), old(dirs[k]))
    ensures k > 0 ==> !Before(old(dirs[i]), old(dirs[k - 1]))
  {
    var d := dirs[i];
    k := i;
    while k > 0 && Before(d, dirs[k - 1])
      invariant k <= i
      invariant forall j | 0 <= j < k || i < j < dirs.Length :: dirs[j] == old(dirs[j])
      invariant forall j | k < j <= i :: dirs[j] == old(dirs[j - 1])
      invariant k < i ==> Before(d, old(dirs[k]))
    {
      dirs[k] := dirs[k - 1];
      k := k - 1;
    }
    dirs[k] := d;
  }

  /** outermost: sorts the burst in place and keeps what no kept directory contains. */
  method Outermost(dirs: array<string>) returns (out: seq<string>)
    modifies dirs
    ensures Sorted(dirs[..]) && multiset(dirs[..]) == multiset(old(dirs[..]))
    ensures out == Kept(dirs[..])
    ensures MinimalCover(old(dirs[..]), out)
  {
    Sort(dirs);
    out := [];
    for i := 0 to dirs.Length
      invariant out == Kept(dirs[..i])
    {
      var d, covered := dirs[i], false;
      for j := 0 to |out|
        invariant !covered
        invariant forall k | 0 <= k < j :: !Contains(out[k], d)
      {
        if Contains(out[j], d) {
          covered := true;
          break;
        }
      }
      assert dirs[..i + 1][..i] == dirs[..i];
      if !covered {
        out := out + [d];
      }
    }
    assert dirs[..] == dirs[..dirs.Length];
    KeptIsMinimalCover(old(dirs[..]), dirs[..]);
  }
}
