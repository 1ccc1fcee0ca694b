/** From object keys to the directories whose listings they alter (pkg/driver/watch.go). */
module Keys {
  import opened Strings

  datatype Option<T> = None | Some(value: T)

  /** A directory relative to the mount, by segments; the mount's root is []. */
  type Path = seq<string>

  /** The segments of a directory name: "." is the root. */
  function DirPath(d: string): Path {
    if d == "." then [] else Split(d, '/')
  }

  /** The name path.Dir gives a directory. */
  function DirName(p: Path): string {
    if p == [] then "." else Join(p, '/')
  }

  /** A segment that path.Clean leaves alone. */
  predicate CleanSegment(w: string) {
    w != "" && w != "." && w != ".." && '/' !in w
  }

  predicate CleanPath(p: Path) {
    forall w | w in p :: CleanSegment(w)
  }

  /** A clean path is what its name stands for. */
  lemma NameStandsForPath(p: Path)
    requires CleanPath(p)
    ensures DirPath(DirName(p)) == p
  {
    if p != [] {
      assert CleanSegment(p[0]);
      SplitJoin(p, '/');
      if Join(p, '/') == "." {
        SplitWord(".", '/');
      }
    }
  }

  /** A directory's name and its path determine each other: every name is that of its path, and a clean
      path is what its name stands for. */
  lemma DirPathInvertsDirName(p: Path, d: string)
    ensures DirName(DirPath(d)) == d
    ensures CleanPath(p) ==> (DirPath(d) == p <==> d == DirName(p))
  {
    JoinSplit(d, '/');
    if CleanPath(p) {
      NameStandsForPath(p);
    }
  }

  /** path.Clean of a relative path, on its segments: empty and "." segments go,
      ".." removes the segment before it. */
  function CleanSegments(segments: seq<string>, done: seq<string>): (r: seq<string>)
    ensures |r| <= |segments| + |done|
  {
    if segments == [] then done
    else
      var w := segments[0];
      CleanSegments(segments[1..],
                    if w == "" || w == "." then done
                    else if w == ".." && done != [] && done[|done| - 1] != ".." then done[..|done| - 1]
                    else done + [w])
  }

  /** The path that an absolute file name stands for. */
  function PointOf(name: string): Path {
    CleanSegments(Split(name, '/'), [])
  }

  /** The segments are taken one after the other. */
  lemma {:induction false} CleanInTurn(a: seq<string>, b: seq<string>, done: seq<string>)
    ensures CleanSegments(a + b, done) == CleanSegments(b, CleanSegments(a, done))
  {
    if a == [] {
      assert a + b == b;
    } else {
      var w := a[0];
      assert (a + b)[1..] == a[1..] + b;
      CleanInTurn(a[1..], b,
                  if w == "" || w == "." then done
                  else if w == ".." && done != [] && done[|done| - 1] != ".." then done[..|done| - 1]
                  else done + [w]);
    }
  }

  /** path.Clean: an empty segment and "." stand for nothing, and ".." takes back the segment before it. */
  lemma CleanTakesBack(a: seq<string>, w: string, b: seq<string>)
    requires CleanSegment(w)
    ensures CleanSegments(a + [""] + b, []) == CleanSegments(a + b, []) == CleanSegments(a + ["."] + b, [])
    ensures CleanSegments(a + [w, ".."] + b, []) == CleanSegments(a + b, [])
  {
    var done := CleanSegments(a, []);
    CleanInTurn(a, b, []);
    CleanThrough(a, [""], b);
    CleanThrough(a, ["."], b);
    CleanThrough(a, [w, ".."], b);
    assert [w, ".."][1..] == [".."] && (done + [w])[..|done|] == done;
    assert CleanSegments([".."], done + [w]) == CleanSegments([], done);
  }

  lemma CleanThrough(a: seq<string>, middle: seq<string>, b: seq<string>)
    ensures CleanSegments(a + middle + b, []) == CleanSegments(b, CleanSegments(middle, CleanSegments(a, [])))
  {
    CleanInTurn(a + middle, b, []);
    CleanInTurn(a, middle, []);
  }

  lemma {:induction false} CleanKeepsClean(p: Path, done: Path)
    requires CleanPath(p)
    ensures CleanSegments(p, done) == done + p
  {
    if p != [] {
      assert CleanSegment(p[0]);
      CleanKeepsClean(p[1..], done + [p[0]]);
      assert done + [p[0]] + p[1..] == done + p;
    }
  }

  /** path.Dir of a relative path: all but the last element, cleaned. */
  function PathDir(p: string): string
    requires p != "" && p[0] != '/'
  {
    var segments := Split(p, '/');
    DirName(CleanSegments(segments[..|segments| - 1], []))
  }

  function ListenPrefix(prefix: string): string {
    var trimmed := Trim(prefix, '/');
    if trimmed == "" then "" else trimmed + "/"
  }

  function ChangedDir(prefix: string, key: string): Option<string> {
    if !(prefix <= key) then None
    else
      var rel := Trim(key[|prefix|..], '/');
      if rel == "" then None else Some(PathDir(rel))
  }

  /** The segments of a mount's prefix, slashes around it ignored. */
  function PrefixPath(prefix: string): Path {
    var trimmed := Trim(prefix, '/');
    if trimmed == "" then [] else Split(trimmed, '/')
  }

  function Slashes(n: nat): string { seq(n, _ => '/') }

  lemma {:induction false} TrimDropsSlashes(a: nat, s: string, b: nat)
    requires s == "" || (s[0] != '/' && s[|s| - 1] != '/')
    ensures Trim(Slashes(a) + s + Slashes(b), '/') == s
  {
    if s == "" {
      TrimLeftDrops(a + b, "");
      assert Slashes(a) + s + Slashes(b) == Slashes(a + b) + "";
    } else {
      TrimLeftDrops(a, s + Slashes(b));
      assert Slashes(a) + s + Slashes(b) == Slashes(a) + (s + Slashes(b));
      TrimRightDrops(s, b);
    }
  }

  lemma {:induction false} TrimLeftDrops(n: nat, s: string)
    requires s == "" || s[0] != '/'
    ensures TrimLeft(Slashes(n) + s, '/') == s
  {
    if n > 0 {
      assert (Slashes(n) + s)[1..] == Slashes(n - 1) + s;
      TrimLeftDrops(n - 1, s);
    } else {
      assert Slashes(0) + s == s;
    }
  }

  lemma {:induction false} TrimRightDrops(s: string, n: nat)
    requires s == "" || s[|s| - 1] != '/'
    ensures TrimRight(s + Slashes(n), '/') == s
  {
    if n > 0 {
      assert (s + Slashes(n))[..|s| + n - 1] == s + Slashes(n - 1);
      TrimRightDrops(s, n - 1);
    } else {
      assert s + Slashes(0) == s;
    }
  }

  /** The prefix of a mount, slashes around it ignored, stands for its segments; without any, for the bucket. */
  lemma PrefixPathIs(a: nat, base: Path, b: nat)
    requires CleanPath(base)
    ensures PrefixPath(Slashes(a) + Join(base, '/') + Slashes(b)) == base
    ensures ListenPrefix(Slashes(a) + Join(base, '/') + Slashes(b)) == if base == [] then "" else Join(base, '/') + "/"
  {
    if base != [] {
      CleanJoinEnds(base);
      SplitCleanJoin(base);
    }
    TrimDropsSlashes(a, Join(base, '/'), b);
  }

  /** An object key by segments; a directory marker ends in a slash. */
  datatype Key = Key(path: Path, marker: bool) {
    predicate Clean() { path != [] && CleanPath(path) }
    function Text(): string { Join(path, '/') + if marker then "/" else "" }
    /** The directory whose listing holds the object. */
    function Parent(): Path requires path != [] { path[..|path| - 1] }
    /** That directory, if there is one: the marker of the mount's own root is in no listing. */
    function Dir(): Option<Path> { if path == [] then None else Some(Parent()) }
  }

  lemma {:induction false} CleanJoinEnds(p: Path)
    requires CleanPath(p) && p != []
    ensures var s := Join(p, '/'); s != "" && s[0] != '/' && s[|s| - 1] != '/'
  {
    assert CleanSegment(p[0]);
    if |p| > 1 {
      CleanJoinEnds(p[1..]);
    }
  }

  /** Trimming the text of a clean key leaves its path. */
  lemma TrimKey(p: Path, marker: bool)
    requires CleanPath(p)
    ensures Trim(Join(p, '/') + (if marker then "/" else ""), '/') == Join(p, '/')
  {
    var s := Join(p, '/');
    if p == [] {
      assert marker ==> TrimLeft("/", '/') == "";
    } else {
      CleanJoinEnds(p);
      assert (s + "/")[..|s|] == s;
      assert TrimRight(s, '/') == s;
      assert TrimRight(s + "/", '/') == s;
      assert s + "" == s;
    }
  }

  /** What changedDir answers, as a path. */
  function ChangedPath(prefix: string, key: string): Option<Path> {
    match ChangedDir(prefix, key)
    case None => None
    case Some(d) => Some(DirPath(d))
  }

  /** What a change of key means to a mount of base: the key seen from the mount, or none for a key
      that is not at or below it, segment by segment. */
  function SeenFrom(base: Path, key: Key): Option<Key> {
    if base <= key.path then Some(Key(key.path[|base|..], key.marker)) else None
  }

  /** changedDir answers the directory that holds the object, relative to the mount, or nothing. */
  predicate AnswersParent(prefix: string, key: Key) {
    ChangedPath(ListenPrefix(prefix), key.Text()) ==
    match SeenFrom(PrefixPath(prefix), key)
    case None => None
    case Some(seen) => seen.Dir()
  }

  /** That is so for every mount prefix and every clean key: changedDir never matches a sibling that
      only shares a string prefix, and a marker counts for the directory above it. */
  lemma ChangedDirBySegments(prefix: string, key: Key)
    requires key.Clean()
    ensures AnswersParent(prefix, key)
  {
    if PrefixPath(prefix) < key.path {
      ChangedPathBelow(prefix, key);
    } else {
      ChangedPathElsewhere(prefix, key);
    }
  }

  lemma ChangedPathElsewhere(prefix: string, key: Key)
    requires key.Clean() && !(PrefixPath(prefix) < key.path)
    ensures AnswersParent(prefix, key)
  {
    ChangedDirElsewhere(prefix, key);
  }

  lemma ChangedPathBelow(prefix: string, key: Key)
    requires key.Clean() && PrefixPath(prefix) < key.path
    ensures AnswersParent(prefix, key)
  {
    var base := PrefixPath(prefix);
    var rest := key.path[|base|..];
    RestIsBelow(prefix, key, rest);
    assert SeenFrom(base, key) == Some(Key(rest, key.marker));
  }

  lemma RestIsBelow(prefix: string, key: Key, rest: Path)
    requires key.Clean() && PrefixPath(prefix) < key.path && rest == key.path[|PrefixPath(prefix)|..]
    ensures ChangedPath(ListenPrefix(prefix), key.Text()) == Some(rest[..|rest| - 1])
  {
    assert key.path == PrefixPath(prefix) + rest;
    var parent := rest[..|rest| - 1];
    forall w | w in parent ensures CleanSegment(w) { assert w in key.path; }
    ChangedDirBelow(prefix, key, rest);
    NameStandsForPath(parent);
  }

  lemma ChangedDirElsewhere(prefix: string, key: Key)
    requires key.Clean() && !(PrefixPath(prefix) < key.path)
    ensures ChangedDir(ListenPrefix(prefix), key.Text()).None?
  {
    ListenMatches(prefix, key);
    var text, listen := key.Text(), ListenPrefix(prefix);
    if listen <= text {
      assert text[|listen|..] == "";
    }
  }

  lemma ChangedDirBelow(prefix: string, key: Key, rest: Path)
    requires key.Clean() && rest != [] && key.path == PrefixPath(prefix) + rest
    ensures ChangedDir(ListenPrefix(prefix), key.Text()) == Some(DirName(rest[..|rest| - 1]))
  {
    RestText(prefix, key, rest);
    forall w | w in rest ensures CleanSegment(w) { assert w in key.path; }
    TrimKey(rest, key.marker);
    PathDirOfJoin(rest, Join(rest, '/'));
  }

  lemma SplitCleanJoin(p: Path)
    requires CleanPath(p) && p != []
    ensures Split(Join(p, '/'), '/') == p
  {
    forall w | w in p ensures '/' !in w { assert CleanSegment(w); }
    SplitJoin(p, '/');
  }

  lemma PathDirBySegments(s: string, p: Path)
    requires s != "" && s[0] != '/' && Split(s, '/') == p && CleanPath(p[..|p| - 1])
    ensures PathDir(s) == DirName(p[..|p| - 1])
  {
    var init := p[..|p| - 1];
    CleanKeepsClean(init, []);
    assert [] + init == init;
  }

  lemma PathDirOfJoin(p: Path, s: string)
    requires CleanPath(p) && p != [] && s == Join(p, '/')
    ensures s != "" && s[0] != '/' && PathDir(s) == DirName(p[..|p| - 1])
  {
    CleanJoinEnds(p);
    SplitCleanJoin(p);
    PathDirBySegments(s, p);
  }

  /** path.Dir takes one step towards the root. */
  lemma PathDirIsParent(p: Path)
    requires CleanPath(p) && p != []
    ensures DirName(p) != "" && DirName(p)[0] != '/'
    ensures PathDir(DirName(p)) == DirName(p[..|p| - 1])
  {
    PathDirOfJoin(p, DirName(p));
  }

  lemma TextSplits(key: Key)
    requires key.Clean()
    ensures Split(key.Text(), '/') == key.path + (if key.marker then [""] else [])
  {
    var s := Join(key.path, '/');
    forall w | w in key.path ensures '/' !in w { assert CleanSegment(w); }
    SplitJoin(key.path, '/');
    if key.marker {
      SplitConcat(s, "", '/');
      assert key.Text() == s + "/" == s + "/" + "";
    } else {
      assert key.Text() == s;
    }
  }

  /** A key has the mount's string prefix iff it lies below the mount, or is the mount's own marker. */
  lemma ListenMatches(prefix: string, key: Key)
    requires key.Clean()
    ensures var base := PrefixPath(prefix);
            && (ListenPrefix(prefix) <= key.Text() <==> base < key.path || (base == key.path && key.marker))
            && (base == key.path && key.marker ==> ListenPrefix(prefix) == key.Text())
  {
    var base, text := PrefixPath(prefix), key.Text();
    TextSplits(key);
    if base != [] {
      var trimmed := Trim(prefix, '/');
      PrefixBySegments(text, trimmed, '/');
      if base < Split(text, '/') {
        PrefixOfMarked(base, key.path, key.marker);
      }
      JoinSplit(trimmed, '/');
    }
  }

  lemma PrefixOfMarked(base: Path, path: Path, marker: bool)
    requires base < path + (if marker then [""] else [])
    ensures base < path || (base == path && marker)
  {
    assert base <= path;
  }

  lemma RestText(prefix: string, key: Key, rest: Path)
    requires key.Clean() && rest != [] && key.path == PrefixPath(prefix) + rest
    ensures ListenPrefix(prefix) <= key.Text()
    ensures key.Text()[|ListenPrefix(prefix)|..] == Join(rest, '/') + (if key.marker then "/" else "")
  {
    var base, tail := PrefixPath(prefix), if key.marker then "/" else "";
    if base == [] {
      assert key.path == rest;
    } else {
      JoinConcat(base, rest, '/');
      JoinSplit(Trim(prefix, '/'), '/');
      assert key.Text() == ListenPrefix(prefix) + (Join(rest, '/') + tail);
    }
  }
}
