/** The watch of one staged volume, as the plugin keeps it: the fields its lock guards and the
    sections under it (pkg/driver/watch.go), on directory names. View() is the lock of the
    coherence protocol, on paths. */
module WatchObject {
  import opened Keys
  import opened Outermost
  import opened Coherence

  /** Directory names as the paths they stand for. */
  function Paths(names: set<string>): set<Path> {
    Image(names, DirPath)
  }

  function PathSeq(names: seq<string>): seq<Path> {
    ImageSeq(names, DirPath)
  }

  function NameSet(names: seq<string>): set<string> {
    set d | d in names
  }

  function Image(names: set<string>, f: string -> Path): set<Path> {
    set d | d in names :: f(d)
  }

  function ImageSeq(names: seq<string>, f: string -> Path): seq<Path> {
    seq(|names|, i requires 0 <= i < |names| => f(names[i]))
  }

  lemma ImageAdds(names: set<string>, d: string, f: string -> Path)
    ensures Image(names + {d}, f) == Image(names, f) + {f(d)}
  {}

  class Watch {
    const prefix: string
    var pending: set<string>
    var flushing: bool
    var dropping: bool
    var dropAgain: bool

    constructor (prefix: string)
      ensures this.prefix == prefix && View() == Lock({}, false, false, false)
    {
      this.prefix := prefix;
      pending, flushing, dropping, dropAgain := {}, false, false, false;
    }

    ghost function View(): Lock
      reads this
    {
      Lock(Paths(pending), flushing, dropping, dropAgain)
    }

    /** One created or removed object; arm says that the flush timer is to be started. */
    method Changed(key: string) returns (arm: bool)
      modifies this
      ensures View() == old(View()).Changed(ChangedPath(prefix, key))
      ensures arm == (ChangedDir(prefix, key).Some? && !old(flushing))
    {
      var dir := ChangedDir(prefix, key);
      if dir.None? {
        return false;
      }
      pending := pending + {dir.value};
      ImageAdds(old(pending), dir.value, DirPath);
      arm := !flushing;
      flushing := true;
    }

    /** flush's section: the burst is taken, in no particular order. */
    method TakePending() returns (dirs: array<string>)
      modifies this
      ensures fresh(dirs)
      ensures forall d :: d in dirs[..] <==> d in old(pending)
      ensures View() == old(View()).Taken()
    {
      var left, taken: seq<string> := pending, [];
      while left != {}
        invariant forall d :: d in taken || d in left <==> d in pending
      {
        var d :| d in left;
        left, taken := left - {d}, taken + [d];
      }
      dirs := new string[|taken|](i requires 0 <= i < |taken| => taken[i]);
      assert dirs[..] == taken;
      pending, flushing := {}, false;
    }

    /** dropAll's section; start says that the runner is to be started. */
    method DropAll() returns (start: bool)
      modifies this
      ensures start == !old(dropping) && View() == old(View()).DropAll()
    {
      if dropping {
        dropAgain := true;
        return false;
      }
      dropping := true;
      start := true;
    }

    /** The runner's section after a drop; again says that it drops once more. */
    method RunnerNext() returns (again: bool)
      modifies this
      ensures again == old(dropAgain) && View() == old(View()).RunnerNext()
    {
      again := dropAgain;
      dropAgain, dropping := false, again;
    }
  }

  lemma MinimalCoverCoversBurst(dirs: seq<string>, targets: seq<string>)
    requires MinimalCover(dirs, targets)
    ensures CoversBurst(PathSeq(targets), Paths(NameSet(dirs)))
  {
    var paths := PathSeq(targets);
    forall t | t in paths ensures t in Paths(NameSet(dirs)) {
      var i :| 0 <= i < |paths| && paths[i] == t;
      assert targets[i] in dirs;
    }
    forall p | p in Paths(NameSet(dirs)) ensures Reaches(paths, p) {
      var d :| d in NameSet(dirs) && DirPath(d) == p;
      assert Contained(targets, d);
      var o :| o in targets && Contains(o, d);
      ContainsBySegments(o, d);
      var i :| 0 <= i < |targets| && targets[i] == o;
      assert paths[i] in paths;
    }
  }

  /** flush after its section: what it drops is a plan the protocol allows for its burst. */
  method PlanFlush(dirs: array<string>) returns (whole: bool, targets: seq<string>)
    modifies dirs
    ensures MinimalCover(old(dirs[..]), targets)
    ensures CoversBurst(PathSeq(targets), Paths(NameSet(old(dirs[..]))))
    ensures whole <==> |targets| > 64 || targets == ["."]
    ensures Plan(PathSeq(targets)) == if whole then AskingAll else Dropping(PathSeq(targets))
  {
    targets := Outermost.Outermost(dirs);
    whole := |targets| > MAX_DIRS || (|targets| == 1 && targets[0] == ".");
    MinimalCoverCoversBurst(old(dirs[..]), targets);
    assert PathSeq(targets) == [[]] <==> |targets| == 1 && targets[0] == "." by {
      if |targets| == 1 {
        assert PathSeq(targets)[0] == DirPath(targets[0]);
      }
    }
  }

  // ---- invalidateNearest ----

  /** The directory k levels above p. */
  function Ancestor(p: Path, k: nat): Path
    requires k <= |p|
  {
    p[..|p| - k]
  }

  datatype Errno = OK | ENOENT | Other

  /** invalidateNearest, against whatever the calls answer one after the other: it climbs from dir
      one step for each ENOENT, and ends at the first other answer or at the mount's root. */
  method InvalidateNearest(answer: (nat, string) -> Errno, dir: string) returns (at: string, err: Errno, climbed: nat)
    requires CleanPath(DirPath(dir)) && dir == DirName(DirPath(dir))
    ensures var p := DirPath(dir);
            && climbed <= |p| && at == DirName(Ancestor(p, climbed))
            && (forall k | 0 <= k < climbed :: answer(k, DirName(Ancestor(p, k))) == ENOENT)
            && err == answer(climbed, at)
            && (err == ENOENT ==> at == ".")
  {
    ghost var p := DirPath(dir);
    climbed, at := 0, dir;
    assert Ancestor(p, 0) == p;
    while true
      invariant climbed <= |p| && at == DirName(Ancestor(p, climbed))
      invariant forall k | 0 <= k < climbed :: answer(k, DirName(Ancestor(p, k))) == ENOENT
      decreases |p| - climbed
    {
      ghost var here := Ancestor(p, climbed);
      err := answer(climbed, at);
      if err == OK || at == "." || err != ENOENT {
        return;
      }
      PathDirIsParent(here);
      assert here[..|here| - 1] == Ancestor(p, climbed + 1);
      at := PathDir(at);
      climbed := climbed + 1;
    }
  }
}
