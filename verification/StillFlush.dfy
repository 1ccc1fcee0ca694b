/** A flush while nothing else moves: what its climbs and drops come to (pkg/driver/watch.go,
    pkg/driver/cache.go). */
module StillFlushes {
  import opened Keys
  import opened Coherence
  import opened Drain

  /** Flush i runs on, alone, until it is done. */
  ghost function Flushed(s: Sys, i: nat): Sys
    requires i < |s.flushes| && (s.flushes[i].Dropping? ==> s.flushes[i].todo != [])
    decreases if s.flushes[i].Dropping? then Depths(s.flushes[i].todo) else 0
  {
    if s.flushes[i].Dropping? then
      ClimbIsLower(s, i);
      Flushed(Apply(s, Climb(i)), i)
    else s
  }

  lemma ClimbIsLower(s: Sys, i: nat)
    requires i < |s.flushes| && s.flushes[i].Dropping? && s.flushes[i].todo != []
    ensures var f := Apply(s, Climb(i)).flushes[i];
            f.Dropping? ==> f.todo != [] && Depths(f.todo) < Depths(s.flushes[i].todo)
  {
    var todo := s.flushes[i].todo;
    if !Found(s.cache, s.bucket, todo[0]) {
      assert todo[0 := todo[0][..|todo[0]| - 1]][1..] == todo[1..];
    }
  }

  /** One climb step looks one directory higher, or drops where it is found. */
  lemma ClimbStep(s: Sys, i: nat)
    requires i < |s.flushes| && s.flushes[i].Dropping? && s.flushes[i].todo != []
    ensures var s', todo := Apply(s, Climb(i)), s.flushes[i].todo;
            && s' == s.(cache := s'.cache, flushes := s.flushes[i := s'.flushes[i]])
            && if Found(s.cache, s.bucket, todo[0]) then
                 s'.cache == (map d | d in s.cache && !(todo[0] <= d) :: s.cache[d]) && s'.flushes[i] == Rest(todo[1..])
               else
                 todo[0] != [] && s'.cache == s.cache && s'.flushes[i] == Dropping([todo[0][..|todo[0]| - 1]] + todo[1..])
  {}

  /** Looking one directory higher does not change where the climb ends. */
  lemma NearestFromParent(s: Sys, p: Path)
    requires !Found(s.cache, s.bucket, p)
    ensures p != [] && Nearest(s.cache, s.bucket, p[..|p| - 1]) == Nearest(s.cache, s.bucket, p)
  {}

  /** A flush that runs alone drops for each of its targets the subtree of the nearest directory that is
      found -- one after the other, in the cache that the drops before left -- and does nothing else. */
  lemma {:induction false} FlushDropsEach(s: Sys, i: nat)
    requires i < |s.flushes| && s.flushes[i].Dropping? && s.flushes[i].todo != []
    ensures Flushed(s, i) == s.(cache := DropEach(s.cache, s.bucket, s.flushes[i].todo), flushes := s.flushes[i := Done])
    decreases Depths(s.flushes[i].todo)
  {
    var s', todo := Apply(s, Climb(i)), s.flushes[i].todo;
    ClimbIsLower(s, i);
    ClimbStep(s, i);
    if Found(s.cache, s.bucket, todo[0]) {
      assert s'.cache == Drop(s.cache, Nearest(s.cache, s.bucket, todo[0]));
      if todo[1..] != [] {
        FlushDropsEach(s', i);
      } else {
        assert DropEach(s'.cache, s.bucket, []) == s'.cache;
      }
    } else {
      NearestFromParent(s, todo[0]);
      FlushDropsEach(s', i);
      SameDrops(s, todo, todo[0][..|todo[0]| - 1]);
    }
  }

  lemma SameDrops(s: Sys, todo: seq<Path>, up: Path)
    requires todo != [] && Nearest(s.cache, s.bucket, up) == Nearest(s.cache, s.bucket, todo[0])
    ensures DropEach(s.cache, s.bucket, [up] + todo[1..]) == DropEach(s.cache, s.bucket, todo)
  {
    assert ([up] + todo[1..])[1..] == todo[1..];
  }

  /** So a burst of at most 64 directories with the root not alone among its targets, flushed alone, leaves
      exactly the listings that climbing and dropping for every directory of it would leave. */
  lemma StillFlushIsExact(s: Sys, i: nat, targets: seq<Path>, dirs: seq<Path>)
    requires !s.ended && Enabled(s, Merge(i, targets)) && s.flushes[i].dirs == (set d | d in dirs) && dirs != []
    requires |targets| <= 64 && targets != [[]]
    ensures var merged := Apply(s, Merge(i, targets));
            && merged.flushes[i] == Dropping(targets) && targets != []
            && Flushed(merged, i).cache == DropEach(s.cache, s.bucket, dirs)
  {
    assert dirs[0] in s.flushes[i].dirs && Reaches(targets, dirs[0]);
    PlanIs(targets);
    FlushDropsEach(Apply(s, Merge(i, targets)), i);
    MergedDropsTheSame(s.cache, s.bucket, targets, dirs);
  }
}
