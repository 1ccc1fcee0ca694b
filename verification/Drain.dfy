/** Once the bucket is quiet, the watch finishes: whatever order its goroutines run in, it comes to
    rest after finitely many steps with every cached listing true (pkg/driver/watch.go). */
module Drain {
  import opened Keys
  import opened Coherence
  import opened Sums

  function IsMerging(f: Flush): nat { if f.Merging? then 1 else 0 }
  function IsAskingAll(f: Flush): nat { if f.AskingAll? then 1 else 0 }

  /** The drops and climbs a flush can still make. */
  function Climbs(f: Flush): nat { if f.Dropping? then Depths(f.todo) else 0 }

  function Depths(todo: seq<Path>): nat {
    if todo == [] then 0 else |todo[0]| + 1 + Depths(todo[1..])
  }

  function EventsLeft(s: Sys): nat { if s.stream.Heard? then |s.stream.events| else 0 }
  function RunnerLeft(s: Sys): nat {
    (match s.runner case Idle => 0 case BeforeDrop => 2 case AfterDrop => 1) + if s.lock.dropAgain then 2 else 0
  }

  function Rank(s: Sys, level: nat): nat {
    match level
    case 0 => EventsLeft(s)
    case 1 => if s.lock.flushing then 1 else 0
    case 2 => Sum(s.flushes, IsMerging)
    case 3 => Sum(s.flushes, IsAskingAll)
    case 4 => Sum(s.flushes, Climbs)
    case _ => RunnerLeft(s)
  }

  /** s' comes before s: lower at one level, equal above it. */
  ghost predicate Lower(s': Sys, s: Sys) {
    exists level | 0 <= level < 6 ::
      Rank(s', level) < Rank(s, level) && forall above | 0 <= above < level :: Rank(s', above) == Rank(s, above)
  }

  lemma FlushStepIsLower(s: Sys, s': Sys, i: nat, f: Flush, level: nat)
    requires i < |s.flushes| && s'.flushes == s.flushes[i := f]
    requires EventsLeft(s') == EventsLeft(s) && s'.lock.flushing == s.lock.flushing
    requires 2 <= level <= 4
    requires level > 2 ==> IsMerging(f) == IsMerging(s.flushes[i])
    requires level > 3 ==> IsAskingAll(f) == IsAskingAll(s.flushes[i])
    requires match level
             case 2 => IsMerging(f) < IsMerging(s.flushes[i])
             case 3 => IsAskingAll(f) < IsAskingAll(s.flushes[i])
             case _ => Climbs(f) < Climbs(s.flushes[i])
    ensures Lower(s', s)
  {
    SumUpdate(s.flushes, i, f, IsMerging);
    SumUpdate(s.flushes, i, f, IsAskingAll);
    SumUpdate(s.flushes, i, f, Climbs);
    assert Rank(s', level) < Rank(s, level);
  }

  /** Every step of the watch uses something up. */
  lemma WatchStepIsLower(s: Sys, e: Step)
    requires Inv(s) && e.OfWatch() && Enabled(s, e)
    ensures Lower(Apply(s, e), s)
  {
    var s' := Apply(s, e);
    match e
    case Deliver => assert Rank(s', 0) < Rank(s, 0);
    case Take => assert Rank(s', 1) < Rank(s, 1);
    case Merge(i, targets) => FlushStepIsLower(s, s', i, s'.flushes[i], 2);
    case AskAll(i) => FlushStepIsLower(s, s', i, Done, 3);
    case Climb(i) =>
      var todo := s.flushes[i].todo;
      if !Found(s.cache, s.bucket, todo[0]) {
        assert todo[0 := todo[0][..|todo[0]| - 1]][1..] == todo[1..];
      }
      FlushStepIsLower(s, s', i, s'.flushes[i], 4);
    case RunnerDrop => assert Rank(s', 5) < Rank(s, 5);
    case RunnerLoop => assert Rank(s', 5) < Rank(s, 5);
  }

  /** Which goroutine moves next, as a scheduler decides it from the steps made and the state. */
  type Scheduler = (nat, Sys) -> Step

  /** What happens to the cache before that move: directories are listed, listings are evicted. */
  type Usage = (nat, Sys) -> seq<Step>

  /** A scheduler may favour whom it likes; it only never idles while something can be done. */
  ghost predicate Works(next: Scheduler) {
    forall n: nat, s | Inv(s) && !Quiet(s) :: next(n, s).OfWatch() && Enabled(s, next(n, s))
  }

  predicate Uses(steps: seq<Step>) {
    forall e | e in steps :: e.Fill? || e.Evict?
  }

  /** s after the cache was used, which leaves the watch and the bucket as they were. */
  ghost function Used(s: Sys, steps: seq<Step>): (s': Sys)
    requires Inv(s) && Uses(steps)
    ensures Inv(s') && s' == s.(cache := s'.cache)
    ensures forall level :: Rank(s', level) == Rank(s, level)
  {
    if steps == [] then s
    else
      var before := Used(s, steps[..|steps| - 1]);
      assert steps[|steps| - 1] in steps;
      StepKeepsInv(before, steps[|steps| - 1]);
      Apply(before, steps[|steps| - 1])
  }

  /** Some use of the cache, then one move of the scheduler's choice. */
  ghost function Move(s: Sys, next: Scheduler, usage: Usage, n: nat): (s': Sys)
    requires Inv(s) && !Quiet(s) && Works(next) && Uses(usage(n, s))
    ensures Inv(s') && Lower(s', s)
    ensures s'.bucket == s.bucket && s'.ended == s.ended && (s'.stream.Heard? <==> s.stream.Heard?)
  {
    var used := Used(s, usage(n, s));
    var e := next(n, used);
    StepKeepsInv(used, e);
    WatchStepIsLower(used, e);
    Apply(used, e)
  }

  /** Runs the watch until nothing is left to do. */
  ghost function RunToRest(s: Sys, next: Scheduler, usage: Usage, n: nat): (rest: Sys)
    requires Inv(s) && Works(next) && forall k: nat, s :: Uses(usage(k, s))
    ensures Inv(rest) && Quiet(rest)
    ensures rest.bucket == s.bucket && rest.ended == s.ended
    ensures s.stream.Heard? <==> rest.stream.Heard?
    decreases Rank(s, 0), Rank(s, 1), Rank(s, 2), Rank(s, 3), Rank(s, 4), Rank(s, 5)
  {
    if Quiet(s) then s else RunToRest(Move(s, next, usage, n), next, usage, n + 1)
  }

  /** Whatever the scheduler, and however the cache is filled and evicted meanwhile, a heard watch whose
      bucket stays still comes to rest with every cached listing equal to the bucket's; and so they stay
      however the cache is used from then on. */
  lemma {:induction false} ComesToRestFresh(s: Sys, next: Scheduler, usage: Usage, later: seq<Step>)
    requires Inv(s) && s.stream.Heard? && Works(next) && Uses(later) && forall k: nat, s :: Uses(usage(k, s))
    ensures var rest := Used(RunToRest(s, next, usage, 0), later);
            Quiet(rest) && forall d | d in rest.cache :: rest.cache[d] == Listing(s.bucket, d)
  {
    QuietIsFresh(Used(RunToRest(s, next, usage, 0), later));
  }

  lemma {:induction false} Enumerate(dirs: set<Path>) returns (targets: seq<Path>)
    ensures forall d :: d in targets <==> d in dirs
  {
    if dirs == {} {
      targets := [];
    } else {
      var d :| d in dirs;
      targets := Enumerate(dirs - {d});
      targets := targets + [d];
    }
  }

  lemma MergeEnabled(s: Sys, i: nat) returns (e: Step)
    requires i < |s.flushes| && s.flushes[i].Merging?
    ensures e.OfWatch() && Enabled(s, e)
  {
    var targets := Enumerate(s.flushes[i].dirs);
    forall d | d in s.flushes[i].dirs ensures Reaches(targets, d) {
      assert d in targets && d <= d;
    }
    e := Merge(i, targets);
  }

  /** A watch that is not at rest can always move. */
  lemma NeverStuck(s: Sys) returns (e: Step)
    requires Inv(s) && !Quiet(s)
    ensures e.OfWatch() && Enabled(s, e)
  {
    if s.stream.Heard? && s.stream.events != [] {
      e := Deliver;
    } else if s.lock.flushing {
      e := Take;
    } else if i :| 0 <= i < |s.flushes| && !s.flushes[i].Done? {
      if s.flushes[i].Merging? {
        e := MergeEnabled(s, i);
      } else {
        e := if s.flushes[i].AskingAll? then AskAll(i) else Climb(i);
      }
    } else {
      e := if s.runner.BeforeDrop? then RunnerDrop else RunnerLoop;
    }
  }

  ghost function SomeMove(s: Sys): (e: Step)
    requires Inv(s) && !Quiet(s)
    ensures e.OfWatch() && Enabled(s, e)
  {
    assert exists e: Step :: e.OfWatch() && Enabled(s, e) by { var e := NeverStuck(s); }
    var e: Step :| e.OfWatch() && Enabled(s, e);
    e
  }

  /** So a scheduler that works exists. */
  lemma SomeSchedulerWorks()
    ensures exists next: Scheduler :: Works(next)
  {
    var next: Scheduler := (n, s) => if Inv(s) && !Quiet(s) then SomeMove(s) else Accept;
    assert Works(next);
  }
}
