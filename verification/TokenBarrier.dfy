/** removeObjectsOneByOne in pkg/s3/client.go: a lister, sixteen removals at a time, and the semaphore
    that becomes the barrier at the end -- every goroutine of it, in any order. */
module TokenBarrier {
  import opened Keys
  import opened Sums

  /** The capacity of both channels. */
  const PARALLELISM := 16

  type Object = string

  /** A goroutine that removes one object: trying, having failed, about to give its token back, or
      returned. */
  datatype Worker = Removing(obj: Object) | Failed(obj: Object) | Leaving(obj: Object, removed: bool) | Gone(obj: Object, removed: bool)

  /** The caller: about to look at the listing error, returned with it, taking objects, holding one
      until there is room for a token, filling the semaphore, draining it, done. */
  datatype Phase = Looking | ListingFailed | Receiving | Holding(obj: Object) | Filling(filled: nat)
                 | Draining(drained: nat) | Done(ok: bool)

  /** The lister: at work, at the end of the listing, or stopped by an object that carries an error. */
  datatype Lister = Listing | Ended | Stopped

  /** failsAt is how many objects the listing gives before it gives an error, if it does. */
  datatype State = State(unlisted: seq<Object>, failsAt: Option<nat>, lister: Lister, queue: seq<Object>, tokens: nat,
                         workers: seq<Worker>, errors: nat, phase: Phase, removed: set<Object>, delivered: seq<Object>)

  datatype Step = List | EndListing | FailListing | Look | Receive | Spawn | Try(i: nat, ok: bool) | CountError(i: nat) | Release(i: nat)
                | NoMore | Fill | Full | Drain | Return

  predicate At(s: State, i: nat) { i < |s.workers| }

  predicate Enabled(s: State, e: Step) {
    match e
    case List => s.lister.Listing? && s.failsAt != Some(|s.delivered|) && s.unlisted != [] && |s.queue| < PARALLELISM
    case EndListing => s.lister.Listing? && s.failsAt != Some(|s.delivered|) && s.unlisted == []
    case FailListing => s.lister.Listing? && s.failsAt == Some(|s.delivered|)
    case Look => s.phase.Looking?
    case Receive => s.phase.Receiving? && s.queue != []
    case Spawn => s.phase.Holding? && s.tokens < PARALLELISM
    case Try(i, _) => At(s, i) && s.workers[i].Removing?
    case CountError(i) => At(s, i) && s.workers[i].Failed?
    case Release(i) => At(s, i) && s.workers[i].Leaving? && s.tokens > 0
    case NoMore => s.phase.Receiving? && !s.lister.Listing? && s.queue == []
    case Fill => s.phase.Filling? && s.phase.filled < PARALLELISM && s.tokens < PARALLELISM
    case Full => s.phase.Filling? && s.phase.filled == PARALLELISM
    case Drain => s.phase.Draining? && s.phase.drained < PARALLELISM && s.tokens > 0
    case Return => s.phase.Draining? && s.phase.drained == PARALLELISM
  }

  function Apply(s: State, e: Step): State
    requires Enabled(s, e)
  {
    match e
    case List => s.(unlisted := s.unlisted[1..], queue := s.queue + [s.unlisted[0]], delivered := s.delivered + [s.unlisted[0]])
    case EndListing => s.(lister := Ended)
    case FailListing => s.(lister := Stopped)
    case Look => s.(phase := if s.lister.Stopped? then ListingFailed else Receiving)
    case Receive => s.(queue := s.queue[1..], phase := Holding(s.queue[0]))
    case Spawn => s.(tokens := s.tokens + 1, workers := s.workers + [Removing(s.phase.obj)], phase := Receiving)
    case Try(i, ok) =>
      var obj := s.workers[i].obj;
      if ok then s.(workers := s.workers[i := Leaving(obj, true)], removed := s.removed + {obj})
      else s.(workers := s.workers[i := Failed(obj)])
    case CountError(i) => s.(workers := s.workers[i := Leaving(s.workers[i].obj, false)], errors := s.errors + 1)
    case Release(i) => s.(workers := s.workers[i := Gone(s.workers[i].obj, s.workers[i].removed)], tokens := s.tokens - 1)
    case NoMore => s.(phase := Filling(0))
    case Fill => s.(tokens := s.tokens + 1, phase := Filling(s.phase.filled + 1))
    case Full => s.(phase := Draining(0))
    case Drain => s.(tokens := s.tokens - 1, phase := Draining(s.phase.drained + 1))
    case Return => s.(phase := Done(s.errors == 0))
  }

  function Init(objects: seq<Object>, failsAt: Option<nat>): State {
    State(objects, failsAt, Listing, [], 0, [], 0, Looking, {}, [])
  }

  ghost predicate Next(s: State, s': State) {
    exists e :: Enabled(s, e) && s' == Apply(s, e)
  }

  ghost predicate IsRun(run: seq<State>, objects: seq<Object>, failsAt: Option<nat>) {
    && run != [] && run[0] == Init(objects, failsAt)
    && forall k | 0 <= k < |run| - 1 :: Next(run[k], run[k + 1])
  }

  // ---- What every step keeps ----

  function Running(w: Worker): nat { if w.Gone? then 0 else 1 }
  function Counted(w: Worker): nat { if (w.Leaving? || w.Gone?) && !w.removed then 1 else 0 }

  /** The tokens the caller holds as the barrier. */
  function BarrierTokens(p: Phase): int {
    match p
    case Filling(filled) => filled
    case Draining(drained) => PARALLELISM - drained
    case _ => 0
  }

  function Tried(ws: seq<Worker>): seq<Object> {
    seq(|ws|, i requires 0 <= i < |ws| => ws[i].obj)
  }

  function InHand(p: Phase): seq<Object> {
    if p.Holding? then [p.obj] else []
  }

  /** Every token is a running worker's or the barrier's, and after the fill no worker runs. */
  predicate TokensAgree(s: State) {
    && s.tokens == Sum(s.workers, Running) + BarrierTokens(s.phase) && s.tokens <= PARALLELISM
    && (s.phase.Filling? ==> s.phase.filled <= PARALLELISM)
    && (s.phase.Draining? ==> s.phase.drained <= PARALLELISM)
    && (s.phase.Draining? || s.phase.Done? ==> Sum(s.workers, Running) == 0)
  }

  /** Each delivered object has one worker, or is in hand, or waits -- in the order of delivery. */
  predicate OrderKept(s: State) {
    && Tried(s.workers) + InHand(s.phase) + s.queue == s.delivered
    && (s.phase.Filling? || s.phase.Draining? || s.phase.Done? ==> !s.lister.Listing? && s.queue == [])
  }

  /** The errors are the failures counted so far, and the caller answers by them. */
  predicate ErrorsAgree(s: State) {
    && s.errors == Sum(s.workers, Counted)
    && (s.phase.Done? ==> s.phase.ok == (s.errors == 0))
  }

  /** What a worker reports removed is removed, and nothing but delivered objects is. */
  ghost predicate RemovedAgree(s: State) {
    && (forall i | 0 <= i < |s.workers| :: ReportsRemoved(s.workers[i]) ==> s.workers[i].obj in s.removed)
    && (forall o | o in s.removed :: RemovedBy(s.workers, o))
  }

  ghost predicate RemovedBy(ws: seq<Worker>, o: Object) {
    exists i :: 0 <= i < |ws| && ReportsRemoved(ws[i]) && ws[i].obj == o
  }

  /** The lister stops at the error, or at the end of the listing. */
  predicate ListerAgrees(s: State) {
    && (s.failsAt.Some? ==> |s.delivered| <= s.failsAt.value)
    && (s.lister.Stopped? ==> s.failsAt == Some(|s.delivered|))
    && (s.lister.Ended? ==> s.unlisted == [] && s.failsAt != Some(|s.delivered|))
  }

  predicate ReportsRemoved(w: Worker) { (w.Leaving? || w.Gone?) && w.removed }

  ghost predicate Inv(s: State) {
    TokensAgree(s) && OrderKept(s) && ErrorsAgree(s) && RemovedAgree(s) && ListerAgrees(s)
  }

  lemma ChangeWorker(s: State, i: nat, w: Worker)
    requires At(s, i) && w.obj == s.workers[i].obj
    ensures var ws := s.workers[i := w];
            && Sum(ws, Running) + Running(s.workers[i]) == Sum(s.workers, Running) + Running(w)
            && Sum(ws, Counted) + Counted(s.workers[i]) == Sum(s.workers, Counted) + Counted(w)
            && Tried(ws) == Tried(s.workers)
  {
    SumUpdate(s.workers, i, w, Running);
    SumUpdate(s.workers, i, w, Counted);
    assert Tried(s.workers[i := w]) == Tried(s.workers);
  }

  /** A worker's step keeps the books if tokens, errors and removals follow it. */
  lemma WorkerStep(s: State, s': State, i: nat, w: Worker)
    requires Inv(s) && At(s, i) && w.obj == s.workers[i].obj
    requires s' == s.(workers := s.workers[i := w], tokens := s'.tokens, errors := s'.errors, removed := s'.removed)
    requires s'.tokens + Running(s.workers[i]) == s.tokens + Running(w) && Running(w) <= Running(s.workers[i])
    requires s'.errors + Counted(s.workers[i]) == s.errors + Counted(w)
    requires s.phase.Done? ==> s'.errors == s.errors
    requires s'.removed == s.removed || (s'.removed == s.removed + {w.obj} && ReportsRemoved(w))
    requires ReportsRemoved(s.workers[i]) ==> ReportsRemoved(w)
    requires ReportsRemoved(w) ==> w.obj in s'.removed
    ensures Inv(s')
  {
    ChangeWorker(s, i, w);
    forall o | RemovedBy(s.workers, o) ensures RemovedBy(s'.workers, o) {
      var k :| 0 <= k < |s.workers| && ReportsRemoved(s.workers[k]) && s.workers[k].obj == o;
      assert ReportsRemoved(s'.workers[k]) && s'.workers[k].obj == o;
    }
    if ReportsRemoved(w) {
      assert s'.workers[i] == w;
    }
  }

  lemma WorkerStepKeepsInv(s: State, e: Step)
    requires Inv(s) && Enabled(s, e) && (e.Try? || e.CountError? || e.Release?)
    ensures Inv(Apply(s, e))
  {
    SumAtLeast(s.workers, e.i, Running);
    WorkerStep(s, Apply(s, e), e.i, Apply(s, e).workers[e.i]);
  }

  /** The order of the delivered objects survives each hand they pass through. */
  lemma QueueStepKeepsOrder(s: State, e: Step)
    requires OrderKept(s) && Enabled(s, e) && (e.List? || e.Receive? || e.Spawn?)
    ensures OrderKept(Apply(s, e))
  {
    var s', before := Apply(s, e), Tried(s.workers);
    if e.List? {
      assert before + InHand(s.phase) + s'.queue == before + InHand(s.phase) + s.queue + [s.unlisted[0]];
    } else if e.Receive? {
      assert s.queue == [s.queue[0]] + s.queue[1..];
      assert before + [s.queue[0]] + s.queue[1..] == before + [] + s.queue;
    } else {
      assert Tried(s'.workers) == before + [s.phase.obj];
      assert before + [s.phase.obj] + [] + s.queue == before + [s.phase.obj] + s.queue;
    }
  }

  lemma OneWorkerMore(ws: seq<Worker>, w: Worker)
    ensures forall o | RemovedBy(ws, o) :: RemovedBy(ws + [w], o)
  {
    forall o | RemovedBy(ws, o) ensures RemovedBy(ws + [w], o) {
      var k :| 0 <= k < |ws| && ReportsRemoved(ws[k]) && ws[k].obj == o;
      assert (ws + [w])[k] == ws[k];
    }
  }

  lemma QueueStepKeepsInv(s: State, e: Step)
    requires Inv(s) && Enabled(s, e) && (e.List? || e.Receive? || e.Spawn?)
    ensures Inv(Apply(s, e))
  {
    QueueStepKeepsOrder(s, e);
    if e.Spawn? {
      OneWorkerMore(s.workers, Removing(s.phase.obj));
      SumAppend(s.workers, Removing(s.phase.obj), Running);
      SumAppend(s.workers, Removing(s.phase.obj), Counted);
    }
  }

  lemma PhaseStepKeepsInv(s: State, e: Step)
    requires Inv(s) && Enabled(s, e)
    requires e.EndListing? || e.FailListing? || e.Look? || e.NoMore? || e.Fill? || e.Full? || e.Drain? || e.Return?
    ensures Inv(Apply(s, e))
  {
    assert InHand(Apply(s, e).phase) == InHand(s.phase);
  }

  lemma StepKeepsInv(s: State, e: Step)
    requires Inv(s) && Enabled(s, e)
    ensures Inv(Apply(s, e))
  {
    if e.Try? || e.CountError? || e.Release? {
      WorkerStepKeepsInv(s, e);
    } else if e.List? || e.Receive? || e.Spawn? {
      QueueStepKeepsInv(s, e);
    } else {
      PhaseStepKeepsInv(s, e);
    }
  }

  lemma StepKeepsObjects(s: State, e: Step)
    requires Enabled(s, e)
    ensures Apply(s, e).delivered + Apply(s, e).unlisted == s.delivered + s.unlisted
    ensures Apply(s, e).failsAt == s.failsAt
  {}

  lemma {:induction false} EveryState(run: seq<State>, objects: seq<Object>, failsAt: Option<nat>, n: nat)
    requires IsRun(run, objects, failsAt) && n < |run|
    ensures Inv(run[n])
    ensures run[n].delivered + run[n].unlisted == objects && run[n].failsAt == failsAt
  {
    if n == 0 {
      assert Tried([]) == [];
      assert [] + objects == objects;
    } else {
      EveryState(run, objects, failsAt, n - 1);
      assert Next(run[n - 1], run[n - 1 + 1]);
      var e :| Enabled(run[n - 1], e) && run[n] == Apply(run[n - 1], e);
      StepKeepsInv(run[n - 1], e);
      StepKeepsObjects(run[n - 1], e);
    }
  }

  /** The barrier: when the call returns, no removal runs, each delivered object was tried exactly
      once and in the order it came, the answer is the error count's, and without an error every
      delivered object -- and no other -- is removed. */
  lemma BarrierHolds(run: seq<State>, objects: seq<Object>, failsAt: Option<nat>, n: nat)
    requires IsRun(run, objects, failsAt) && n < |run| && run[n].phase.Done?
    ensures var s := run[n];
            && (forall w | w in s.workers :: w.Gone?)
            && Tried(s.workers) == s.delivered
            && (s.phase.ok <==> forall w | w in s.workers :: w.removed)
            && s.removed == (set w | w in s.workers && w.removed :: w.obj)
            && (s.phase.ok ==> s.removed == set o | o in s.delivered)
  {
    EveryState(run, objects, failsAt, n);
    var s := run[n];
    forall i | 0 <= i < |s.workers| ensures s.workers[i].Gone? && Counted(s.workers[i]) <= s.errors {
      SumAtLeast(s.workers, i, Running);
      SumAtLeast(s.workers, i, Counted);
    }
    if forall w | w in s.workers :: w.removed {
      forall i | 0 <= i < |s.workers| ensures Counted(s.workers[i]) == 0 {
        assert s.workers[i] in s.workers;
      }
      SumZero(s.workers, Counted);
    }
    forall o | o in s.removed ensures exists w | w in s.workers :: w.removed && w.obj == o {
      assert RemovedBy(s.workers, o);
    }
    forall w | w in s.workers && w.removed ensures w.obj in s.removed && w.obj in s.delivered {
      var i :| 0 <= i < |s.workers| && s.workers[i] == w;
      assert ReportsRemoved(s.workers[i]) && Tried(s.workers)[i] == w.obj;
    }
    if s.phase.ok {
      forall o | o in s.delivered ensures o in s.removed {
        var i :| 0 <= i < |s.delivered| && s.delivered[i] == o;
        assert Tried(s.workers)[i] == s.workers[i].obj == o;
        assert s.workers[i] in s.workers;
      }
    }
  }

  /** Any removal may succeed or fail, and the listing gives its error where failsAt says, at its end too. */
  lemma FailuresAreFree(s: State, i: nat)
    ensures forall ok :: Enabled(s, Try(i, ok)) <==> i < |s.workers| && s.workers[i].Removing?
    ensures Enabled(s, FailListing) <==> s.lister.Listing? && s.failsAt == Some(|s.delivered|)
    ensures IsRun([Init(s.unlisted, s.failsAt)], s.unlisted, s.failsAt) && Init(s.unlisted, s.failsAt).unlisted == s.unlisted
  {}

  /** No more than sixteen removals ever run at a time. */
  lemma RemovalsAreBounded(run: seq<State>, objects: seq<Object>, failsAt: Option<nat>, n: nat)
    requires IsRun(run, objects, failsAt) && n < |run|
    ensures |set i | 0 <= i < |run[n].workers| && !run[n].workers[i].Gone?| <= 16
  {
    EveryState(run, objects, failsAt, n);
    var ws := run[n].workers;
    var runs := (w: Worker) => !w.Gone?;
    SumCounts(ws, Running, runs);
    assert (set i | 0 <= i < |ws| && !ws[i].Gone?) == Where(ws, runs);
  }

  /** The call answers with the listing's error exactly when the lister had met it at the caller's look: from
      such a moment on it never takes an object, and it answers so in no other case. */
  lemma {:induction false} LookDecides(run: seq<State>, objects: seq<Object>, failsAt: Option<nat>, m: nat, n: nat)
    requires IsRun(run, objects, failsAt) && m <= n < |run| && run[m].phase.Looking?
    ensures run[m].lister.Stopped? ==> !Takes(run[n])
    ensures !Takes(run[n]) ==> run[n].workers == [] && run[n].removed == {}
    ensures run[n].phase.ListingFailed? ==> run[n].lister.Stopped?
  {
    if m < n {
      LookDecides(run, objects, failsAt, m, n - 1);
      assert Next(run[n - 1], run[n - 1 + 1]);
      if run[m].lister.Stopped? {
        StoppedStays(run, objects, failsAt, m, n - 1);
      }
      LookStep(run[n - 1], run[n]);
    } else {
      StartsWithoutWorkers(run, objects, failsAt, m);
    }
  }

  /** The call has gone past its look and takes objects. */
  predicate Takes(s: State) { !s.phase.Looking? && !s.phase.ListingFailed? }

  lemma LookStep(s: State, s': State)
    requires Next(s, s')
    ensures s.lister.Stopped? && !Takes(s) ==> !Takes(s')
    ensures !Takes(s') && s.workers == [] && s.removed == {} ==> s'.workers == [] && s'.removed == {}
    ensures !Takes(s') ==> !Takes(s)
    ensures s'.phase.ListingFailed? ==> s'.lister.Stopped? || s.phase.ListingFailed?
    ensures s.lister.Stopped? ==> s'.lister.Stopped?
  {}

  lemma {:induction false} StoppedStays(run: seq<State>, objects: seq<Object>, failsAt: Option<nat>, m: nat, n: nat)
    requires IsRun(run, objects, failsAt) && m <= n < |run| && run[m].lister.Stopped?
    ensures run[n].lister.Stopped?
  {
    if m < n {
      StoppedStays(run, objects, failsAt, m, n - 1);
      assert Next(run[n - 1], run[n - 1 + 1]);
    }
  }

  lemma {:induction false} StartsWithoutWorkers(run: seq<State>, objects: seq<Object>, failsAt: Option<nat>, n: nat)
    requires IsRun(run, objects, failsAt) && n < |run| && run[n].phase.Looking?
    ensures run[n].workers == [] && run[n].removed == {}
  {
    if n > 0 {
      assert Next(run[n - 1], run[n - 1 + 1]);
      StartsWithoutWorkers(run, objects, failsAt, n - 1);
    }
  }

  /** A nil answer means an emptied bucket exactly when the listing gives no error before its last
      object: the error is looked at when the lister has hardly begun, so a later one is not noticed. */
  lemma NilMeansEmptiedIff(run: seq<State>, objects: seq<Object>, failsAt: Option<nat>, n: nat)
    requires IsRun(run, objects, failsAt) && n < |run| && run[n].phase == Done(true)
    requires forall i, j | 0 <= i < j < |objects| :: objects[i] != objects[j]
    ensures (forall o | o in objects :: o in run[n].removed) <==> failsAt.None? || failsAt.value >= |objects|
  {
    EveryState(run, objects, failsAt, n);
    BarrierHolds(run, objects, failsAt, n);
    var s := run[n];
    assert objects == s.delivered + s.unlisted;
    if s.unlisted != [] {
      var k := |s.delivered|;
      assert objects[k] == s.unlisted[0];
      assert forall i | 0 <= i < k :: objects[i] == s.delivered[i];
      assert objects[k] !in s.delivered && objects[k] !in s.removed;
    }
  }

  lemma Extend(run: seq<State>, objects: seq<Object>, failsAt: Option<nat>, e: Step) returns (longer: seq<State>)
    requires IsRun(run, objects, failsAt) && Enabled(run[|run| - 1], e)
    ensures IsRun(longer, objects, failsAt) && longer[|longer| - 1] == Apply(run[|run| - 1], e)
  {
    longer := run + [Apply(run[|run| - 1], e)];
    assert Next(run[|run| - 1], Apply(run[|run| - 1], e));
  }

  /** Such a run: the listing of a bucket with one object fails after the caller's look, and the call
      answers nil with the object still there. */
  lemma NilWithObjectsLeft() returns (run: seq<State>)
    ensures IsRun(run, ["a"], Some(0)) && run[|run| - 1].phase == Done(true) && run[|run| - 1].removed == {}
  {
    run := [Init(["a"], Some(0))];
    run := Extend(run, ["a"], Some(0), Look);
    run := Extend(run, ["a"], Some(0), FailListing);
    run := Extend(run, ["a"], Some(0), NoMore);
    var stopped := run[|run| - 1];
    for k := 0 to PARALLELISM
      invariant IsRun(run, ["a"], Some(0)) && run[|run| - 1] == stopped.(phase := Filling(k), tokens := k)
    {
      run := Extend(run, ["a"], Some(0), Fill);
    }
    run := Extend(run, ["a"], Some(0), Full);
    for k := 0 to PARALLELISM
      invariant IsRun(run, ["a"], Some(0)) && run[|run| - 1] == stopped.(phase := Draining(k), tokens := PARALLELISM - k)
    {
      run := Extend(run, ["a"], Some(0), Drain);
    }
    run := Extend(run, ["a"], Some(0), Return);
  }

  /** Until the call returns, some goroutine can move: the semaphore never deadlocks. */
  lemma NeverStuck(s: State) returns (e: Step)
    requires Inv(s) && !s.phase.Done? && !s.phase.ListingFailed?
    ensures Enabled(s, e)
  {
    if i :| 0 <= i < |s.workers| && !s.workers[i].Gone? {
      SumAtLeast(s.workers, i, Running);
      e := if s.workers[i].Removing? then Try(i, true) else if s.workers[i].Failed? then CountError(i) else Release(i);
    } else {
      SumZero(s.workers, Running);
      match s.phase
      case Looking => e := Look;
      case Receiving =>
        e := if s.queue != [] then Receive
             else if !s.lister.Listing? then NoMore
             else if s.failsAt == Some(|s.delivered|) then FailListing
             else if s.unlisted != [] then List
             else EndListing;
      case Holding(_) => e := Spawn;
      case Filling(filled) => e := if filled < PARALLELISM then Fill else Full;
      case Draining(drained) => e := if drained < PARALLELISM then Drain else Return;
    }
  }
}
