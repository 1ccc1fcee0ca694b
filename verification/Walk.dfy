/** The parallel walk that warms a cache: warmUp in pkg/driver/cache.go, every goroutine of it and
    the caller waiting for them, over a directory tree that stays as it is. */
module Walk {
  import opened Keys
  import opened Sums

  /** At most this many directories of one walk are listed at a time. */
  const WARM_PARALLEL := 8

  datatype Tree = Tree(readable: bool, entries: seq<Entry>)
  datatype Entry = File | Sub(dir: Tree)

  /** The readable directories of a tree that are reached through readable ones. */
  function Reached(t: Tree): nat {
    if t.readable then 1 + ReachedIn(t.entries) else 0
  }

  function ReachedIn(es: seq<Entry>): nat {
    if es == [] then 0 else ReachedAt(es[0]) + ReachedIn(es[1..])
  }

  function ReachedAt(e: Entry): nat {
    match e
    case File => 0
    case Sub(dir) => Reached(dir)
  }

  function ReachedFrom(roots: seq<Tree>): nat {
    if roots == [] then 0 else Reached(roots[0]) + ReachedFrom(roots[1..])
  }

  /** A goroutine: about to look at the context; waiting for the semaphore; listing; done listing, the
      semaphore given back; starting a walker for each subdirectory left; returned. */
  datatype Walker = Born(dir: Tree) | Waiting(dir: Tree) | Listing(dir: Tree) | Listed(dir: Tree)
                  | Spawning(left: seq<Entry>) | Returned

  datatype State = State(roots: seq<Tree>, walkers: seq<Walker>, sem: nat, wg: int, dirs: nat,
                         cancelled: bool, result: Option<nat>)

  datatype Step = Start | Look(i: nat) | Acquire(i: nat) | GiveUp(i: nat) | Release(i: nat) | Tally(i: nat) | Spawn(i: nat)
                | Wait | Cancel

  predicate At(s: State, i: nat) { i < |s.walkers| }

  predicate Enabled(s: State, e: Step) {
    match e
    case Start => s.roots != []
    case Look(i) => At(s, i) && s.walkers[i].Born?
    case Acquire(i) => At(s, i) && s.walkers[i].Waiting? && s.sem < WARM_PARALLEL
    case GiveUp(i) => At(s, i) && s.walkers[i].Waiting? && s.cancelled
    case Release(i) => At(s, i) && s.walkers[i].Listing? && s.sem > 0
    case Tally(i) => At(s, i) && s.walkers[i].Listed?
    case Spawn(i) => At(s, i) && s.walkers[i].Spawning?
    case Wait => s.roots == [] && s.wg == 0 && s.result.None?
    case Cancel => true
  }

  /** The goroutine returns, and its deferred wg.Done with it. */
  function Leave(s: State, i: nat): State
    requires At(s, i)
  {
    s.(walkers := s.walkers[i := Returned], wg := s.wg - 1)
  }

  function Apply(s: State, e: Step): State
    requires Enabled(s, e)
  {
    match e
    case Start => s.(roots := s.roots[1..], walkers := s.walkers + [Born(s.roots[0])], wg := s.wg + 1)
    case Wait => s.(result := Some(s.dirs))
    case Cancel => s.(cancelled := true)
    case _ => Move(s, e)
  }

  /** A step of walker e.i. */
  function Move(s: State, e: Step): State
    requires Enabled(s, e) && !e.Start? && !e.Wait? && !e.Cancel?
  {
    var w := s.walkers[e.i];
    match e
    case Look(i) => if s.cancelled then Leave(s, i) else s.(walkers := s.walkers[i := Waiting(w.dir)])
    case Acquire(i) => s.(walkers := s.walkers[i := Listing(w.dir)], sem := s.sem + 1)
    case GiveUp(i) => Leave(s, i)
    case Release(i) => s.(walkers := s.walkers[i := Listed(w.dir)], sem := s.sem - 1)
    case Tally(i) =>
      if w.dir.readable then s.(walkers := s.walkers[i := Spawning(w.dir.entries)], dirs := s.dirs + 1) else Leave(s, i)
    case Spawn(i) =>
      if w.left == [] || s.cancelled then Leave(s, i)
      else if w.left[0].Sub? then
        s.(walkers := s.walkers[i := Spawning(w.left[1..])] + [Born(w.left[0].dir)], wg := s.wg + 1)
      else s.(walkers := s.walkers[i := Spawning(w.left[1..])])
  }

  // ---- What every step keeps ----

  function Running(w: Walker): nat { if w.Returned? then 0 else 1 }
  function Holds(w: Walker): nat { if w.Listing? then 1 else 0 }

  /** The directories a walker, and those it will start, have yet to count. */
  function Ahead(w: Walker): nat {
    match w
    case Spawning(left) => ReachedIn(left)
    case Returned => 0
    case _ => Reached(w.dir)
  }

  /** The semaphore counts the listings and the WaitGroup the unfinished walkers. */
  predicate Inv(s: State) {
    && s.sem == Sum(s.walkers, Holds) && s.sem <= WARM_PARALLEL
    && s.wg == Sum(s.walkers, Running)
    && (s.result.Some? ==> s.roots == [] && s.wg == 0)
  }

  /** Nothing is counted twice; nothing is lost unless the context was cancelled. */
  predicate Accounted(s: State, total: nat) {
    var counted := s.dirs + Sum(s.walkers, Ahead) + ReachedFrom(s.roots);
    counted <= total && (!s.cancelled ==> counted == total)
  }

  lemma WgCounts(s: State, i: nat)
    requires Inv(s) && At(s, i) && !s.walkers[i].Returned?
    ensures s.wg > 0
  {
    SumAtLeast(s.walkers, i, Running);
  }

  function Init(roots: seq<Tree>): State {
    State(roots, [], 0, 0, 0, false, None)
  }

  lemma ChangeOne(s: State, i: nat, w: Walker)
    requires At(s, i)
    ensures var ws := s.walkers[i := w];
            && Sum(ws, Holds) + Holds(s.walkers[i]) == Sum(s.walkers, Holds) + Holds(w)
            && Sum(ws, Running) + Running(s.walkers[i]) == Sum(s.walkers, Running) + Running(w)
            && Sum(ws, Ahead) + Ahead(s.walkers[i]) == Sum(s.walkers, Ahead) + Ahead(w)
  {
    SumUpdate(s.walkers, i, w, Holds);
    SumUpdate(s.walkers, i, w, Running);
    SumUpdate(s.walkers, i, w, Ahead);
  }

  lemma AddOne(ws: seq<Walker>, w: Walker)
    ensures Sum(ws + [w], Holds) == Sum(ws, Holds) + Holds(w)
    ensures Sum(ws + [w], Running) == Sum(ws, Running) + Running(w)
    ensures Sum(ws + [w], Ahead) == Sum(ws, Ahead) + Ahead(w)
  {
    SumAppend(ws, w, Holds);
    SumAppend(ws, w, Running);
    SumAppend(ws, w, Ahead);
  }

  lemma StepKeepsInv(s: State, e: Step, total: nat)
    requires Inv(s) && Accounted(s, total) && Enabled(s, e)
    ensures Inv(Apply(s, e)) && Accounted(Apply(s, e), total)
  {
    if e.Start? {
      AddOne(s.walkers, Born(s.roots[0]));
    } else if !e.Wait? && !e.Cancel? {
      MoveKeepsInv(s, e, total);
    }
  }

  /** A walker's own step keeps the books if what it gives up it hands on. */
  lemma BecomesKeepsInv(s: State, s': State, i: nat, w: Walker, total: nat)
    requires Inv(s) && Accounted(s, total) && At(s, i) && s.result.None?
    requires s' == s.(walkers := s.walkers[i := w], sem := s'.sem, wg := s'.wg, dirs := s'.dirs)
    requires s'.sem + Holds(s.walkers[i]) == s.sem + Holds(w) && s'.sem <= WARM_PARALLEL
    requires s'.wg + Running(s.walkers[i]) == s.wg + Running(w)
    requires s'.dirs + Ahead(w) <= s.dirs + Ahead(s.walkers[i])
    requires !s.cancelled ==> s'.dirs + Ahead(w) == s.dirs + Ahead(s.walkers[i])
    ensures Inv(s') && Accounted(s', total)
  {
    ChangeOne(s, i, w);
  }

  lemma SpawnKeepsInv(s: State, i: nat, total: nat)
    requires Inv(s) && Accounted(s, total) && At(s, i) && s.result.None?
    requires s.walkers[i].Spawning? && s.walkers[i].left != [] && !s.cancelled && s.walkers[i].left[0].Sub?
    ensures Inv(Move(s, Spawn(i))) && Accounted(Move(s, Spawn(i)), total)
  {
    var left := s.walkers[i].left;
    ChangeOne(s, i, Spawning(left[1..]));
    AddOne(s.walkers[i := Spawning(left[1..])], Born(left[0].dir));
    assert ReachedIn(left) == Reached(left[0].dir) + ReachedIn(left[1..]);
  }

  lemma MoveKeepsInv(s: State, e: Step, total: nat)
    requires Inv(s) && Accounted(s, total) && Enabled(s, e) && !e.Start? && !e.Wait? && !e.Cancel?
    ensures Inv(Apply(s, e)) && Accounted(Apply(s, e), total)
  {
    WgCounts(s, e.i);
    var w, s' := s.walkers[e.i], Move(s, e);
    if e.Spawn? && w.left != [] && !s.cancelled && w.left[0].Sub? {
      SpawnKeepsInv(s, e.i, total);
    } else {
      if e.Spawn? && w.left != [] && !s.cancelled {
        assert ReachedIn(w.left) == ReachedIn(w.left[1..]);
      }
      BecomesKeepsInv(s, s', e.i, s'.walkers[e.i], total);
    }
  }

  ghost predicate IsRun(run: seq<State>, roots: seq<Tree>) {
    && run != [] && run[0] == Init(roots)
    && forall k | 0 <= k < |run| - 1 :: Next(run[k], run[k + 1])
  }

  ghost predicate Next(s: State, s': State) {
    exists e :: Enabled(s, e) && s' == Apply(s, e)
  }

  lemma {:induction false} EveryState(run: seq<State>, roots: seq<Tree>, n: nat)
    requires IsRun(run, roots) && n < |run|
    ensures Inv(run[n]) && Accounted(run[n], ReachedFrom(roots))
  {
    if n > 0 {
      EveryState(run, roots, n - 1);
      assert Next(run[n - 1], run[n - 1 + 1]);
      var e :| Enabled(run[n - 1], e) && run[n] == Apply(run[n - 1], e);
      StepKeepsInv(run[n - 1], e, ReachedFrom(roots));
    }
  }

  lemma {:induction false} NoneRunning(ws: seq<Walker>)
    requires Sum(ws, Running) == 0
    ensures Sum(ws, Ahead) == 0 && forall w | w in ws :: w.Returned?
  {
    forall i | 0 <= i < |ws| ensures ws[i].Returned? && Ahead(ws[i]) == 0 {
      SumAtLeast(ws, i, Running);
    }
    SumZero(ws, Ahead);
  }

  /** warmUp returns only once every walker has, and uncancelled it returns the number of readable
      directories reached through readable ones, once for each root they are under; cancelled, never
      more. At most WARM_PARALLEL listings ever run at a time. */
  lemma WalkCounts(run: seq<State>, roots: seq<Tree>, n: nat)
    requires IsRun(run, roots) && n + 1 < |run| && run[n].result.None? && run[n + 1].result.Some?
    ensures forall w | w in run[n + 1].walkers :: w.Returned?
    ensures run[n + 1].result.value <= ReachedFrom(roots)
    ensures !run[n].cancelled ==> run[n + 1].result.value == ReachedFrom(roots)
  {
    EveryState(run, roots, n);
    EveryState(run, roots, n + 1);
    assert Next(run[n], run[n + 1]);
    NoneRunning(run[n].walkers);
    NoneRunning(run[n + 1].walkers);
  }

  lemma ListingsAreBounded(run: seq<State>, roots: seq<Tree>, n: nat)
    requires IsRun(run, roots) && n < |run|
    ensures |set i | 0 <= i < |run[n].walkers| && run[n].walkers[i].Listing?| <= 8
  {
    EveryState(run, roots, n);
    var ws := run[n].walkers;
    var lists := (w: Walker) => w.Listing?;
    SumCounts(ws, Holds, lists);
    assert (set i | 0 <= i < |ws| && ws[i].Listing?) == Where(ws, lists);
  }

  /** Once the context is cancelled, a walker that has not looked at it lists nothing, and no walker starts
      another. */
  lemma CancelledWalkersLeave(s: State, e: Step, i: nat)
    requires s.cancelled && Enabled(s, e) && i < |s.walkers|
    ensures i < |Apply(s, e).walkers| && (e.Start? || |Apply(s, e).walkers| == |s.walkers|)
    ensures s.walkers[i].Born? ==> Apply(s, e).walkers[i] == s.walkers[i] || Apply(s, e).walkers[i].Returned?
  {}

  /** The context may be cancelled at any moment; a walker that waits for the semaphore may then give up. */
  lemma CancellingIsFree(s: State, i: nat)
    ensures Enabled(s, Cancel) && Apply(s, Cancel) == s.(cancelled := true)
    ensures Enabled(s, GiveUp(i)) <==> i < |s.walkers| && s.walkers[i].Waiting? && s.cancelled
  {}

  /** A run may start with any roots and go on with any step that is enabled. */
  lemma RunsGoOn(run: seq<State>, roots: seq<Tree>, e: Step)
    ensures IsRun([State(roots, [], 0, 0, 0, false, None)], roots)
    ensures IsRun(run, roots) && Enabled(run[|run| - 1], e) ==> IsRun(run + [Apply(run[|run| - 1], e)], roots)
  {
    if IsRun(run, roots) && Enabled(run[|run| - 1], e) {
      assert Next(run[|run| - 1], Apply(run[|run| - 1], e));
    }
  }

  // ---- What Reached counts ----

  /** path leads from t, through readable directories, to one that is readable: at each the position of the
      next among the entries. */
  predicate ReadableAt(t: Tree, path: seq<nat>) {
    t.readable && (path == [] || (path[0] < |t.entries| && t.entries[path[0]].Sub? && ReadableAt(t.entries[path[0]].dir, path[1..])))
  }

  /** All such paths. */
  ghost function Paths(t: Tree): set<seq<nat>> {
    if t.readable then {[]} + PathsIn(t.entries, 0) else {}
  }

  ghost function PathsIn(es: seq<Entry>, from: nat): set<seq<nat>> {
    if es == [] then {}
    else PathsAt(es[0], from) + PathsIn(es[1..], from + 1)
  }

  ghost function PathsAt(e: Entry, at: nat): set<seq<nat>> {
    match e
    case File => {}
    case Sub(dir) => set p | p in Paths(dir) :: [at] + p
  }

  lemma {:induction false} PathsAreReadable(t: Tree, path: seq<nat>)
    ensures path in Paths(t) <==> ReadableAt(t, path)
  {
    if t.readable {
      PathsInAreReadable(t.entries, 0, path);
    }
  }

  lemma {:induction false} PathsInAreReadable(es: seq<Entry>, from: nat, path: seq<nat>)
    ensures path in PathsIn(es, from) <==>
            path != [] && from <= path[0] < from + |es| && es[path[0] - from].Sub? && ReadableAt(es[path[0] - from].dir, path[1..])
  {
    if es != [] {
      PathsAtAreReadable(es[0], from, path);
      PathsInAreReadable(es[1..], from + 1, path);
    }
  }

  lemma {:induction false} PathsAtAreReadable(e: Entry, at: nat, path: seq<nat>)
    ensures path in PathsAt(e, at) <==> path != [] && path[0] == at && e.Sub? && ReadableAt(e.dir, path[1..])
  {
    match e
    case File =>
    case Sub(dir) =>
      if path != [] {
        PathsAreReadable(dir, path[1..]);
        assert path == [path[0]] + path[1..];
      }
      forall p | p in Paths(dir) && path == [at] + p ensures path[1..] == p {}
  }

  lemma {:induction false} ReachedCounts(t: Tree)
    ensures Reached(t) == |Paths(t)|
  {
    if t.readable {
      ReachedInCounts(t.entries, 0);
      PathsInAreReadable(t.entries, 0, []);
    }
  }

  lemma {:induction false} ReachedInCounts(es: seq<Entry>, from: nat)
    ensures ReachedIn(es) == |PathsIn(es, from)|
  {
    if es != [] {
      ReachedAtCounts(es[0], from);
      ReachedInCounts(es[1..], from + 1);
      forall p | p in PathsAt(es[0], from) ensures p !in PathsIn(es[1..], from + 1) {
        PathsAtAreReadable(es[0], from, p);
        PathsInAreReadable(es[1..], from + 1, p);
      }
    }
  }

  lemma {:induction false} ReachedAtCounts(e: Entry, at: nat)
    ensures ReachedAt(e) == |PathsAt(e, at)|
  {
    match e
    case File =>
    case Sub(dir) =>
      ReachedCounts(dir);
      PrefixKeepsCount(Paths(dir), at);
  }

  lemma {:induction false} PrefixKeepsCount(ps: set<seq<nat>>, at: nat)
    ensures |set p | p in ps :: [at] + p| == |ps|
  {
    if ps != {} {
      var q :| q in ps;
      PrefixKeepsCount(ps - {q}, at);
      assert (set p | p in ps :: [at] + p) == (set p | p in ps - {q} :: [at] + p) + {[at] + q};
      forall p | p in ps - {q} ensures [at] + p != [at] + q {
        assert ([at] + p)[1..] == p && ([at] + q)[1..] == q;
      }
    }
  }

  /** What warmUp counts below a root is the number of places from there, through readable directories, at
      which a readable directory lies. */
  lemma ReachedIsTheNumber(t: Tree)
    ensures exists places: set<seq<nat>> :: (forall p :: p in places <==> ReadableAt(t, p)) && Reached(t) == |places|
  {
    ReachedCounts(t);
    forall p ensures p in Paths(t) <==> ReadableAt(t, p) {
      PathsAreReadable(t, p);
    }
  }

  // ---- The walk ends ----

  /** The steps a walker, and those it will start, can still make. */
  function Steps(w: Walker): nat {
    match w
    case Born(d) => StepsOf(d)
    case Waiting(d) => 4 + StepsIn(d.entries)
    case Listing(d) => 3 + StepsIn(d.entries)
    case Listed(d) => 2 + StepsIn(d.entries)
    case Spawning(left) => 1 + StepsIn(left)
    case Returned => 0
  }

  function StepsOf(t: Tree): nat { 5 + StepsIn(t.entries) }

  function StepsIn(es: seq<Entry>): nat {
    if es == [] then 0 else StepsAt(es[0]) + StepsIn(es[1..])
  }

  function StepsAt(e: Entry): nat {
    match e
    case File => 1
    case Sub(dir) => 1 + StepsOf(dir)
  }

  function StepsFrom(roots: seq<Tree>): nat {
    if roots == [] then 0 else 1 + StepsOf(roots[0]) + StepsFrom(roots[1..])
  }

  function Left(s: State): nat {
    Sum(s.walkers, Steps) + StepsFrom(s.roots) + if s.result.None? then 1 else 0
  }

  lemma SpawnUsesUp(s: State, i: nat)
    requires At(s, i)
    requires s.walkers[i].Spawning? && s.walkers[i].left != [] && !s.cancelled && s.walkers[i].left[0].Sub?
    ensures Left(Move(s, Spawn(i))) < Left(s)
  {
    var left := s.walkers[i].left;
    SumUpdate(s.walkers, i, Spawning(left[1..]), Steps);
    SumAppend(s.walkers[i := Spawning(left[1..])], Born(left[0].dir), Steps);
    assert StepsIn(left) == StepsAt(left[0]) + StepsIn(left[1..]);
  }

  lemma StepUsesUp(s: State, e: Step)
    requires Inv(s) && Enabled(s, e) && !e.Cancel?
    ensures Left(Apply(s, e)) < Left(s)
  {
    if e.Start? {
      SumAppend(s.walkers, Born(s.roots[0]), Steps);
    } else if !e.Wait? {
      WgCounts(s, e.i);
      var w, s' := s.walkers[e.i], Move(s, e);
      if e.Spawn? && w.left != [] && !s.cancelled && w.left[0].Sub? {
        SpawnUsesUp(s, e.i);
      } else {
        var w' := s'.walkers[e.i];
        SumUpdate(s.walkers, e.i, w', Steps);
        assert s'.walkers == s.walkers[e.i := w'];
        StepsGoDown(s, e, w');
      }
    }
  }

  lemma StepsGoDown(s: State, e: Step, w': Walker)
    requires Enabled(s, e) && !e.Start? && !e.Wait? && !e.Cancel? && w' == Move(s, e).walkers[e.i]
    ensures Steps(w') < Steps(s.walkers[e.i])
  {
    var w := s.walkers[e.i];
    if e.Spawn? && w.left != [] {
      assert StepsIn(w.left) == StepsAt(w.left[0]) + StepsIn(w.left[1..]);
    }
  }

  lemma {:induction false} SomeoneRuns(ws: seq<Walker>) returns (i: nat)
    requires Sum(ws, Running) > 0
    ensures i < |ws| && !ws[i].Returned?
  {
    i := |ws| - 1;
    if ws[i].Returned? {
      i := SomeoneRuns(ws[..i]);
    }
  }

  lemma {:induction false} SomeoneLists(ws: seq<Walker>) returns (i: nat)
    requires Sum(ws, Holds) > 0
    ensures i < |ws| && ws[i].Listing?
  {
    i := |ws| - 1;
    if !ws[i].Listing? {
      i := SomeoneLists(ws[..i]);
    }
  }

  /** Until warmUp returns, some goroutine can always move: no schedule deadlocks on the semaphore. */
  lemma NeverStuck(s: State) returns (e: Step)
    requires Inv(s) && s.result.None?
    ensures Enabled(s, e) && !e.Cancel?
  {
    if s.roots != [] {
      e := Start;
    } else if s.wg == 0 {
      e := Wait;
    } else if s.sem == WARM_PARALLEL {
      var i := SomeoneLists(s.walkers);
      e := Release(i);
    } else {
      var i := SomeoneRuns(s.walkers);
      match s.walkers[i]
      case Born(_) => e := Look(i);
      case Waiting(_) => e := Acquire(i);
      case Listing(_) => SumAtLeast(s.walkers, i, Holds); e := Release(i);
      case Listed(_) => e := Tally(i);
      case Spawning(_) => e := Spawn(i);
    }
  }
}
