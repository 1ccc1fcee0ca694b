/** The metadata-cache coherence protocol of one watched volume (pkg/driver/watch.go,
    pkg/driver/cache.go), as a transition system: one step for each section under the watch's lock,
    each call that drops cache, and each move of the bucket, the cache and the event stream. */
module Coherence {
  import opened Keys

  /** With more merged targets than this a flush asks for a whole drop. */
  const MAX_DIRS := 64

  // ---- The bucket and what the mount remembers of it ----

  datatype Entry = File(name: string) | Dir(name: string)

  function EntryOf(key: Key, d: Path): Entry
    requires d < key.path
  {
    if |d| + 1 == |key.path| && !key.marker then File(key.path[|d|]) else Dir(key.path[|d|])
  }

  /** What a directory lists when it is read from the bucket. */
  function Listing(bucket: set<Key>, d: Path): set<Entry> {
    set key | key in bucket && d < key.path :: EntryOf(key, d)
  }

  ghost predicate DirExists(bucket: set<Key>, p: Path) {
    p == [] || exists key :: key in bucket && (p < key.path || (key.marker && p == key.path))
  }

  /** Cached listings; a directory without one is read when it is next used. */
  type Cache = map<Path, set<Entry>>

  /** The cached listings on the way to p all show the next segment. */
  predicate Visible(cache: Cache, p: Path) {
    forall i | 0 <= i < |p| :: p[..i] in cache ==> Dir(p[i]) in cache[p[..i]]
  }

  /** invalidate(p) finds p: in the cached view and in the bucket. Otherwise it answers ENOENT. */
  ghost predicate Found(cache: Cache, bucket: set<Key>, p: Path) {
    p == [] || (Visible(cache, p) && DirExists(bucket, p))
  }

  /** invalidate(p) drops the listings of p's subtree. */
  function Drop(cache: Cache, p: Path): Cache {
    map d | d in cache && !(p <= d) :: cache[d]
  }

  // ---- The watch ----

  /** The fields of a watch that its lock guards, and the sections under it. */
  datatype Lock = Lock(pending: set<Path>, flushing: bool, dropping: bool, dropAgain: bool) {
    function Changed(d: Option<Path>): Lock {
      if d.None? then this else this.(pending := pending + {d.value}, flushing := true)
    }
    function Taken(): Lock { this.(pending := {}, flushing := false) }
    function DropAll(): Lock { if dropping then this.(dropAgain := true) else this.(dropping := true) }
    function RunnerNext(): Lock { this.(dropAgain := false, dropping := dropAgain) }
  }

  /** A running flush: it took a burst; it drops what is left to do, the head perhaps already
      climbed; or it is about to ask for a whole drop. */
  datatype Flush = Merging(dirs: set<Path>) | Dropping(todo: seq<Path>) | AskingAll | Done

  /** The goroutine that drops the whole cache: before its invalidate, after it, or not there. */
  datatype Runner = Idle | BeforeDrop | AfterDrop

  /** The event stream: down, taken by the server but not yet reported as connected, or heard.
      The server queues the changes made since it took the request. */
  datatype Stream = Down | Accepted(events: seq<Key>) | Heard(events: seq<Key>)

  datatype Sys = Sys(bucket: set<Key>, cache: Cache, stream: Stream, ended: bool,
                     lock: Lock, flushes: seq<Flush>, runner: Runner,
                     history: History)

  /** Whole drops asked and begun, and whether one began after the last was asked. */
  datatype History = History(asked: nat, begun: nat, served: bool)

  datatype Step =
    // the environment
    | Put(key: Key) | Remove(key: Key) | Fill(dir: Path) | Evict(dirs: set<Path>)
    | Accept | Connect | Break | End | DeafDrop
    // the watch
    | Deliver | Take | Merge(flush: nat, targets: seq<Path>) | AskAll(flush: nat) | Climb(flush: nat)
    | RunnerDrop | RunnerLoop
  {
    predicate OfWatch() {
      Deliver? || Take? || Merge? || AskAll? || Climb? || RunnerDrop? || RunnerLoop?
    }
  }

  /** What a flush does with its burst: merged into targets that contain every directory of it,
      it drops them one by one, or the whole cache for too many or for the root. */
  function Plan(targets: seq<Path>): Flush {
    if |targets| > MAX_DIRS || targets == [[]] then AskingAll else Dropping(targets)
  }

  /** A flush asks for a whole drop for more than 64 targets, or for the root alone, and only then; otherwise
      it drops its targets, all of them, in their order. */
  lemma PlanIs(targets: seq<Path>)
    ensures Plan(targets) == AskingAll <==> |targets| > 64 || targets == [[]]
    ensures Plan(targets) != AskingAll ==> Plan(targets) == Dropping(targets)
  {}

  ghost predicate CoversBurst(targets: seq<Path>, dirs: set<Path>) {
    && (forall t | t in targets :: t in dirs)
    && (forall d {:trigger Reaches(targets, d)} | d in dirs :: Reaches(targets, d))
  }

  ghost predicate Reaches(targets: seq<Path>, d: Path) {
    exists t :: t in targets && t <= d
  }

  function Publish(stream: Stream, key: Key): Stream {
    match stream
    case Down => Down
    case Accepted(events) => Accepted(events + [key])
    case Heard(events) => Heard(events + [key])
  }

  /** dropAll's section under the lock, starting the runner if none runs. */
  ghost function AskDropAll(s: Sys): Sys {
    s.(lock := s.lock.DropAll(),
       runner := if s.lock.dropping then s.runner else BeforeDrop,
       history := History(s.history.asked + 1, s.history.begun, false))
  }

  ghost predicate Enabled(s: Sys, e: Step) {
    match e
    case Put(_) => true
    case Remove(key) => key in s.bucket
    case Fill(_) => true
    case Evict(_) => true
    case Accept => s.stream.Down? && !s.ended
    case Connect => s.stream.Accepted?
    case Break => true
    case End => true
    case DeafDrop => !s.stream.Heard?
    case Deliver => s.stream.Heard? && s.stream.events != []
    case Take => s.lock.flushing
    case Merge(i, targets) => i < |s.flushes| && s.flushes[i].Merging? && CoversBurst(targets, s.flushes[i].dirs)
    case AskAll(i) => i < |s.flushes| && s.flushes[i].AskingAll?
    case Climb(i) => i < |s.flushes| && s.flushes[i].Dropping? && s.flushes[i].todo != []
    case RunnerDrop => s.runner.BeforeDrop?
    case RunnerLoop => s.runner.AfterDrop?
  }

  ghost function Apply(s: Sys, e: Step): Sys
    requires Enabled(s, e)
  {
    match e
    case Put(key) => s.(bucket := s.bucket + {key}, stream := Publish(s.stream, key))
    case Remove(key) => s.(bucket := s.bucket - {key}, stream := Publish(s.stream, key))
    case Fill(d) => s.(cache := s.cache[d := Listing(s.bucket, d)])
    case Evict(ds) => s.(cache := map d | d in s.cache && d !in ds :: s.cache[d])
    case Accept => s.(stream := Accepted([]))
    case Connect => AskDropAll(s.(stream := Heard(s.stream.events)))
    case Break => s.(stream := Down)
    case End => s.(stream := Down, ended := true)
    case DeafDrop => s.(cache := Drop(s.cache, []))
    case Deliver =>
      var events := s.stream.events;
      s.(stream := Heard(events[1..]),
         lock := s.lock.Changed(events[0].Dir()))
    case Take => s.(lock := s.lock.Taken(), flushes := s.flushes + [Merging(s.lock.pending)])
    case Merge(i, targets) => s.(flushes := s.flushes[i := if s.ended then Done else Plan(targets)])
    case AskAll(i) => AskDropAll(s.(flushes := s.flushes[i := Done]))
    case Climb(i) =>
      var todo := s.flushes[i].todo;
      if Found(s.cache, s.bucket, todo[0]) then
        s.(cache := Drop(s.cache, todo[0]), flushes := s.flushes[i := Rest(todo[1..])])
      else
        s.(flushes := s.flushes[i := Dropping(todo[0 := todo[0][..|todo[0]| - 1]])])
    case RunnerDrop =>
      s.(cache := if s.ended then s.cache else Drop(s.cache, []), runner := AfterDrop,
         history := History(s.history.asked, s.history.begun + 1, true))
    case RunnerLoop =>
      s.(lock := s.lock.RunnerNext(), runner := if s.lock.dropAgain then BeforeDrop else Idle)
  }

  function Rest(todo: seq<Path>): Flush {
    if todo == [] then Done else Dropping(todo)
  }

  /** Before the first connection anything may be cached. */
  ghost predicate Init(s: Sys) {
    && s.stream.Down? && !s.ended
    && s.lock == Lock({}, false, false, false)
    && s.flushes == [] && s.runner.Idle?
    && s.history == History(0, 0, true)
  }

  ghost predicate Next(s: Sys, s': Sys) {
    exists e :: Enabled(s, e) && s' == Apply(s, e)
  }

  ghost predicate IsRun(run: seq<Sys>) {
    && run != [] && Init(run[0])
    && forall i | 0 <= i < |run| - 1 :: Next(run[i], run[i + 1])
  }

  // ---- Obligations ----

  /** Dropping o, wherever its climb ends, makes good a wrong entry e of d. */
  predicate Covers(o: Path, d: Path, e: Entry) {
    o <= d || (e.Dir? && d + [e.name] <= o)
  }

  /** The cached listing of d is wrong about e. */
  predicate Wrong(s: Sys, d: Path, e: Entry) {
    d in s.cache && (e in s.cache[d] <==> e !in Listing(s.bucket, d))
  }

  ghost predicate OwedByEvent(s: Sys, o: Path) {
    !s.stream.Down? && exists key :: key in s.stream.events && key.path != [] && key.Parent() == o
  }

  ghost predicate OwedByFlush(f: Flush, o: Path) {
    match f
    case Merging(dirs) => o in dirs
    case Dropping(todo) => o in todo
    case AskingAll => o == []
    case Done => false
  }

  /** The plugin still has to drop o: the change is undelivered or pending, a running flush holds
      it, or a whole drop is due. */
  ghost predicate Owed(s: Sys, o: Path) {
    || OwedByEvent(s, o)
    || o in s.lock.pending
    || (exists i :: 0 <= i < |s.flushes| && OwedByFlush(s.flushes[i], o))
    || (o == [] && (s.runner.BeforeDrop? || s.lock.dropAgain))
  }

  ghost predicate Excused(s: Sys, d: Path, e: Entry) {
    exists o :: Owed(s, o) && Covers(o, d, e)
  }

  /** Every wrong entry of every cached listing is owed a drop that makes it good. */
  ghost predicate Coherent(s: Sys) {
    forall d, e | Wrong(s, d, e) :: Excused(s, d, e)
  }

  ghost predicate Consistent(s: Sys) {
    && (s.ended ==> s.stream.Down?)
    && (s.lock.pending != {} <==> s.lock.flushing)
    && (s.runner.Idle? <==> !s.lock.dropping)
    && (s.lock.dropAgain ==> s.lock.dropping)
    && (forall i | 0 <= i < |s.flushes| :: s.flushes[i].Dropping? ==> s.flushes[i].todo != [])
    && (forall i | 0 <= i < |s.flushes| :: s.flushes[i].Merging? ==> s.flushes[i].dirs != {})
  }

  /** A drop begins after each request or is still due, and no more begin than were asked for. */
  ghost predicate Coalesced(s: Sys) {
    && (s.history.served || s.runner.BeforeDrop? || s.lock.dropAgain)
    && s.history.begun + (if s.runner.BeforeDrop? then 1 else 0) + (if s.lock.dropAgain then 1 else 0)
         <= s.history.asked
  }

  ghost predicate Inv(s: Sys) {
    && Consistent(s)
    && Coalesced(s)
    && (s.stream.Heard? ==> Coherent(s))
  }

  // ---- Covering ----

  /** An ancestor makes good whatever its descendant does: two prefixes of one path compare. */
  lemma AncestorCovers(a: Path, o: Path, d: Path, e: Entry)
    requires a <= o && Covers(o, d, e)
    ensures Covers(a, d, e)
  {
    if !(o <= d) {
      var child := d + [e.name];
      assert child <= o;
      if |a| <= |d| {
        assert a == o[..|a|] == child[..|a|] == d[..|a|];
      } else {
        assert child == o[..|child|] == a[..|child|];
      }
    }
  }

  /** Adding or removing key changes only entries that its directory covers. */
  lemma ChangeIsCovered(bucket: set<Key>, bucket': set<Key>, key: Key, d: Path, e: Entry)
    requires bucket' == bucket + {key} || bucket' == bucket - {key}
    requires e in Listing(bucket, d) <==> e !in Listing(bucket', d)
    ensures key.path != [] && Covers(key.Parent(), d, e)
  {
    var listed := if e in Listing(bucket, d) then bucket else bucket';
    var k :| k in listed && d < k.path && EntryOf(k, d) == e;
    assert k == key;
    assert d <= key.Parent();
    if d != key.Parent() {
      assert d + [e.name] <= key.Parent();
    }
  }

  /** A drop that finds its directory leaves nothing that it covers wrong. */
  lemma FoundDropIsGood(s: Sys, o: Path, d: Path, e: Entry)
    requires Found(s.cache, s.bucket, o) && Covers(o, d, e) && d in Drop(s.cache, o)
    ensures !Wrong(s, d, e)
  {
    var child := d + [e.name];
    assert child <= o && o[|d|] == e.name && o[..|d|] == d;
    assert Dir(o[|d|]) in s.cache[o[..|d|]];
    var key :| key in s.bucket && (o < key.path || (key.marker && o == key.path));
    assert d < key.path && EntryOf(key, d) == e;
  }

  // ---- What the environment may do ----

  /** A listing shows the objects of a directory, and the directories that hold some or have a marker. */
  lemma ListingShows(bucket: set<Key>, d: Path, n: string)
    ensures File(n) in Listing(bucket, d) <==> exists key :: key in bucket && key.path == d + [n] && !key.marker
    ensures Dir(n) in Listing(bucket, d) <==>
            exists key :: key in bucket && d + [n] <= key.path && (key.path != d + [n] || key.marker)
  {
    forall key | key in bucket && d < key.path && EntryOf(key, d) == File(n) ensures key.path == d + [n] && !key.marker {}
    forall key | key in bucket && key.path == d + [n] && !key.marker ensures d < key.path && EntryOf(key, d) == File(n) {}
    forall key | key in bucket && d + [n] <= key.path && (key.path != d + [n] || key.marker)
      ensures d < key.path && EntryOf(key, d) == Dir(n)
    {
      assert key.path[|d|] == (d + [n])[|d|];
    }
    forall key | key in bucket && d < key.path && EntryOf(key, d) == Dir(n)
      ensures d + [n] <= key.path && (key.path != d + [n] || key.marker)
    {
      assert key.path[..|d| + 1] == d + [n];
    }
  }

  /** A directory below the root exists exactly when its parent lists it. */
  lemma DirExistsIsListed(bucket: set<Key>, d: Path, n: string)
    ensures DirExists(bucket, []) && (DirExists(bucket, d + [n]) <==> Dir(n) in Listing(bucket, d))
  {
    ListingShows(bucket, d, n);
  }

  /** invalidate finds a directory that exists unless a cached listing on the way there does not show it. */
  lemma FoundIs(cache: Cache, bucket: set<Key>, p: Path)
    ensures Found(cache, bucket, p) <==>
            p == [] || (DirExists(bucket, p) && forall q: Path, n | q + [n] <= p && q in cache :: Dir(n) in cache[q])
  {
    if Found(cache, bucket, p) {
      forall q: Path, n | q + [n] <= p && q in cache ensures p == [] || Dir(n) in cache[q] {
        assert p[|q|] == (q + [n])[|q|] && p[..|q|] == q;
      }
    } else if DirExists(bucket, p) {
      var i :| 0 <= i < |p| && p[..i] in cache && Dir(p[i]) !in cache[p[..i]];
      assert p[..i] + [p[i]] <= p;
    }
  }

  /** At any moment the bucket may gain or lose any object, any directory be read from the bucket, any
      listings go, the stream break and the watch end; a stream that is down may be taken and then reported. */
  lemma EnvironmentIsFree(s: Sys, key: Key, d: Path, ds: set<Path>)
    ensures Enabled(s, Put(key)) && Apply(s, Put(key)).bucket == s.bucket + {key}
    ensures Enabled(s, Remove(key)) <==> key in s.bucket
    ensures key in s.bucket ==> Apply(s, Remove(key)).bucket == s.bucket - {key}
    ensures Enabled(s, Fill(d)) && Apply(s, Fill(d)).cache == s.cache[d := Listing(s.bucket, d)]
    ensures Enabled(s, Evict(ds)) && Apply(s, Evict(ds)).cache == map x | x in s.cache && x !in ds :: s.cache[x]
    ensures s.stream.Down? ==> Apply(s, Put(key)).stream == Down
    ensures s.stream.Accepted? ==> Apply(s, Put(key)).stream == Accepted(s.stream.events + [key])
    ensures s.stream.Heard? ==> Apply(s, Put(key)).stream == Heard(s.stream.events + [key])
    ensures key in s.bucket ==> Apply(s, Remove(key)).stream == Apply(s, Put(key)).stream
    ensures Enabled(s, Break) && Apply(s, Break).stream == Down && Enabled(s, End) && Apply(s, End).ended
    ensures Enabled(s, Accept) <==> s.stream.Down? && !s.ended
    ensures s.stream.Down? && !s.ended ==> Apply(s, Accept).stream == Accepted([])
    ensures Enabled(s, Connect) <==> s.stream.Accepted?
    ensures s.stream.Accepted? ==> Apply(s, Connect).stream == Heard(s.stream.events)
  {}

  /** A run may start from any bucket with anything cached of it, and go on with any step that is enabled. */
  lemma RunsGoOn(bucket: set<Key>, cache: Cache, run: seq<Sys>, e: Step)
    ensures IsRun([Sys(bucket, cache, Down, false, Lock({}, false, false, false), [], Idle, History(0, 0, true))])
    ensures IsRun(run) && Enabled(run[|run| - 1], e) ==> IsRun(run + [Apply(run[|run| - 1], e)])
  {
    if IsRun(run) && Enabled(run[|run| - 1], e) {
      assert Next(run[|run| - 1], Apply(run[|run| - 1], e));
    }
  }

  /** Each whole drop, the runner's of a watch that goes on and the connection loop's, leaves no listing. */
  lemma WholeDropLeavesNone(s: Sys, e: Step)
    requires Enabled(s, e) && ((e.RunnerDrop? && !s.ended) || e.DeafDrop?)
    ensures Apply(s, e).cache == map[]
  {}

  /** A watch that has ended drops nothing more, but for the climbs of a flush already planned. */
  lemma EndedDropsNothing(s: Sys, e: Step)
    requires s.ended && Enabled(s, e) && e.OfWatch()
    ensures Apply(s, e).ended && (!e.Climb? ==> Apply(s, e).cache == s.cache)
    ensures e.Merge? ==> Apply(s, e).flushes == s.flushes[e.flush := Done]
  {}

  // ---- Every step keeps the invariant ----

  /** A step that makes no entry newly wrong and leaves each obligation in force, or another in its
      place, keeps the cache coherent. */
  lemma Inherit(s: Sys, s': Sys)
    requires Coherent(s)
    requires forall d, e | Wrong(s', d, e) :: Wrong(s, d, e)
    requires forall o | Owed(s, o) :: exists a :: Owed(s', a) && a <= o
    ensures Coherent(s')
  {
    forall d, e | Wrong(s', d, e) ensures Excused(s', d, e) {
      assert Excused(s, d, e);
      var o :| Owed(s, o) && Covers(o, d, e);
      var a :| Owed(s', a) && a <= o;
      AncestorCovers(a, o, d, e);
    }
  }

  lemma FlushOwes(s: Sys, i: nat, o: Path)
    requires i < |s.flushes| && OwedByFlush(s.flushes[i], o)
    ensures Owed(s, o)
  {}

  /** An obligation that is not flush i's survives when only flush i changes. */
  lemma OthersStillOwed(s: Sys, s': Sys, i: nat, f: Flush, o: Path)
    requires i < |s.flushes| && s'.flushes == s.flushes[i := f]
    requires s'.stream == s.stream && s'.lock.pending == s.lock.pending
    requires s.runner.BeforeDrop? || s.lock.dropAgain ==> s'.runner.BeforeDrop? || s'.lock.dropAgain
    requires Owed(s, o)
    ensures Owed(s', o) || OwedByFlush(s.flushes[i], o)
  {
    if OwedByEvent(s, o) {
      assert OwedByEvent(s', o);
    } else if j :| 0 <= j < |s.flushes| && OwedByFlush(s.flushes[j], o) {
      if j != i {
        assert s'.flushes[j] == s.flushes[j];
      }
    }
  }

  lemma BucketStepKeepsCoherent(s: Sys, e: Step)
    requires (e.Put? || e.Remove?) && Enabled(s, e) && s.stream.Heard? && Coherent(s)
    ensures Coherent(Apply(s, e))
  {
    var s' := Apply(s, e);
    var key := e.key;
    assert s'.stream.events == s.stream.events + [key];
    forall o | Owed(s, o) ensures Owed(s', o) {
      if OwedByEvent(s, o) {
        var k :| k in s.stream.events && k.path != [] && k.Parent() == o;
        assert k in s'.stream.events;
      }
    }
    forall d, x | Wrong(s', d, x) ensures Excused(s', d, x) {
      if Wrong(s, d, x) {
        assert Excused(s, d, x);
        var o :| Owed(s, o) && Covers(o, d, x);
        assert Owed(s', o);
      } else {
        ChangeIsCovered(s.bucket, s'.bucket, key, d, x);
        assert key in s'.stream.events;
        assert OwedByEvent(s', key.Parent());
      }
    }
  }

  lemma CacheStepKeepsCoherent(s: Sys, e: Step)
    requires (e.Fill? || e.Evict? || e.DeafDrop?) && Enabled(s, e) && Coherent(s)
    ensures Coherent(Apply(s, e))
  {
    var s' := Apply(s, e);
    forall o | Owed(s, o) ensures Owed(s', o) {}
    Inherit(s, s');
  }

  lemma WholeDropOwed(s: Sys)
    requires s.runner.BeforeDrop? || s.lock.dropAgain
    ensures Coherent(s)
  {
    assert Owed(s, []);
    forall d, e | Wrong(s, d, e) ensures Excused(s, d, e) {
      assert Covers([], d, e);
    }
  }

  lemma DeliverKeepsCoherent(s: Sys)
    requires Enabled(s, Deliver) && Coherent(s)
    ensures Coherent(Apply(s, Deliver))
  {
    var s' := Apply(s, Deliver);
    var events := s.stream.events;
    forall o | Owed(s, o) ensures Owed(s', o) {
      if OwedByEvent(s, o) {
        var key :| key in events && key.path != [] && key.Parent() == o;
        if key in events[1..] {
          assert OwedByEvent(s', o);
        } else {
          assert key == events[0];
        }
      }
    }
    Inherit(s, s');
  }

  lemma TakeKeepsCoherent(s: Sys)
    requires Enabled(s, Take) && Coherent(s)
    ensures Coherent(Apply(s, Take))
  {
    var s' := Apply(s, Take);
    var n := |s.flushes|;
    assert s'.flushes[n] == Merging(s.lock.pending);
    forall o | Owed(s, o) ensures Owed(s', o) {
      if o in s.lock.pending {
        FlushOwes(s', n, o);
      } else if i :| 0 <= i < n && OwedByFlush(s.flushes[i], o) {
        assert s'.flushes[i] == s.flushes[i];
      }
    }
    Inherit(s, s');
  }

  lemma MergeKeepsCoherent(s: Sys, i: nat, targets: seq<Path>)
    requires Enabled(s, Merge(i, targets)) && Coherent(s) && !s.ended
    ensures Coherent(Apply(s, Merge(i, targets)))
  {
    var s' := Apply(s, Merge(i, targets));
    forall o | Owed(s, o) ensures exists a :: Owed(s', a) && a <= o {
      OthersStillOwed(s, s', i, Plan(targets), o);
      if OwedByFlush(s.flushes[i], o) {
        assert Reaches(targets, o);
        var t :| t in targets && t <= o;
        var a: Path := if Plan(targets).AskingAll? then [] else t;
        FlushOwes(s', i, a);
      }
    }
    Inherit(s, s');
  }

  /** The climb keeps what it owes whatever it meets, and makes it good where it finds a directory. */
  lemma ClimbKeepsCoherent(s: Sys, i: nat)
    requires Enabled(s, Climb(i)) && Coherent(s)
    ensures Coherent(Apply(s, Climb(i)))
  {
    var s' := Apply(s, Climb(i));
    var todo := s.flushes[i].todo;
    if Found(s.cache, s.bucket, todo[0]) {
      forall d, e | Wrong(s', d, e) ensures Excused(s', d, e) {
        assert Wrong(s, d, e) && Excused(s, d, e);
        var o :| Owed(s, o) && Covers(o, d, e);
        OthersStillOwed(s, s', i, Rest(todo[1..]), o);
        if !Owed(s', o) {
          if o == todo[0] {
            FoundDropIsGood(s, o, d, e);
          } else {
            assert o in todo[1..];
            FlushOwes(s', i, o);
          }
        }
      }
    } else {
      var p := todo[0][..|todo[0]| - 1];
      forall o | Owed(s, o) ensures exists a :: Owed(s', a) && a <= o {
        OthersStillOwed(s, s', i, Dropping(todo[0 := p]), o);
        if OwedByFlush(s.flushes[i], o) {
          var k :| 0 <= k < |todo| && todo[k] == o;
          assert todo[0 := p][k] <= o;
          FlushOwes(s', i, todo[0 := p][k]);
        }
      }
      Inherit(s, s');
    }
  }

  lemma RunnerKeepsCoherent(s: Sys, e: Step)
    requires (e.RunnerDrop? || e.RunnerLoop?) && Enabled(s, e) && !s.ended && Coherent(s)
    ensures Coherent(Apply(s, e))
  {
    var s' := Apply(s, e);
    if e.RunnerLoop? {
      if s.lock.dropAgain {
        WholeDropOwed(s');
      } else {
        forall o | Owed(s, o) ensures Owed(s', o) {}
        Inherit(s, s');
      }
    }
  }

  lemma StepKeepsCoherent(s: Sys, e: Step)
    requires Inv(s) && Enabled(s, e) && Apply(s, e).stream.Heard?
    ensures Coherent(Apply(s, e))
  {
    match e
    case Put(_) => BucketStepKeepsCoherent(s, e);
    case Remove(_) => BucketStepKeepsCoherent(s, e);
    case Fill(_) => CacheStepKeepsCoherent(s, e);
    case Evict(_) => CacheStepKeepsCoherent(s, e);
    case DeafDrop => CacheStepKeepsCoherent(s, e);
    case Connect => WholeDropOwed(Apply(s, e));
    case AskAll(_) => WholeDropOwed(Apply(s, e));
    case Deliver => DeliverKeepsCoherent(s);
    case Take => TakeKeepsCoherent(s);
    case Merge(i, targets) => MergeKeepsCoherent(s, i, targets);
    case Climb(i) => ClimbKeepsCoherent(s, i);
    case RunnerDrop => RunnerKeepsCoherent(s, e);
    case RunnerLoop => RunnerKeepsCoherent(s, e);
    case _ =>
  }

  lemma FlushStepKeepsConsistent(s: Sys, i: nat, f: Flush)
    requires Consistent(s) && i < |s.flushes|
    requires f.Dropping? ==> f.todo != []
    requires !f.Merging?
    ensures Consistent(s.(flushes := s.flushes[i := f]))
  {}

  lemma TakeKeepsConsistent(s: Sys)
    requires Consistent(s) && Enabled(s, Take)
    ensures Consistent(Apply(s, Take))
  {}

  lemma StepKeepsConsistent(s: Sys, e: Step)
    requires Consistent(s) && Enabled(s, e)
    ensures Consistent(Apply(s, e))
  {
    match e
    case Merge(i, targets) =>
      var d :| d in s.flushes[i].dirs;
      assert Reaches(targets, d);
      FlushStepKeepsConsistent(s, i, if s.ended then Done else Plan(targets));
    case Take => TakeKeepsConsistent(s);
    case AskAll(i) => FlushStepKeepsConsistent(s, i, Done);
    case Climb(i) => FlushStepKeepsConsistent(s, i, Apply(s, e).flushes[i]);
    case _ =>
  }

  lemma StepKeepsCoalesced(s: Sys, e: Step)
    requires Consistent(s) && Coalesced(s) && Enabled(s, e)
    ensures Coalesced(Apply(s, e))
  {}

  lemma StepKeepsInv(s: Sys, e: Step)
    requires Inv(s) && Enabled(s, e)
    ensures Inv(Apply(s, e))
  {
    StepKeepsConsistent(s, e);
    StepKeepsCoalesced(s, e);
    if Apply(s, e).stream.Heard? {
      StepKeepsCoherent(s, e);
    }
  }

  /** The main theorem: in every state of every run, a cached listing that differs from the bucket
      is owed the drop that makes it good, or the stream is not heard; the runner runs exactly while
      a drop is due, and no asked drop is lost. */
  lemma {:induction false} EveryStateKeepsInv(run: seq<Sys>, n: nat)
    requires IsRun(run) && n < |run|
    ensures Inv(run[n])
  {
    if n > 0 {
      EveryStateKeepsInv(run, n - 1);
      assert Next(run[n - 1], run[n - 1 + 1]);
      var e :| Enabled(run[n - 1], e) && run[n] == Apply(run[n - 1], e);
      StepKeepsInv(run[n - 1], e);
    }
  }

  /** Nothing is left to deliver, flush or drop. */
  predicate Quiet(s: Sys) {
    && (s.stream.Heard? ==> s.stream.events == [])
    && !s.lock.flushing
    && (forall i | 0 <= i < |s.flushes| :: s.flushes[i].Done?)
    && s.runner.Idle?
  }

  /** When the stream is heard and nothing is left to do, every cached listing is the bucket's,
      and a whole drop began after the last one asked. */
  lemma QuietIsFresh(s: Sys)
    requires Inv(s) && s.stream.Heard? && Quiet(s)
    ensures forall d | d in s.cache :: s.cache[d] == Listing(s.bucket, d)
    ensures s.history.served
  {
    assert forall o :: !Owed(s, o);
    forall d | d in s.cache ensures s.cache[d] == Listing(s.bucket, d) {
      forall e ensures e in s.cache[d] <==> e in Listing(s.bucket, d) {
        assert Wrong(s, d, e) ==> Excused(s, d, e);
      }
    }
  }

  lemma EveryQuietStateIsFresh(run: seq<Sys>, n: nat)
    requires IsRun(run) && n < |run| && run[n].stream.Heard? && Quiet(run[n])
    ensures forall d | d in run[n].cache :: run[n].cache[d] == Listing(run[n].bucket, d)
  {
    EveryStateKeepsInv(run, n);
    QuietIsFresh(run[n]);
  }

  // ---- The climb in a still moment, and why merging a burst loses nothing ----

  /** Where the climb from p ends when neither the cache nor the bucket moves under it. */
  ghost function Nearest(cache: Cache, bucket: set<Key>, p: Path): (n: Path)
    ensures Found(cache, bucket, n) && n <= p
    ensures forall m | m <= p && Found(cache, bucket, m) :: m <= n
  {
    if Found(cache, bucket, p) then p
    else
      var up := p[..|p| - 1];
      assert forall m | m <= p && Found(cache, bucket, m) :: m <= up by {
        forall m | m <= p && Found(cache, bucket, m) ensures m <= up {
          assert m != p;
        }
      }
      Nearest(cache, bucket, p[..|p| - 1])
  }

  /** Dropping each of ps in turn, each drop climbing in the cache that the ones before it left. */
  ghost function DropEach(cache: Cache, bucket: set<Key>, ps: seq<Path>): Cache {
    if ps == [] then cache
    else DropEach(Drop(cache, Nearest(cache, bucket, ps[0])), bucket, ps[1..])
  }

  /** d is below the place where the climb from some path of ps ends in this cache. */
  ghost predicate Hit(cache: Cache, bucket: set<Key>, ps: seq<Path>, d: Path) {
    exists p :: p in ps && Nearest(cache, bucket, p) <= d
  }

  /** A drop can only lead a later climb to a deeper end, and then it took that climb's subtree too. */
  lemma NearestAfterDrop(cache: Cache, bucket: set<Key>, n: Path, p: Path)
    requires Found(cache, bucket, n)
    ensures Nearest(cache, bucket, p) <= Nearest(Drop(cache, n), bucket, p)
    ensures Nearest(cache, bucket, p) == Nearest(Drop(cache, n), bucket, p) || n <= Nearest(cache, bucket, p)
  {
    var was, now := Nearest(cache, bucket, p), Nearest(Drop(cache, n), bucket, p);
    assert Found(Drop(cache, n), bucket, was);
    if was != now {
      assert !Found(cache, bucket, now);
      var i :| 0 <= i < |now| && now[..i] in cache && Dir(now[i]) !in cache[now[..i]];
      assert now[..i] !in Drop(cache, n);
      assert n <= now[..i] <= now;
    }
  }

  /** Whatever the order, drops one after the other take what each would take on its own. */
  lemma {:induction false} DropEachTakesTheUnion(cache: Cache, bucket: set<Key>, ps: seq<Path>)
    ensures DropEach(cache, bucket, ps) == map d | d in cache && !Hit(cache, bucket, ps, d) :: cache[d]
  {
    if ps != [] {
      var n := Nearest(cache, bucket, ps[0]);
      var left := Drop(cache, n);
      DropEachTakesTheUnion(left, bucket, ps[1..]);
      forall d ensures Hit(cache, bucket, ps, d) <==> n <= d || Hit(left, bucket, ps[1..], d) {
        HitAfterDrop(cache, bucket, ps, d);
      }
    }
  }

  lemma HitAfterDrop(cache: Cache, bucket: set<Key>, ps: seq<Path>, d: Path)
    requires ps != []
    ensures var n := Nearest(cache, bucket, ps[0]);
            Hit(cache, bucket, ps, d) <==> n <= d || Hit(Drop(cache, n), bucket, ps[1..], d)
  {
    var n := Nearest(cache, bucket, ps[0]);
    if p :| p in ps && Nearest(cache, bucket, p) <= d && p != ps[0] {
      assert p in ps[1..];
      NearestAfterDrop(cache, bucket, n, p);
    }
    if p :| p in ps[1..] && Nearest(Drop(cache, n), bucket, p) <= d {
      NearestAfterDrop(cache, bucket, n, p);
      assert p in ps;
    }
  }

  lemma MergedHitsTheSame(cache: Cache, bucket: set<Key>, targets: seq<Path>, dirs: seq<Path>, d: Path)
    requires CoversBurst(targets, set d | d in dirs)
    ensures Hit(cache, bucket, targets, d) <==> Hit(cache, bucket, dirs, d)
  {
    if p :| p in dirs && Nearest(cache, bucket, p) <= d {
      assert Reaches(targets, p);
      var t :| t in targets && t <= p;
      assert Nearest(cache, bucket, t) <= Nearest(cache, bucket, p);
    }
    assert forall t | t in targets :: t in dirs;
  }

  /** Merging a burst is exact: dropping its targets leaves the very listings that dropping every
      directory of the burst leaves, each set in any order. */
  lemma {:induction false} MergedDropsTheSame(cache: Cache, bucket: set<Key>, targets: seq<Path>, dirs: seq<Path>)
    requires CoversBurst(targets, set d | d in dirs)
    ensures DropEach(cache, bucket, targets) == DropEach(cache, bucket, dirs)
  {
    DropEachTakesTheUnion(cache, bucket, targets);
    DropEachTakesTheUnion(cache, bucket, dirs);
    forall d ensures Hit(cache, bucket, targets, d) <==> Hit(cache, bucket, dirs, d) {
      MergedHitsTheSame(cache, bucket, targets, dirs, d);
    }
  }
}
