/** How long a change can stay unseen while the bucket is not heard: the connection loop of a watch
    and its timed drops (pkg/driver/watch.go, pkg/s3/listen.go). Times are in milliseconds; only
    sleeping, listening and dropping take any. */
module Staleness {
  import opened Keys

  const RECONNECT_MIN := 1_000
  const RECONNECT_MAX := 30_000
  const REFUSED_REFRESH := 60_000
  const REFUSED_RETRY := 300_000
  /** Listen gives up after this long without a record, the first included. */
  const LISTEN_IDLE := 30_000

  /** One call of Listen: it failed before connecting, refused or not, or it connected and the
      stream later broke, nothing having come for the last silent of the time it was held. */
  datatype Outcome =
    | Failed(took: nat, refused: bool)
    | Broke(connecting: nat, held: nat, silent: nat)
  {
    /** What the idle watchdog, running from the request on, guarantees. */
    predicate WithinIdle() {
      match this
      case Failed(took, _) => took <= LISTEN_IDLE
      case Broke(connecting, held, silent) => connecting <= LISTEN_IDLE && silent <= LISTEN_IDLE && silent <= held
    }
  }

  /** The watchdog's thirty seconds: a call that does not connect within them has failed by then, and a stream
      that is silent for as long has broken. */
  lemma IdleIsThirtySeconds(o: Outcome)
    ensures o.WithinIdle() <==>
            if o.Failed? then o.took <= 30_000 else o.connecting <= 30_000 && o.silent <= 30_000 && o.silent <= o.held
  {}

  /** What the loop did, in order of time: it waited unheard (asleep, or in a Listen not yet
      connected), dropped the whole cache, asked for that drop on connecting, or held a stream, whose
      last record came at alive. */
  datatype Event =
    | Waited(from: int, to: int)
    | Dropped(from: int, to: int)
    | Connected(from: int, to: int)
    | Heard(from: int, alive: int, to: int)

  /** The events follow each other without a gap from start to end. */
  ghost predicate Timeline(log: seq<Event>, start: int, end: int) {
    if log == [] then end == start
    else
      var last := log[|log| - 1];
      && last.to == end && last.from <= last.to && (last.Heard? ==> last.from <= last.alive <= last.to <= last.alive + LISTEN_IDLE)
      && Timeline(log[..|log| - 1], start, last.from)
  }

  /** The end of the last event that made good what was missed before it: a whole drop, a
      connection, a stretch heard; at first, the start. */
  ghost function LastSafe(log: seq<Event>, start: int): int {
    if log == [] then start
    else if log[|log| - 1].Waited? then LastSafe(log[..|log| - 1], start)
    else log[|log| - 1].to
  }

  /** The same, a stretch counting only up to its last record: what a silent stream hid is not made good. */
  ghost function LastRecord(log: seq<Event>, start: int): int {
    if log == [] then start
    else
      match log[|log| - 1]
      case Waited(_, _) => LastRecord(log[..|log| - 1], start)
      case Heard(_, alive, _) => alive
      case last => last.to
  }

  /** No wait lasted until REFUSED_REFRESH + LISTEN_IDLE after the last safe moment, nor longer than that
      after the last record. */
  ghost predicate Bounded(log: seq<Event>, start: int) {
    forall i | 0 <= i < |log| && log[i].Waited? ::
      && log[i].to < LastSafe(log[..i], start) + REFUSED_REFRESH + LISTEN_IDLE
      && log[i].to <= LastRecord(log[..i], start) + REFUSED_REFRESH + LISTEN_IDLE
  }

  /** The wait before the next connection, once a call has ended and delay was the wait before it. */
  function NextDelay(o: Outcome, delay: nat): nat {
    Min(2 * (if o.Broke? && o.held > RECONNECT_MAX then RECONNECT_MIN else delay), RECONNECT_MAX)
  }

  /** The pause after a call: five minutes for a refusal, the backoff otherwise. */
  function PauseAfter(o: Outcome, delay: nat): nat {
    if o.Failed? && o.refused then REFUSED_RETRY
    else if o.Broke? && o.held > RECONNECT_MAX then RECONNECT_MIN
    else delay
  }

  /** The wait between connections after a run of Listen calls. */
  function Backoff(script: seq<Outcome>): (delay: nat)
    ensures RECONNECT_MIN <= delay <= RECONNECT_MAX
  {
    if script == [] then RECONNECT_MIN else NextDelay(script[|script| - 1], Backoff(script[..|script| - 1]))
  }

  /** The pause after the last call of a run. */
  function Pause(script: seq<Outcome>): nat
    requires script != []
  {
    PauseAfter(script[|script| - 1], Backoff(script[..|script| - 1]))
  }

  /** The time a run of calls and the pauses after them take, drops not counted. */
  function Elapsed(script: seq<Outcome>): nat {
    if script == [] then 0
    else
      var last := script[|script| - 1];
      Elapsed(script[..|script| - 1]) + Pause(script) + if last.Failed? then last.took else last.connecting + last.held
  }

  function Connections(log: seq<Event>): nat {
    if log == [] then 0 else Connections(log[..|log| - 1]) + if log[|log| - 1].Connected? then 1 else 0
  }

  function Broken(script: seq<Outcome>): nat {
    if script == [] then 0 else Broken(script[..|script| - 1]) + if script[|script| - 1].Broke? then 1 else 0
  }

  function Min(a: int, b: int): int { if a < b then a else b }
  function Max(a: int, b: int): int { if a < b then b else a }

  lemma Append(log: seq<Event>, e: Event, start: int)
    requires Timeline(log, start, e.from) && e.from <= e.to && Bounded(log, start)
    requires e.Waited? ==> e.to < LastSafe(log, start) + REFUSED_REFRESH + LISTEN_IDLE
                           && e.to <= LastRecord(log, start) + REFUSED_REFRESH + LISTEN_IDLE
    requires e.Heard? ==> e.from <= e.alive <= e.to <= e.alive + LISTEN_IDLE
    ensures Timeline(log + [e], start, e.to) && Bounded(log + [e], start)
    ensures LastSafe(log + [e], start) == if e.Waited? then LastSafe(log, start) else e.to
    ensures LastRecord(log + [e], start) == if e.Waited? then LastRecord(log, start) else if e.Heard? then e.alive else e.to
  {
    var log' := log + [e];
    assert log'[..|log|] == log;
    forall i | 0 <= i < |log'| && log'[i].Waited?
      ensures log'[i].to < LastSafe(log'[..i], start) + REFUSED_REFRESH + LISTEN_IDLE
      ensures log'[i].to <= LastRecord(log'[..i], start) + REFUSED_REFRESH + LISTEN_IDLE
    {
      assert log'[..i] == log[..i];
    }
  }

  /** No sleep and no call goes on past the end of the watch. */
  ghost predicate EndsInTime(log: seq<Event>, stop: Option<int>) {
    stop.Some? ==> forall e | e in log && (e.Waited? || e.Heard?) :: e.to <= Max(stop.value, e.from)
  }

  /** The time that drops took. */
  function DropTime(log: seq<Event>): int {
    if log == [] then 0
    else DropTime(log[..|log| - 1]) + if log[|log| - 1].Dropped? then log[|log| - 1].to - log[|log| - 1].from else 0
  }

  function Drops(log: seq<Event>): nat {
    if log == [] then 0 else Drops(log[..|log| - 1]) + if log[|log| - 1].Dropped? then 1 else 0
  }

  class Listener {
    const start: int
    const stop: Option<int>        // when the watch ends
    const dropTakes: nat -> nat    // how long the n-th event takes, if it is a drop
    var now: int
    var log: seq<Event>

    constructor (start: int, stop: Option<int>, dropTakes: nat -> nat)
      ensures Valid() && this.start == start && this.stop == stop && log == [] && now == start
    {
      this.start, this.stop, this.dropTakes := start, stop, dropTakes;
      now, log := start, [];
    }

    ghost predicate Valid()
      reads this
    {
      Timeline(log, start, now) && Bounded(log, start) && EndsInTime(log, stop)
    }

    ghost function Safe(): int
      reads this
    {
      LastSafe(log, start)
    }

    ghost function Record(): int
      reads this
    {
      LastRecord(log, start)
    }

    /** Time passes until e is over. */
    method Pass(e: Event)
      requires Valid() && e.from == now <= e.to
      requires e.Waited? ==> e.to < Safe() + REFUSED_REFRESH + LISTEN_IDLE && e.to <= Record() + REFUSED_REFRESH + LISTEN_IDLE
      requires e.Heard? ==> e.from <= e.alive <= e.to <= e.alive + LISTEN_IDLE
      requires stop.Some? && (e.Waited? || e.Heard?) ==> e.to <= Max(stop.value, e.from)
      modifies this
      ensures Valid() && log == old(log) + [e] && now == e.to
      ensures Safe() == if e.Waited? then old(Safe()) else e.to
      ensures Record() == if e.Waited? then old(Record()) else if e.Heard? then e.alive else e.to
      ensures Connections(log) == Connections(old(log)) + if e.Connected? then 1 else 0
      ensures Drops(log) == Drops(old(log)) + if e.Dropped? then 1 else 0
      ensures DropTime(log) == DropTime(old(log)) + if e.Dropped? then e.to - e.from else 0
    {
      Append(log, e, start);
      log, now := log + [e], e.to;
      assert log[..|log| - 1] == old(log);
    }

    /** Waits d, or less if the watch ends first. */
    method Wait(d: int) returns (ok: bool)
      requires Valid() && Max(d, 0) + now < Safe() + REFUSED_REFRESH + LISTEN_IDLE
      requires Max(d, 0) + now <= Record() + REFUSED_REFRESH + LISTEN_IDLE
      modifies this
      ensures Valid() && Safe() == old(Safe()) && Record() == old(Record())
      ensures old(now) <= now <= old(now) + Max(d, 0) && (ok ==> now == old(now) + Max(d, 0))
      ensures log == old(log) + [Waited(old(now), now)] && Connections(log) == Connections(old(log))
      ensures Drops(log) == Drops(old(log)) && DropTime(log) == DropTime(old(log))
      ensures !ok ==> stop.Some? && now >= stop.value
    {
      var until := now + Max(d, 0);
      ok := !(stop.Some? && stop.value < until);
      Pass(Waited(now, if ok then until else Max(now, stop.value)));
    }

    /** The drop of the whole cache by the loop itself. */
    method Drop()
      requires Valid()
      modifies this
      ensures Valid() && now >= old(now) && Safe() == Record() == now
      ensures log == old(log) + [Dropped(old(now), now)] && Connections(log) == Connections(old(log))
      ensures Drops(log) == Drops(old(log)) + 1 && DropTime(log) == DropTime(old(log)) + now - old(now)
    {
      Pass(Dropped(now, now + dropTakes(|log|)));
    }

    /** Whether REFUSED_REFRESH has passed since the last drop. */
    predicate Due(dropped: Option<int>)
      reads this
    {
      dropped.None? || now >= dropped.value + REFUSED_REFRESH
    }

    method DropIfDue(last: Option<int>) returns (dropped: Option<int>)
      requires Valid() && (last.Some? ==> last.value <= Record() <= Safe())
      modifies this
      ensures Valid() && Connections(log) == Connections(old(log)) && now - old(now) == DropTime(log) - DropTime(old(log)) >= 0
      ensures old(Due(last)) ==> dropped == Some(now) && Safe() == Record() == now && Drops(log) == Drops(old(log)) + 1
                                 && log == old(log) + [Dropped(old(now), now)]
      ensures !old(Due(last)) ==> dropped == last && log == old(log) && now == old(now)
    {
      dropped := last;
      if last.None? || now >= last.value + REFUSED_REFRESH {
        Drop();
        dropped := Some(now);
      }
    }

    /** waitDropping: waits d, and no longer than its drops take beside that, dropping whenever
        REFUSED_REFRESH has passed since the last drop -- at once if it has by then. */
    method WaitDropping(d: nat, last: Option<int>) returns (ok: bool, dropped: Option<int>)
      requires Valid() && now < Safe() + REFUSED_REFRESH + LISTEN_IDLE && now <= Record() + REFUSED_REFRESH + LISTEN_IDLE
      requires last.Some? ==> last.value <= Record() <= Safe()
      modifies this
      ensures Valid() && old(log) <= log && Connections(log) == Connections(old(log))
      ensures if ok then now >= old(now) + d else stop.Some? && now >= stop.value
      ensures now <= old(now) + d + DropTime(log) - DropTime(old(log)) && DropTime(log) >= DropTime(old(log))
      ensures last.None? || old(now) >= last.value + 60_000 ==> |log| > |old(log)| && log[|old(log)|].Dropped?
      ensures dropped.Some? && dropped.value <= Record() <= Safe() && (ok ==> now < dropped.value + REFUSED_REFRESH)
      ensures Drops(log) <= Drops(old(log)) + d / 60_000 + 1
    {
      var end := now + d;
      dropped := DropIfDue(last);
      ghost var first := log;
      ok, dropped := WaitUntil(end, dropped);
      assert first <= log;
    }

    /** The rest of the wait, once a drop is not due. */
    method WaitUntil(end: int, last: Option<int>) returns (ok: bool, dropped: Option<int>)
      requires Valid() && !Due(last) && last.value <= Record() <= Safe()
      requires now < Safe() + REFUSED_REFRESH + LISTEN_IDLE && now <= Record() + REFUSED_REFRESH + LISTEN_IDLE
      modifies this
      ensures Valid() && old(log) <= log && Connections(log) == Connections(old(log))
      ensures if ok then now >= end else stop.Some? && now >= stop.value
      ensures now <= Max(end, old(now)) + DropTime(log) - DropTime(old(log)) && DropTime(log) >= DropTime(old(log))
      ensures dropped.Some? && dropped.value <= Record() <= Safe() && (ok ==> now < dropped.value + REFUSED_REFRESH)
      ensures Drops(log) > Drops(old(log)) ==> last.value + (Drops(log) - Drops(old(log))) * REFUSED_REFRESH <= end
    {
      ghost var drops := 0;
      ok, dropped := true, last;
      while end - now > 0
        invariant Valid() && old(log) <= log && Connections(log) == Connections(old(log))
        invariant dropped.Some? && dropped.value <= Record() <= Safe() && now < dropped.value + REFUSED_REFRESH
        invariant now <= Max(end, old(now)) + DropTime(log) - DropTime(old(log)) && DropTime(log) >= DropTime(old(log))
        invariant Drops(log) == Drops(old(log)) + drops && dropped.value >= last.value + drops * REFUSED_REFRESH
        invariant drops > 0 ==> last.value + drops * REFUSED_REFRESH <= end
        decreases end - now
      {
        ghost var more;
        ok, dropped, more := SleepAndDrop(end, dropped);
        drops := drops + more;
        if !ok {
          return;
        }
      }
    }

    /** Sleeps until end or until the next drop is due, and drops if it is. */
    method SleepAndDrop(end: int, last: Option<int>) returns (ok: bool, dropped: Option<int>, ghost drops: nat)
      requires Valid() && last.Some? && now < last.value + REFUSED_REFRESH && now < end && last.value <= Record() <= Safe()
      modifies this
      ensures Valid() && old(log) <= log && Connections(log) == Connections(old(log)) && Drops(log) == Drops(old(log)) + drops
      ensures now <= end + DropTime(log) - DropTime(old(log)) && DropTime(log) >= DropTime(old(log))
      ensures dropped.Some? && dropped.value <= Record() <= Safe()
      ensures if ok then now > old(now) && now < dropped.value + REFUSED_REFRESH else stop.Some? && now >= stop.value
      ensures if drops == 0 then dropped == last
              else drops == 1 && dropped.value >= last.value + REFUSED_REFRESH && last.value + REFUSED_REFRESH <= end
    {
      dropped, drops := last, 0;
      ok := Wait(Min(end - now, last.value + REFUSED_REFRESH - now));
      if ok {
        drops := if Due(last) then 1 else 0;
        ghost var slept := log;
        dropped := DropIfDue(last);
        assert slept <= log;
      }
    }

    /** One call of Listen; connected says that the stream was taken, ok that the watch goes on. */
    method Listen(o: Outcome) returns (ok: bool, connected: bool)
      requires Valid() && o.WithinIdle() && now < Safe() + REFUSED_REFRESH && now <= Record() + REFUSED_REFRESH
      modifies this
      ensures Valid() && Safe() >= old(Safe()) && Record() >= old(Record())
      ensures connected ==> o.Broke? && Record() <= Safe() == now <= Record() + LISTEN_IDLE
      ensures !connected ==> Safe() == old(Safe()) && now < Safe() + REFUSED_REFRESH + LISTEN_IDLE
      ensures !connected ==> Record() == old(Record()) && now <= Record() + REFUSED_REFRESH + LISTEN_IDLE
      ensures if ok then connected == o.Broke? else stop.Some? && now >= stop.value
      ensures ok ==> now == old(now) + if o.Failed? then o.took else o.connecting + o.held
      ensures DropTime(log) == DropTime(old(log))
      ensures Connections(log) == Connections(old(log)) + if connected then 1 else 0
    {
      SafeBeforeEnd(log, start, now);
      ok := Wait(if o.Failed? then o.took else o.connecting);
      connected := ok && o.Broke?;
      if connected {
        Pass(Connected(now, now));
        var to := now + o.held;
        if stop.Some? && stop.value < to {
          ok, to := false, Max(now, stop.value);
        }
        Pass(Heard(now, Min(to, now + o.held - o.silent), to));
      }
    }

    /** Between calls of Listen: the last safe moment, the last record and the last drop of the loop's own
        are recent enough for one more call. */
    ghost predicate Fresh(dropped: Option<int>)
      reads this
    {
      && now < Safe() + REFUSED_REFRESH && now <= Record() + REFUSED_REFRESH && Record() <= Safe()
      && (dropped.Some? ==> dropped.value <= Record())
    }

    /** One turn of the loop: a call of Listen, and the pause after it. */
    method Turn(o: Outcome, delay: nat, last: Option<int>) returns (ok: bool, connected: bool, next: nat, dropped: Option<int>)
      requires Valid() && o.WithinIdle() && Fresh(last) && RECONNECT_MIN <= delay <= RECONNECT_MAX
      modifies this
      ensures Valid() && (!ok ==> stop.Some? && now >= stop.value)
      ensures ok ==> Fresh(dropped) && connected == o.Broke? && next == NextDelay(o, delay)
      ensures ok ==> var lasts := PauseAfter(o, delay) + if o.Failed? then o.took else o.connecting + o.held;
                     old(now) + lasts <= now <= old(now) + lasts + DropTime(log) - DropTime(old(log))
      ensures ok ==> Connections(log) == Connections(old(log)) + if connected then 1 else 0
    {
      next, dropped := delay, last;
      ok, connected := Listen(o);
      if !ok {
        return;
      }
      if connected {
        if o.held > RECONNECT_MAX {
          next := RECONNECT_MIN;
        }
        ok := Wait(next);
        if !ok {
          return;
        }
      } else {
        ok, dropped := WaitDropping(if o.refused then REFUSED_RETRY else delay, dropped);
        if !ok {
          return;
        }
      }
      next := Min(2 * next, RECONNECT_MAX);
    }

    /** The connection loop, from its first Listen on, through any number of calls. */
    method Run(script: seq<Outcome>) returns (delay: nat, deaf: bool, ended: bool)
      requires Valid() && log == [] && now == start && forall o | o in script :: o.WithinIdle()
      modifies this
      ensures Valid()
      ensures ended ==> stop.Some? && now >= stop.value
      ensures !ended ==> delay == Backoff(script) && start + Elapsed(script) <= now <= start + Elapsed(script) + DropTime(log)
      ensures !ended ==> |set i | 0 <= i < |log| && log[i].Connected?| == |set i | 0 <= i < |script| && script[i].Broke?|
      ensures !ended && script != [] ==> (deaf <==> script[|script| - 1].Failed?)
    {
      delay, deaf, ended := RECONNECT_MIN, false, false;
      var dropped: Option<int> := None;
      for n := 0 to |script|
        invariant Valid() && Fresh(dropped)
        invariant delay == Backoff(script[..n])
        invariant start + Elapsed(script[..n]) <= now <= start + Elapsed(script[..n]) + DropTime(log)
        invariant Connections(log) == Broken(script[..n])
        invariant n > 0 ==> (deaf <==> script[n - 1].Failed?)
      {
        assert script[n] in script && script[..n + 1][..n] == script[..n];
        var ok, connected;
        ok, connected, delay, dropped := Turn(script[n], delay, dropped);
        if !ok {
          ended := true;
          return;
        }
        deaf := !connected;
      }
      assert script[..|script|] == script;
      ConnectionsAreCounted(log);
      BrokenAreCounted(script);
    }
  }

  lemma {:induction false} ConnectionsAreCounted(log: seq<Event>)
    ensures Connections(log) == |set i | 0 <= i < |log| && log[i].Connected?|
  {
    if log != [] {
      var n := |log| - 1;
      ConnectionsAreCounted(log[..n]);
      assert (set i | 0 <= i < |log| && log[i].Connected?)
             == (set i | 0 <= i < n && log[..n][i].Connected?) + (if log[n].Connected? then {n} else {});
    }
  }

  lemma {:induction false} BrokenAreCounted(script: seq<Outcome>)
    ensures Broken(script) == |set i | 0 <= i < |script| && script[i].Broke?|
  {
    if script != [] {
      var n := |script| - 1;
      BrokenAreCounted(script[..n]);
      assert (set i | 0 <= i < |script| && script[i].Broke?)
             == (set i | 0 <= i < n && script[..n][i].Broke?) + (if script[n].Broke? then {n} else {});
    }
  }

  // ---- What the backoff is, in figures ----

  function Pow2(n: nat): nat { if n == 0 then 1 else 2 * Pow2(n - 1) }

  /** After n calls in a row that failed, from the start on, the delay is a second doubled n times, thirty
      seconds at most. */
  lemma {:induction false} BackoffDoubles(script: seq<Outcome>)
    requires forall o | o in script :: o.Failed?
    ensures Backoff(script) == if 1_000 * Pow2(|script|) < 30_000 then 1_000 * Pow2(|script|) else 30_000
  {
    if script != [] {
      var init, last := script[..|script| - 1], script[|script| - 1];
      assert last in script;
      BackoffDoubles(init);
    }
  }

  /** One call more: a stream held for over thirty seconds starts the backoff again; anything else doubles
      it, up to thirty seconds. */
  lemma BackoffAfter(script: seq<Outcome>, o: Outcome)
    ensures o.Broke? && o.held > 30_000 ==> Backoff(script + [o]) == 2_000
    ensures !(o.Broke? && o.held > 30_000) ==>
              Backoff(script + [o]) == if 2 * Backoff(script) < 30_000 then 2 * Backoff(script) else 30_000
    ensures Backoff([]) == 1_000
  {
    assert (script + [o])[..|script|] == script;
  }

  /** The pause after a call is five minutes for a refusal, a second after a stream held for over thirty, the
      delay until then otherwise; a run lasts as long as its calls and these pauses. */
  lemma ElapsedAfter(script: seq<Outcome>, o: Outcome)
    ensures var pause := if o.Failed? && o.refused then 300_000
                         else if o.Broke? && o.held > 30_000 then 1_000
                         else Backoff(script);
            Elapsed(script + [o]) == Elapsed(script) + pause + (if o.Failed? then o.took else o.connecting + o.held)
    ensures Elapsed([]) == 0
  {
    assert (script + [o])[..|script|] == script;
  }

  lemma {:induction false} SafeBeforeEnd(log: seq<Event>, start: int, end: int)
    requires Timeline(log, start, end)
    ensures start <= end && LastRecord(log, start) <= LastSafe(log, start) <= end
  {
    if log != [] {
      SafeBeforeEnd(log[..|log| - 1], start, log[|log| - 1].from);
    }
  }

  lemma {:induction false} SafeWhileWaiting(log: seq<Event>, start: int, i: nat)
    requires i <= |log| && forall k | i <= k < |log| :: log[k].Waited?
    ensures LastSafe(log, start) == LastSafe(log[..i], start)
  {
    if i < |log| {
      SafeWhileWaiting(log[..|log| - 1], start, i);
      assert log[..|log| - 1][..i] == log[..i];
    } else {
      assert log[..i] == log;
    }
  }

  lemma {:induction false} TimelinePrefix(log: seq<Event>, start: int, end: int, i: nat)
    requires Timeline(log, start, end) && i < |log|
    ensures Timeline(log[..i], start, log[i].from)
  {
    if i < |log| - 1 {
      TimelinePrefix(log[..|log| - 1], start, log[|log| - 1].from, i);
      assert log[..|log| - 1][..i] == log[..i];
    }
  }

  /** A change made at u, while the loop waits unheard, is not missed for long: however the waits
      follow each other, the last of them before a drop or a connection -- or the last so far --
      ends less than ninety seconds after u: those of REFUSED_REFRESH and LISTEN_IDLE. */
  lemma MissedChangeIsMadeGood(log: seq<Event>, start: int, end: int, u: int, i: nat, k: nat)
    requires Timeline(log, start, end) && Bounded(log, start)
    requires i <= k < |log| && forall j | i <= j <= k :: log[j].Waited?
    requires log[i].from <= u
    ensures log[k].to < u + 90_000
  {
    SafeWhileWaiting(log[..k], start, i);
    assert log[..k][..i] == log[..i];
    TimelinePrefix(log, start, end, i);
    SafeBeforeEnd(log[..i], start, log[i].from);
  }

  lemma {:induction false} RecordWhileWaiting(log: seq<Event>, start: int, i: nat)
    requires i <= |log| && forall k | i <= k < |log| :: log[k].Waited?
    ensures LastRecord(log, start) == LastRecord(log[..i], start)
  {
    if i < |log| {
      RecordWhileWaiting(log[..|log| - 1], start, i);
      assert log[..|log| - 1][..i] == log[..i];
    } else {
      assert log[..i] == log;
    }
  }

  /** A change made at u, after the last record of a stream that then falls silent and breaks -- or loses
      its queue breaking -- is not missed for long either: every wait after the stretch i, up to the next
      drop or connection, ends by ninety seconds after u. */
  lemma SilentChangeIsMadeGood(log: seq<Event>, start: int, end: int, u: int, i: nat, k: nat)
    requires Timeline(log, start, end) && Bounded(log, start)
    requires i < k < |log| && log[i].Heard? && log[i].alive <= u
    requires forall j | i < j <= k :: log[j].Waited?
    ensures log[k].to <= u + 90_000
  {
    RecordWhileWaiting(log[..k], start, i + 1);
    assert log[..k][..i + 1] == log[..i + 1] && log[..i + 1][..i] == log[..i];
  }
}
