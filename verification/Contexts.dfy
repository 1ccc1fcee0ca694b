/** The watches and walks of the staged volumes: the lock sections of startWatch, ensureWatch and
    stopWatch in pkg/driver/watch.go, and of warm and stopWarm in pkg/driver/cache.go. Contexts are
    numbered as they are made. */
module Contexts {
  import opened Keys

  /** live are the contexts of map m, one for each key. */
  ghost predicate Names(m: map<string, nat>, live: set<nat>) {
    && (forall id | id in m :: m[id] in live)
    && (forall c | c in live :: exists id :: id in m && m[id] == c)
    && (forall a, b | a in m && b in m && a != b :: m[a] != m[b])
  }

  lemma NamesPut(m: map<string, nat>, live: set<nat>, id: string, c: nat)
    requires Names(m, live) && c !in live
    ensures Names(m[id := c], live - Of(m, id) + {c})
  {
    var m' := m[id := c];
    assert m'[id] == c;
    forall x | x in live - Of(m, id) ensures exists v :: v in m' && m'[v] == x {
      var v :| v in m && m[v] == x;
      assert m'[v] == x;
    }
  }

  lemma NamesDrop(m: map<string, nat>, live: set<nat>, id: string)
    requires Names(m, live)
    ensures Names(m - {id}, live - Of(m, id))
  {
    forall x | x in live - Of(m, id) ensures exists v :: v in m - {id} && (m - {id})[v] == x {
      var v :| v in m && m[v] == x;
      assert v in m - {id};
    }
  }

  /** The context a map has for id, if any. */
  function Of(m: map<string, nat>, id: string): set<nat> {
    if id in m then {m[id]} else {}
  }

  class Registry {
    var watches: map<string, nat>      // the watch of each volume
    var warming: map<string, nat>      // the context its walks share
    var liveWatches: set<nat>          // contexts made and not cancelled
    var liveWalks: set<nat>
    var made: nat

    /** At most one live watch and one live walk context per volume, and none that is not listed. */
    ghost predicate Valid()
      reads this
    {
      && Names(watches, liveWatches) && Names(warming, liveWalks)
      && (forall c | c in liveWatches :: c < made) && (forall c | c in liveWalks :: c < made)
    }

    constructor ()
      ensures Valid() && watches == map[] && warming == map[]
    {
      watches, warming, liveWatches, liveWalks, made := map[], map[], {}, {}, 0;
    }

    /** startWatch's section: the old watch of a staged volume is cancelled, a new one listed. */
    method StartWatch(id: string, staged: set<string>) returns (ctx: Option<nat>)
      requires Valid()
      modifies this
      ensures Valid() && warming == old(warming) && liveWalks == old(liveWalks)
      ensures ctx.None? <==> id !in staged
      ensures ctx.None? ==> watches == old(watches) && liveWatches == old(liveWatches)
      ensures ctx.Some? ==> ctx.value !in old(liveWatches) && watches == old(watches)[id := ctx.value]
                            && liveWatches == old(liveWatches) - Of(old(watches), id) + {ctx.value}
    {
      if id !in staged {
        return None;
      }
      NamesPut(watches, liveWatches, id, made);
      if id in watches {
        liveWatches := liveWatches - {watches[id]};
      }
      liveWatches, watches := liveWatches + {made}, watches[id := made];
      ctx, made := Some(made), made + 1;
    }

    method StopWatch(id: string)
      requires Valid()
      modifies this
      ensures Valid() && watches == old(watches) - {id} && warming == old(warming)
      ensures liveWatches == old(liveWatches) - Of(old(watches), id)
    {
      NamesDrop(watches, liveWatches, id);
      if id in watches {
        liveWatches, watches := liveWatches - {watches[id]}, watches - {id};
      }
    }

    /** warm's section: the context a walk of a staged volume runs in, shared by its walks. */
    method Warm(id: string, staged: set<string>) returns (ctx: Option<nat>)
      requires Valid()
      modifies this
      ensures Valid() && watches == old(watches)
      ensures ctx.None? <==> id !in staged
      ensures warming == if ctx.None? then old(warming) else old(warming)[id := ctx.value]
      ensures ctx.Some? ==> ctx.value in liveWalks && (id in old(warming) ==> ctx.value == old(warming)[id])
    {
      if id !in staged {
        return None;
      }
      if id !in warming {
        NamesPut(warming, liveWalks, id, made);
        liveWalks, warming := liveWalks + {made}, warming[id := made];
        made := made + 1;
      }
      ctx := Some(warming[id]);
    }

    method StopWarm(id: string)
      requires Valid()
      modifies this
      ensures Valid() && warming == old(warming) - {id} && watches == old(watches)
      ensures liveWalks == old(liveWalks) - Of(old(warming), id)
    {
      NamesDrop(warming, liveWalks, id);
      if id in warming {
        liveWalks, warming := liveWalks - {warming[id]}, warming - {id};
      }
    }

    /** One section that another goroutine runs. */
    method Serve(call: Call)
      requires Valid()
      modifies this
      ensures Valid() && watches.Keys == Listed([call], old(watches.Keys))
    {
      match call
      case Start(id, staged) => var _ := StartWatch(id, if staged then {id} else {});
      case Stop(id) => StopWatch(id);
      case Walk(id, staged) => var _ := Warm(id, if staged then {id} else {});
      case EndWalks(id) => StopWarm(id);
    }

    /** ensureWatch: it looks under the lock whether the volume has a watch, and starts one in a second
        section -- with whatever calls others make between the two. */
    method EnsureWatch(id: string, between: seq<Call>, staged: set<string>) returns (ctx: Option<nat>, ghost mid: map<string, nat>)
      requires Valid()
      modifies this
      ensures Valid()
      ensures mid.Keys == Listed(between, old(watches.Keys))
      ensures ctx.Some? <==> id !in old(watches) && id in staged
      ensures watches.Keys == Ensured(id, between, staged, old(watches.Keys))
      ensures ctx.None? ==> watches == mid
      ensures ctx.Some? ==> watches == mid[id := ctx.value] && (id in mid ==> mid[id] !in liveWatches)
    {
      var running := id in watches;
      for n := 0 to |between|
        invariant Valid() && watches.Keys == Listed(between[..n], old(watches.Keys))
      {
        assert between[..n + 1] == between[..n] + [between[n]];
        Serve(between[n]);
      }
      assert between[..|between|] == between;
      mid, ctx := watches, None;
      if !running {
        ctx := StartWatch(id, staged);
      }
    }
  }

  // ---- What ensureWatch guarantees ----

  /** A call that other goroutines make; staged says whether its volume is known to the supervisor then. */
  datatype Call = Start(id: string, staged: bool) | Stop(id: string) | Walk(id: string, staged: bool) | EndWalks(id: string)

  /** The volumes that have a watch after some calls. */
  function Listed(calls: seq<Call>, ids: set<string>): set<string> {
    if calls == [] then ids
    else
      var before := Listed(calls[..|calls| - 1], ids);
      match calls[|calls| - 1]
      case Start(id, staged) => if staged then before + {id} else before
      case Stop(id) => before - {id}
      case _ => before
  }

  /** The volumes that have a watch once ensureWatch returns. */
  function Ensured(id: string, between: seq<Call>, staged: set<string>, ids: set<string>): set<string> {
    Listed(between, ids) + if id !in ids && id in staged then {id} else {}
  }

  /** The last call that starts or stops id's watch decides whether it has one. */
  lemma {:induction false} LastCallDecides(calls: seq<Call>, ids: set<string>, id: string)
    ensures id in Listed(calls, ids) <==>
            if exists k :: 0 <= k < |calls| && Decides(calls[k], id) then
              exists k :: 0 <= k < |calls| && calls[k] == Start(id, true)
                          && forall j | k < j < |calls| :: calls[j] != Stop(id)
            else id in ids
  {
    if calls != [] {
      var init, last := calls[..|calls| - 1], calls[|calls| - 1];
      LastCallDecides(init, ids, id);
      assert forall k | 0 <= k < |init| :: init[k] == calls[k];
      if last == Start(id, true) {
        assert calls[|calls| - 1] == Start(id, true);
      }
    }
  }

  predicate Decides(call: Call, id: string) { call == Start(id, true) || call == Stop(id) }

  /** ensureWatch leaves a volume that is staged when it ends with a watch, except exactly when it saw
      one that others then stopped. */
  lemma EnsuredUnlessStopped(id: string, between: seq<Call>, staged: set<string>, ids: set<string>)
    requires id in staged
    ensures id in Ensured(id, between, staged, ids) <==>
            !(id in ids
              && (exists k :: 0 <= k < |between| && between[k] == Stop(id)
                              && forall j | k < j < |between| :: between[j] != Start(id, true)))
  {
    LastCallDecides(between, ids, id);
    if id in ids && id !in Listed(between, ids) {
      assert exists k :: 0 <= k < |between| && Decides(between[k], id);
      var k := LastOf(between, id, |between|);
    }
  }

  /** A watch that ensureWatch starts takes the place of another -- it is not the first of a volume that
      has none -- exactly when someone else started one after the look and nobody stopped it. */
  lemma ReplacesIffStartedMeanwhile(id: string, between: seq<Call>, ids: set<string>)
    requires id !in ids
    ensures id in Listed(between, ids) <==>
            exists k :: 0 <= k < |between| && between[k] == Start(id, true)
                        && forall j | k < j < |between| :: between[j] != Stop(id)
  {
    LastCallDecides(between, ids, id);
  }

  lemma {:induction false} LastOf(calls: seq<Call>, id: string, n: nat) returns (k: nat)
    requires n <= |calls| && exists k :: 0 <= k < n && Decides(calls[k], id)
    ensures k < n && Decides(calls[k], id) && forall j | k < j < n :: !Decides(calls[j], id)
  {
    if Decides(calls[n - 1], id) {
      k := n - 1;
    } else {
      k := LastOf(calls, id, n - 1);
    }
  }
}
