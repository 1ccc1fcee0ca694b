/** Any number of graft passes, one after the other: graftHolders at each interval of the supervisor
    (pkg/driver/supervisor.go, pkg/driver/graft.go), with whatever heals come between them. */
module Rounds {
  import opened Keys
  import opened Mounts
  import opened Holders
  import opened Hosts
  import opened Grafting

  /** One pass: what it finds broken and how its helpers go, the devices it looks for with their staging
      paths, and the node's own table by then, which heals may have changed. */
  datatype Round = Round(host: Host, calls: nat, stage: map<string, Path>, own: Table)

  /** The mount tables when a round starts. */
  function Start(r: Round, tables: map<string, Table>): map<string, Table> {
    tables[r.host.own := r.own]
  }

  function After(r: Round, tables: map<string, Table>): map<string, Table> {
    Pass(r.host, Start(r, tables), r.calls, r.stage).tables
  }

  /** The mount tables before each round and after the last. */
  ghost predicate IsRun(rounds: seq<Round>, states: seq<map<string, Table>>) {
    |states| == |rounds| + 1 && forall i | 0 <= i < |rounds| :: states[i + 1] == After(rounds[i], states[i])
  }

  /** The containers are the same in every round, and no staging shows a device that dies in the run. */
  ghost predicate RoundFits(r: Round, host: Host, dead: set<string>) {
    && r.host.own == host.own && r.host.init == host.init && r.host.tasks == host.tasks && r.stage.Keys <= dead
    && forall d | d in r.stage :: Fit(r.own, r.host.broken, r.stage[d], dead)
  }

  ghost predicate AllFit(rounds: seq<Round>, host: Host, dead: set<string>) {
    forall i | 0 <= i < |rounds| :: RoundFits(rounds[i], host, dead)
  }

  function Begun(r: Round, tables: map<string, Table>): Progress {
    Progress(tables, r.calls, ProbedDead(r.host, tables, r.stage))
  }

  /** A round that starts from these tables takes mount m from namespace ns. */
  ghost predicate Takes(r: Round, tables: map<string, Table>, ns: string, m: Mount) {
    var holders := HoldersOf(r.host, tables, r.stage.Keys);
    r.host.hasHelper
    && exists k :: 0 <= k < |holders| && TakenAt(r.host, r.stage, holders, k, Begun(r, tables))
                   && NsName(r.host, holders[k]) == ns && holders[k].mount == m
  }

  lemma RoundIsReady(r: Round, tables: map<string, Table>, host: Host, dead: set<string>)
    requires RoundFits(r, host, dead) && r.host.Sound(tables) && AllScattered(r.host, tables, dead) && tables[r.host.own] == r.own
    ensures Ready(r.host, r.stage, HoldersOf(r.host, tables, r.stage.Keys), Begun(r, tables), dead)
  {
    forall ns | ns in VisibleSet(r.host) ensures Scattered(tables[ns], r.stage.Keys) {
      FewerAreScattered(tables[ns], dead, r.stage.Keys);
    }
    HoldersAreAllHeld(r.host, tables, r.stage.Keys);
  }

  lemma RoundTouchesContainers(r: Round, tables: map<string, Table>, host: Host, dead: set<string>)
    requires RoundFits(r, host, dead) && r.host.Sound(tables) && AllScattered(r.host, tables, dead) && tables[r.host.own] == r.own
    ensures OnlyContainers(r.host, tables, Pass(r.host, tables, r.calls, r.stage).tables, dead)
  {
    var holders := HoldersOf(r.host, tables, r.stage.Keys);
    RoundIsReady(r, tables, host, dead);
    AllStand(r.host, r.stage, holders, |holders|, Begun(r, tables), dead);
  }

  /** A round leaves a dead mount in its container's table exactly when it does not take it. */
  lemma RoundLeavesIffNotTaken(r: Round, tables: map<string, Table>, host: Host, dead: set<string>, ns: string, m: Mount)
    requires RoundFits(r, host, dead) && r.host.Sound(tables) && AllScattered(r.host, tables, dead) && tables[r.host.own] == r.own
    requires ns in VisibleSet(r.host) && m in tables[ns] && DeadFuse(m, dead)
    ensures ns in Pass(r.host, tables, r.calls, r.stage).tables
    ensures m in Pass(r.host, tables, r.calls, r.stage).tables[ns] <==> !Takes(r, tables, ns, m)
  {
    var holders, s := HoldersOf(r.host, tables, r.stage.Keys), Begun(r, tables);
    RoundTouchesContainers(r, tables, host, dead);
    RoundIsReady(r, tables, host, dead);
    if m.dev in r.stage {
      var k := HolderOf(r.host, tables, holders, r.stage.Keys, ns, m);
      HeldLeftIffNotTaken(r, tables, holders, k, dead);
    } else {
      forall k | 0 <= k < |holders| ensures holders[k].mount != m {
        assert HolderFits(r.host, tables, holders[k], r.stage.Keys);
      }
      BystanderStays(r.host, r.stage, holders, |holders|, s, dead, ns, m);
    }
  }

  lemma HolderOf(host: Host, tables: map<string, Table>, holders: seq<Holder>, dead: set<string>, ns: string, m: Mount) returns (k: nat)
    requires AllHeld(host, tables, holders, dead) && ns in VisibleSet(host) && ns in tables && m in tables[ns] && DeadFuse(m, dead)
    ensures k < |holders| && NsName(host, holders[k]) == ns && holders[k].mount == m
  {
    assert HeldAt(host, holders, ns, m);
    k :| 0 <= k < |holders| && NsOf(host.tasks, holders[k].pid) == Some(ns) && holders[k].mount == m;
  }

  lemma HeldLeftIffNotTaken(r: Round, tables: map<string, Table>, holders: seq<Holder>, k: nat, dead: set<string>)
    requires holders == HoldersOf(r.host, tables, r.stage.Keys) && k < |holders|
    requires Ready(r.host, r.stage, holders, Begun(r, tables), dead)
    ensures var ns, after := NsName(r.host, holders[k]), Pass(r.host, tables, r.calls, r.stage).tables;
            ns in after && (holders[k].mount in after[ns] <==> !Takes(r, tables, ns, holders[k].mount))
  {
    assert HolderFits(r.host, tables, holders[k], r.stage.Keys);
    StaysIffNotTaken(r.host, r.stage, holders, k, Begun(r, tables), dead);
    TakesAtItsTurn(r, tables, holders, k);
  }

  lemma HeldOnce(host: Host, tables: map<string, Table>, holders: seq<Holder>, dead: set<string>, j: nat, k: nat)
    requires AllHeld(host, tables, holders, dead) && j < |holders| && k < |holders|
    requires NsName(host, holders[j]) == NsName(host, holders[k]) && holders[j].mount == holders[k].mount
    ensures j == k
  {}

  /** The one holder of a mount is the only one whose turn can take it. */
  lemma TakesAtItsTurn(r: Round, tables: map<string, Table>, holders: seq<Holder>, k: nat)
    requires holders == HoldersOf(r.host, tables, r.stage.Keys) && k < |holders|
    requires AllHeld(r.host, tables, holders, r.stage.Keys)
    ensures Takes(r, tables, NsName(r.host, holders[k]), holders[k].mount)
            <==> r.host.hasHelper && TakenAt(r.host, r.stage, holders, k, Begun(r, tables))
  {
    forall j | 0 <= j < |holders| && NsName(r.host, holders[j]) == NsName(r.host, holders[k]) && holders[j].mount == holders[k].mount
      ensures j == k
    {
      HeldOnce(r.host, tables, holders, r.stage.Keys, j, k);
    }
  }

  /** The tables now, compared with those before: the dead mounts are apart, and none has come. */
  ghost predicate StillFit(host: Host, before: map<string, Table>, now: map<string, Table>, dead: set<string>) {
    && host.Sound(now) && AllScattered(host, now, dead) && now.Keys == before.Keys
    && forall ns, m | ns in VisibleSet(host) && ns in now && m in now[ns] && DeadFuse(m, dead) :: m in before[ns]
  }

  lemma RoundKeepsFit(r: Round, host: Host, before: map<string, Table>, now: map<string, Table>, dead: set<string>)
    requires RoundFits(r, host, dead) && StillFit(host, before, now, dead)
    ensures StillFit(host, before, After(r, now), dead)
  {
    StartFits(r, now, host, dead);
    RoundTouchesContainers(r, Start(r, now), host, dead);
  }

  /** The dead mounts stay apart through any number of rounds, and none comes to a container: so every
      pass starts as a pass may. */
  lemma {:induction false} RoundsKeepScattered(rounds: seq<Round>, states: seq<map<string, Table>>, n: nat, host: Host, dead: set<string>)
    requires IsRun(rounds, states) && n <= |rounds| && AllFit(rounds, host, dead)
    requires host.Sound(states[0]) && AllScattered(host, states[0], dead)
    ensures StillFit(host, states[0], states[n], dead)
  {
    if n > 0 {
      RoundsKeepScattered(rounds, states, n - 1, host, dead);
      assert states[n - 1 + 1] == After(rounds[n - 1], states[n - 1]);
      RoundKeepsFit(rounds[n - 1], host, states[0], states[n - 1], dead);
    }
  }

  lemma StartFits(r: Round, tables: map<string, Table>, host: Host, dead: set<string>)
    requires RoundFits(r, host, dead) && host.Sound(tables) && AllScattered(host, tables, dead)
    ensures VisibleSet(r.host) == VisibleSet(host) && host.own !in VisibleSet(host)
    ensures r.host.Sound(Start(r, tables)) && AllScattered(r.host, Start(r, tables), dead)
    ensures Start(r, tables).Keys == tables.Keys && forall ns | ns in VisibleSet(host) :: Start(r, tables)[ns] == tables[ns]
  {
    assert forall ns :: r.host.Visible(ns) <==> host.Visible(ns);
  }

  predicate There(tables: map<string, Table>, ns: string, m: Mount) { ns in tables && m in tables[ns] }

  /** A round decides about a mount that was there until it. */
  lemma RoundDecides(r: Round, host: Host, now: map<string, Table>, dead: set<string>, ns: string, m: Mount)
    requires RoundFits(r, host, dead) && host.Sound(now) && AllScattered(host, now, dead)
    requires ns in VisibleSet(host) && DeadFuse(m, dead)
    ensures There(After(r, now), ns, m) <==> There(now, ns, m) && !Takes(r, Start(r, now), ns, m)
  {
    StartFits(r, now, host, dead);
    RoundTouchesContainers(r, Start(r, now), host, dead);
    if m in now[ns] {
      RoundLeavesIffNotTaken(r, Start(r, now), host, dead, ns, m);
    }
  }

  /** None of the first n rounds takes the mount. */
  ghost predicate NeverTaken(rounds: seq<Round>, states: seq<map<string, Table>>, n: nat, ns: string, m: Mount)
    requires n <= |rounds| < |states|
  {
    forall i | 0 <= i < n :: !Takes(rounds[i], Start(rounds[i], states[i]), ns, m)
  }

  lemma OneRoundMore(rounds: seq<Round>, states: seq<map<string, Table>>, n: nat, ns: string, m: Mount)
    requires 0 < n <= |rounds| < |states|
    ensures NeverTaken(rounds, states, n, ns, m) <==>
            NeverTaken(rounds, states, n - 1, ns, m) && !Takes(rounds[n - 1], Start(rounds[n - 1], states[n - 1]), ns, m)
  {}

  /** Over any number of passes, a container is rid of a dead mount exactly when the umount2 of some turn
      took it. */
  lemma {:induction false} LeftIffNeverTaken(rounds: seq<Round>, states: seq<map<string, Table>>, n: nat, host: Host, dead: set<string>,
                                             ns: string, m: Mount)
    requires IsRun(rounds, states) && n <= |rounds| && AllFit(rounds, host, dead)
    requires host.Sound(states[0]) && AllScattered(host, states[0], dead)
    requires ns in VisibleSet(host) && There(states[0], ns, m) && DeadFuse(m, dead)
    ensures There(states[n], ns, m) <==> NeverTaken(rounds, states, n, ns, m)
  {
    if n > 0 {
      LeftIffNeverTaken(rounds, states, n - 1, host, dead, ns, m);
      RoundsKeepScattered(rounds, states, n - 1, host, dead);
      assert states[n - 1 + 1] == After(rounds[n - 1], states[n - 1]);
      RoundDecides(rounds[n - 1], host, states[n - 1], dead, ns, m);
      OneRoundMore(rounds, states, n, ns, m);
    }
  }

  /** After any number of passes no visible container holds a device exactly when each mount of it that
      they held was taken in one of them. */
  lemma NoHolderLeftIff(rounds: seq<Round>, states: seq<map<string, Table>>, n: nat, host: Host, dead: set<string>, d: string)
    requires IsRun(rounds, states) && n <= |rounds| && AllFit(rounds, host, dead) && d in dead
    requires host.Sound(states[0]) && AllScattered(host, states[0], dead)
    ensures HoldersOf(host, states[n], {d}) == []
            <==> forall ns, m | ns in VisibleSet(host) && There(states[0], ns, m) && DeadFuse(m, {d}) ::
                   !NeverTaken(rounds, states, n, ns, m)
  {
    RoundsKeepScattered(rounds, states, n, host, dead);
    forall ns, m | ns in VisibleSet(host) && There(states[0], ns, m) && DeadFuse(m, {d})
      ensures There(states[n], ns, m) <==> NeverTaken(rounds, states, n, ns, m)
      ensures There(states[n], ns, m) ==> HoldersOf(host, states[n], {d}) != []
    {
      assert DeadFuse(m, dead);
      LeftIffNeverTaken(rounds, states, n, host, dead, ns, m);
      FoundIffThere(host, states[n], {d}, ns, m);
    }
    if HoldersOf(host, states[n], {d}) != [] {
      var h := HoldersOf(host, states[n], {d})[0];
      var i := HolderSource(host, states[n], {d}, h);
      assert DeadFuse(h.mount, dead);
      assert There(states[0], host.tasks[i].ns, h.mount) && There(states[n], host.tasks[i].ns, h.mount);
    }
  }
}
