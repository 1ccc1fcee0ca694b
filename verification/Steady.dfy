/** Runs of heals, marks and graft passes (pkg/driver/supervisor.go, pkg/driver/graft.go): what each of them
    counts on, the ones before it have left that way. */
module Steadiness {
  import opened Keys
  import opened Mounts
  import opened Volumes
  import opened Hosts
  import opened Grafting
  import opened Healing
  import opened Supervision
  import opened Shortfalls

  /** The node's own table is fit for healing any volume: the paths of each are all different, none above
      another, mounted on at most once and with nothing below its staging path; those of two volumes are
      beside each other; and every remembered device is broken. */
  ghost predicate NodeFit(own: Table, broken: set<string>, vols: Vols) {
    && DeadOf(vols) <= broken
    && (forall id | id in vols :: VolumeFits(own, vols[id]))
    && forall a, b | a in vols && b in vols && a != b :: AllBeside(PathsOf(vols[a]), PathsOf(vols[b]))
  }

  ghost predicate VolumeFits(own: Table, v: Volume) {
    && Distinct(PointOf(v.stagePath), PointsOf(v.publishes)) && Separate(own, PathsOf(v))
    && BareBelow(own, PointOf(v.stagePath))
  }

  ghost predicate BareBelow(own: Table, p: Path) {
    forall m | m in own && p <= m.point :: m.point == p
  }

  ghost predicate AllBeside(ps: set<Path>, qs: set<Path>) {
    forall p, q | p in ps && q in qs :: !(p <= q)
  }

  /** What every operation counts on. */
  ghost predicate Steady(host: Host, tables: map<string, Table>, vols: Vols) {
    host.Sound(tables) && NodeFit(tables[host.own], host.broken, vols) && AllScattered(host, tables, DeadOf(vols))
  }

  lemma StagingBeside(own: Table, broken: set<string>, vols: Vols, a: string, b: string)
    requires NodeFit(own, broken, vols) && a in vols && b in vols && a != b
    ensures Beside(PathsOf(vols[a]), PointOf(vols[b].stagePath)) && PointOf(vols[b].stagePath) in PathsOf(vols[b])
  {
    assert AllBeside(PathsOf(vols[a]), PathsOf(vols[b])) && AllBeside(PathsOf(vols[b]), PathsOf(vols[a]));
  }

  /** A graft pass may start. */
  lemma SteadyIsFitForPass(host: Host, tables: map<string, Table>, vols: Vols)
    requires Steady(host, tables, vols)
    ensures PassFit(host, tables, vols, DeadOf(vols))
  {
    forall id, d | id in vols && d in vols[id].dead
      ensures Fit(tables[host.own], host.broken, PointOf(vols[id].stagePath), DeadOf(vols))
    {
      assert VolumeFits(tables[host.own], vols[id]) && BareBelow(tables[host.own], PointOf(vols[id].stagePath));
    }
  }

  /** And so may the heal of a volume whose mount is dead, with a mounter that brings up a device that works;
      the containers' mounts of the corpse's device are apart from the other dead ones. */
  lemma SteadyIsFitForHeal(host: Host, tables: map<string, Table>, vols: Vols, id: string, remount: Option<string>)
    requires Steady(host, tables, vols) && id in vols
    requires var corpse := DeviceAt(tables[host.own], PointOf(vols[id].stagePath));
             && (corpse == "" || corpse in host.broken)
             && AllScattered(host, tables, DeadOf(Do(vols, MarkDead(id, corpse))))
    requires remount.Some? ==> remount.value !in host.broken
    ensures HealFit(host, tables, vols, id, vols[id], remount)
  {
    var own, p := tables[host.own], PointOf(vols[id].stagePath);
    var marked := Do(vols, MarkDead(id, DeviceAt(own, p)));
    assert VolumeFits(own, vols[id]) && BareBelow(own, p);
    MarkedIsBroken(vols, id, DeviceAt(own, p), host.broken);
    forall other | other in marked && PointOf(marked[other].stagePath) != p
      ensures Fit(own, host.broken, PointOf(marked[other].stagePath), DeadOf(marked)) && Beside(PathsOf(vols[id]), PointOf(marked[other].stagePath))
    {
      SameMounts(vols, id, DeviceAt(own, p), other);
      StagingBeside(own, host.broken, vols, id, other);
      assert VolumeFits(own, vols[other]) && BareBelow(own, PointOf(vols[other].stagePath));
    }
  }

  lemma MarkedIsBroken(vols: Vols, id: string, dev: string, broken: set<string>)
    requires DeadOf(vols) <= broken && (dev == "" || dev in broken)
    ensures DeadOf(Do(vols, MarkDead(id, dev))) <= broken
  {
    var marked := Do(vols, MarkDead(id, dev));
    forall other, d | other in marked && d in marked[other].dead ensures d in broken {
      assert d in vols[other].dead ==> d in DeadOf(vols);
    }
  }

  /** Marking and forgetting devices leaves the paths of a volume as they are. */
  lemma SameMounts(vols: Vols, id: string, dev: string, other: string)
    requires other in vols
    ensures var marked := Do(vols, MarkDead(id, dev));
            marked.Keys == vols.Keys && marked[other].stagePath == vols[other].stagePath && marked[other].publishes == vols[other].publishes
  {}

  /** Volumes with the same paths and no device remembered that is not broken are as fit. */
  lemma FitIsOfPaths(own: Table, broken: set<string>, vols: Vols, vols': Vols)
    requires NodeFit(own, broken, vols) && DeadOf(vols') <= broken && vols'.Keys == vols.Keys
    requires forall id | id in vols :: vols'[id].stagePath == vols[id].stagePath && vols'[id].publishes == vols[id].publishes
    ensures NodeFit(own, broken, vols')
  {
    forall id | id in vols' ensures VolumeFits(own, vols'[id]) {
      assert VolumeFits(own, vols[id]);
    }
    forall a, b | a in vols' && b in vols' && a != b ensures AllBeside(PathsOf(vols'[a]), PathsOf(vols'[b])) {
      assert AllBeside(PathsOf(vols[a]), PathsOf(vols[b]));
    }
  }

  lemma FewerScattered(host: Host, tables: map<string, Table>, dead: set<string>, fewer: set<string>)
    requires AllScattered(host, tables, dead) && fewer <= dead
    ensures AllScattered(host, tables, fewer)
  {
    forall ns | ns in VisibleSet(host) ensures ns in tables && Scattered(tables[ns], fewer) {
      FewerAreScattered(tables[ns], dead, fewer);
    }
  }

  // ---- Each operation keeps it ----

  lemma MarkKeepsSteady(host: Host, tables: map<string, Table>, vols: Vols, id: string, dev: string)
    requires Steady(host, tables, vols) && (dev == "" || dev in host.broken)
    requires AllScattered(host, tables, DeadOf(Do(vols, MarkDead(id, dev))))
    ensures Steady(host, tables, Do(vols, MarkDead(id, dev)))
  {
    MarkedIsBroken(vols, id, dev, host.broken);
    forall other | other in vols
      ensures var marked := Do(vols, MarkDead(id, dev));
              marked[other].stagePath == vols[other].stagePath && marked[other].publishes == vols[other].publishes
    {
      SameMounts(vols, id, dev, other);
    }
    FitIsOfPaths(tables[host.own], host.broken, vols, Do(vols, MarkDead(id, dev)));
  }

  lemma PassKeepsSteady(host: Host, tables: map<string, Table>, calls: nat, vols: Vols, stage: map<string, Path>)
    requires Steady(host, tables, vols) && stage.Keys == DeadOf(vols) && StagesOf(vols, stage)
    ensures var pass := Pass(host, tables, calls, stage); Steady(host, pass.tables, Do(vols, ForgetDead(pass.keep)))
  {
    var pass := Pass(host, tables, calls, stage);
    SteadyIsFitForPass(host, tables, vols);
    StagesAreFit(host, tables, vols, stage);
    PassTouchesContainers(host, tables, calls, stage);
    FewerRemembered(vols, pass.keep);
    FewerScattered(host, pass.tables, DeadOf(vols), DeadOf(Do(vols, ForgetDead(pass.keep))));
    FitIsOfPaths(tables[host.own], host.broken, vols, Do(vols, ForgetDead(pass.keep)));
  }

  lemma PassTouchesContainers(host: Host, tables: map<string, Table>, calls: nat, stage: map<string, Path>)
    requires host.Sound(tables) && AllScattered(host, tables, stage.Keys)
    requires forall d | d in stage :: Fit(tables[host.own], host.broken, stage[d], stage.Keys)
    ensures OnlyContainers(host, tables, Pass(host, tables, calls, stage).tables, stage.Keys)
  {
    var holders := HoldersOf(host, tables, stage.Keys);
    HoldersAreAllHeld(host, tables, stage.Keys);
    AllStand(host, stage, holders, |holders|, Progress(tables, calls, ProbedDead(host, tables, stage)), stage.Keys);
  }

  lemma FewerRemembered(vols: Vols, keep: set<string>)
    ensures DeadOf(Do(vols, ForgetDead(keep))) <= DeadOf(vols)
  {
    forall id | id in vols ensures forall d | d in Within(vols[id].dead, keep) :: d in vols[id].dead {
      WithinKeeps(vols[id].dead, keep);
    }
  }

  /** A heal leaves the node's table fit, for the volume it healed and for the others. */
  lemma HealKeepsNodeFit(before: Table, table: Table, broken: set<string>, vols: Vols, id: string, dev: string, fstype: string, binds: nat -> bool)
    requires NodeFit(before, broken, vols) && id in vols && NodeHealed(before, table, vols[id], dev, fstype, binds)
    ensures NodeFit(table, broken, vols)
  {
    assert VolumeFits(before, vols[id]);
    forall other | other in vols ensures VolumeFits(table, vols[other]) {
      assert VolumeFits(before, vols[other]) && BareBelow(before, PointOf(vols[other].stagePath));
      if other != id {
        assert AllBeside(PathsOf(vols[id]), PathsOf(vols[other])) && AllBeside(PathsOf(vols[other]), PathsOf(vols[id]));
      }
      TidyVolumeFits(before, table, PathsOf(vols[id]), vols[other], other == id);
    }
  }

  /** So does one whose remount failed. */
  lemma FailedHealKeepsNodeFit(before: Table, table: Table, broken: set<string>, vols: Vols, id: string)
    requires NodeFit(before, broken, vols) && id in vols && Detached(before, table, PathsOf(vols[id]), PathsOf(vols[id]))
    ensures NodeFit(table, broken, vols)
  {
    forall other | other in vols ensures VolumeFits(table, vols[other]) {
      assert VolumeFits(before, vols[other]) && BareBelow(before, PointOf(vols[other].stagePath));
    }
  }

  lemma TidyVolumeFits(before: Table, table: Table, ps: set<Path>, v: Volume, same: bool)
    requires VolumeFits(before, v) && Unnested(ps) && Tidy(before, table, ps)
    requires forall m | m in table :: m in before || m.point in ps
    requires if same then PathsOf(v) == ps else AllBeside(ps, PathsOf(v)) && AllBeside(PathsOf(v), ps)
    ensures VolumeFits(table, v)
  {
    var stage := PointOf(v.stagePath);
    assert stage in PathsOf(v) && BareBelow(before, stage);
    forall q | q in PathsOf(v) ensures Unstacked(table, q) {
      assert Unstacked(before, q);
    }
    forall m | m in table && stage <= m.point ensures m.point == stage {
      assert m in before || m.point in ps;
    }
  }

  // ---- Any run ----

  /** What the supervisor does next, and what NodeStage or NodePublish may do between: a graft pass, a dead
      device remembered, the mounts of a heal, made again or not. */
  datatype Move =
    | Grafts(calls: nat, stage: map<string, Path>)
    | Marks(id: string, dev: string)
    | Remounts(id: string, own: Table, dev: string, fstype: string, binds: nat -> bool)
    | FailsToRemount(id: string, own: Table)

  datatype State = State(tables: map<string, Table>, vols: Vols)

  ghost predicate Allowed(host: Host, s: State, m: Move) {
    match m
    case Grafts(calls, stage) => stage.Keys == DeadOf(s.vols) && StagesOf(s.vols, stage)
    case Marks(id, dev) =>
      (dev == "" || dev in host.broken) && AllScattered(host, s.tables, DeadOf(Do(s.vols, MarkDead(id, dev))))
    case Remounts(id, own, dev, fstype, binds) =>
      host.own in s.tables && id in s.vols && NodeHealed(s.tables[host.own], own, s.vols[id], dev, fstype, binds)
    case FailsToRemount(id, own) =>
      host.own in s.tables && id in s.vols && Detached(s.tables[host.own], own, PathsOf(s.vols[id]), PathsOf(s.vols[id]))
  }

  ghost function Next(host: Host, s: State, m: Move): State {
    match m
    case Grafts(calls, stage) =>
      var pass := Pass(host, s.tables, calls, stage);
      State(pass.tables, Do(s.vols, ForgetDead(pass.keep)))
    case Marks(id, dev) => s.(vols := Do(s.vols, MarkDead(id, dev)))
    case Remounts(_, own, _, _, _) => s.(tables := s.tables[host.own := own])
    case FailsToRemount(_, own) => s.(tables := s.tables[host.own := own])
  }

  lemma MoveKeepsSteady(host: Host, s: State, m: Move)
    requires Steady(host, s.tables, s.vols) && Allowed(host, s, m)
    ensures Steady(host, Next(host, s, m).tables, Next(host, s, m).vols)
  {
    match m
    case Grafts(calls, stage) => PassKeepsSteady(host, s.tables, calls, s.vols, stage);
    case Marks(id, dev) => MarkKeepsSteady(host, s.tables, s.vols, id, dev);
    case Remounts(id, own, dev, fstype, binds) =>
      HealKeepsNodeFit(s.tables[host.own], own, host.broken, s.vols, id, dev, fstype, binds);
      OwnTableAlone(host, s.tables, own, DeadOf(s.vols));
    case FailsToRemount(id, own) =>
      FailedHealKeepsNodeFit(s.tables[host.own], own, host.broken, s.vols, id);
      OwnTableAlone(host, s.tables, own, DeadOf(s.vols));
  }

  lemma OwnTableAlone(host: Host, tables: map<string, Table>, own: Table, dead: set<string>)
    requires host.Sound(tables) && AllScattered(host, tables, dead)
    ensures host.Sound(tables[host.own := own]) && AllScattered(host, tables[host.own := own], dead)
  {
    assert host.own !in VisibleSet(host);
  }

  /** Between two moves more mounters may have died; the processes are the same. */
  ghost predicate Later(host: Host, host': Host) {
    host'.own == host.own && host'.init == host.init && host'.tasks == host.tasks && host.broken <= host'.broken
  }

  lemma StaysSteady(host: Host, host': Host, tables: map<string, Table>, vols: Vols)
    requires Steady(host, tables, vols) && Later(host, host')
    ensures Steady(host', tables, vols)
  {
    assert forall ns :: host'.Visible(ns) <==> host.Visible(ns);
    assert VisibleSet(host') == VisibleSet(host);
  }

  ghost predicate IsStep(host: Host, s: State, m: Move, host': Host, s': State) {
    Allowed(host, s, m) && s' == Next(host, s, m) && Later(host, host')
  }

  lemma StepKeepsSteady(host: Host, s: State, m: Move, host': Host, s': State)
    requires Steady(host, s.tables, s.vols) && IsStep(host, s, m, host', s')
    ensures Steady(host', s'.tables, s'.vols)
  {
    MoveKeepsSteady(host, s, m);
    StaysSteady(host, host', s'.tables, s'.vols);
  }

  ghost predicate IsRun(hosts: seq<Host>, states: seq<State>, moves: seq<Move>) {
    && |states| == |moves| + 1 && |hosts| == |states|
    && forall i | 0 <= i < |moves| :: IsStep(hosts[i], states[i], moves[i], hosts[i + 1], states[i + 1])
  }

  /** In every state of every run of passes, marks and heals that starts steady, each operation finds what it
      counts on: passes are sound, and heals restore the node's view. */
  lemma {:induction false} EveryStateIsSteady(hosts: seq<Host>, states: seq<State>, moves: seq<Move>, n: nat)
    requires IsRun(hosts, states, moves) && n < |states| && Steady(hosts[0], states[0].tables, states[0].vols)
    ensures Steady(hosts[n], states[n].tables, states[n].vols)
  {
    if n > 0 {
      EveryStateIsSteady(hosts, states, moves, n - 1);
      assert IsStep(hosts[n - 1], states[n - 1], moves[n - 1], hosts[n - 1 + 1], states[n - 1 + 1]);
      StepKeepsSteady(hosts[n - 1], states[n - 1], moves[n - 1], hosts[n], states[n]);
    }
  }

  /** Any pass over the remembered devices may come next, any dead device be marked whose mounts are apart from
      the other dead ones, and any heal of a volume, made again or not, that leaves its paths as a heal does. */
  lemma MovesAre(host: Host, s: State, calls: nat, stage: map<string, Path>, id: string, own: Table, dev: string,
                 fstype: string, binds: nat -> bool)
    ensures stage.Keys == DeadOf(s.vols) && StagesOf(s.vols, stage) ==>
              Allowed(host, s, Grafts(calls, stage))
    ensures dev in host.broken && AllScattered(host, s.tables, DeadOf(Do(s.vols, MarkDead(id, dev)))) ==>
              Allowed(host, s, Marks(id, dev))
    ensures host.own in s.tables && id in s.vols && NodeHealed(s.tables[host.own], own, s.vols[id], dev, fstype, binds) ==>
              Allowed(host, s, Remounts(id, own, dev, fstype, binds))
    ensures host.own in s.tables && id in s.vols && Detached(s.tables[host.own], own, PathsOf(s.vols[id]), PathsOf(s.vols[id])) ==>
              Allowed(host, s, FailsToRemount(id, own))
    ensures Next(host, s, Marks(id, dev)) == State(s.tables, Do(s.vols, MarkDead(id, dev)))
    ensures Next(host, s, Remounts(id, own, dev, fstype, binds)) == State(s.tables[host.own := own], s.vols)
    ensures Next(host, s, FailsToRemount(id, own)) == State(s.tables[host.own := own], s.vols)
    ensures var pass := Pass(host, s.tables, calls, stage);
            Next(host, s, Grafts(calls, stage)) == State(pass.tables, Do(s.vols, ForgetDead(pass.keep)))
  {}

  /** A run goes on with any move that is allowed. */
  lemma RunsGoOn(hosts: seq<Host>, states: seq<State>, moves: seq<Move>, host: Host, m: Move)
    requires IsRun(hosts, states, moves) && Allowed(hosts[|moves|], states[|moves|], m) && Later(hosts[|moves|], host)
    ensures IsRun(hosts + [host], states + [Next(hosts[|moves|], states[|moves|], m)], moves + [m])
  {
    var hosts', states', moves' := hosts + [host], states + [Next(hosts[|moves|], states[|moves|], m)], moves + [m];
    forall i | 0 <= i < |moves'| ensures IsStep(hosts'[i], states'[i], moves'[i], hosts'[i + 1], states'[i + 1]) {
      if i < |moves| {
        assert IsStep(hosts[i], states[i], moves[i], hosts[i + 1], states[i + 1]);
      }
    }
  }

  lemma OneDead(v: Volume)
    requires v.dead == ["0:52"]
    ensures DeadOf(map["a" := v]) == {"0:52"}
  {
    var vols := map["a" := v];
    assert "a" in vols && v.dead[0] == "0:52";
    forall d ensures d in DeadOf(vols) <==> d == "0:52" {
      if d == "0:52" {
        assert "a" in vols && d in vols["a"].dead;
      }
    }
  }

  /** Such a node: a volume healed once, its dead device remembered, and one container that holds it. */
  lemma HealedNodeIsSteady(host: Host, v: Volume)
    requires OneContainer(host) && PointOf(v.stagePath) == ["stage"] && v.publishes == [] && v.dead == ["0:52"]
    ensures Steady(host, Tables([ROOT, HEALED], [CORPSE]), map["a" := v])
    ensures IsRun([host], [State(Tables([ROOT, HEALED], [CORPSE]), map["a" := v])], [])
  {
    var own, pod, vols := [ROOT, HEALED], [CORPSE], map["a" := v];
    assert PointsOf(v.publishes) == [] && PathsOf(v) == {["stage"]};
    OneDead(v);
    assert [] + [ROOT] + [HEALED] == own && [] + [CORPSE] == pod;
    UnstackedAppend([], ROOT, ["stage"]);
    UnstackedAppend([] + [ROOT], HEALED, ["stage"]);
    assert Scattered([CORPSE], {"0:52"}) by { assert [CORPSE][..0] == []; }
    assert VisibleSet(host) <= {"pod"};
    assert VolumeFits(own, v);
  }
}
