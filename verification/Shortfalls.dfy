/** Where a graft pass falls short of what is documented: a failed graft that is not retried, and a graft
    of a staging path that shows no volume (pkg/driver/graft.go). */
module Shortfalls {
  import opened Keys
  import opened Mounts
  import opened Holders
  import opened Hosts
  import opened Grafting
  import opened Volumes

  /** The mount around everything, the healed staging mount, and the dead one a container holds. */
  const ROOT := Mount("8:1", [], [], 0, "ext4")
  const HEALED := Mount("0:60", [], ["stage"], 0, "fuse.geesefs")
  const CORPSE := Mount("0:52", [], ["data"], 0, "fuse.geesefs")
  const STAGE: map<string, Path> := map["0:52" := ["stage"]]

  /** A node with one container. */
  ghost predicate OneContainer(host: Host) {
    && host.own == "plugin" && host.init == "node" && host.tasks == [Task(7, "pod", true)]
    && host.hasHelper && host.broken == {"0:52"}
  }

  function Tables(own: Table, pod: Table): map<string, Table> {
    map["plugin" := own, "pod" := pod]
  }

  lemma ContainerSpeaks(host: Host, own: Table, pod: Table)
    requires OneContainer(host)
    ensures HoldersOf(host, Tables(own, pod), {"0:52"}) == Held(7, pod, {"0:52"})
  {
    var proc := host.Proc(Tables(own, pod));
    assert proc.entries[0] == Process(Some(7), Some("pod"), Some(pod));
    assert Speaks(proc, 0) && HeldBySpeakers(proc, 0, {"0:52"}) == [];
  }

  /** What the staging path shows, put at target. */
  function CloneAt(own: Table, target: Path): Mount
    requires Holding(own, ["stage"]).Some? && Holding(own, ["stage"]).value.point <= ["stage"]
  {
    CloneOf(Holding(own, ["stage"]).value, ["stage"], 0, target)
  }

  /** The container's table, the helper calls and the devices kept back after one call for target. */
  function PodAfter(goes: Helper, own: Table, pod: Table, target: Path, calls: nat): Progress
    requires Holding(own, ["stage"]).Some? && Holding(own, ["stage"]).value.point <= ["stage"]
  {
    match goes
    case StopsShort => Progress(Tables(own, pod), calls + 1, {"0:52"})
    case Enters(detaches, moves) =>
      var left := if detaches then Detach(pod, target) else pod;
      if moves then Progress(Tables(own, left + [CloneAt(own, target)]), calls + 1, {})
      else Progress(Tables(own, left), calls + 1, {"0:52"})
  }

  lemma PodTurn(host: Host, own: Table, pod: Table, m: Mount, calls: nat)
    requires OneContainer(host) && Holding(own, ["stage"]).Some? && m.dev == "0:52" && m.root == [] && m.bits == 0
    ensures Holding(own, ["stage"]).value.point <= ["stage"]
    ensures Turn(host, STAGE, Holder(7, m), Progress(Tables(own, pod), calls, {})) ==
            PodAfter(host.helper(calls), own, pod, m.point, calls)
  {
    var s, p := Progress(Tables(own, pod), calls, {}), ["stage"];
    HoldingIsAbove(own, p);
    assert p + m.root == p && NsOf(host.tasks, 7) == Some("pod") && Kept(m.bits) == 0;
    assert Attempt(host, STAGE, Holder(7, m), s) == host.Run(s.tables, host.helper(calls), 7, p, m.point, 0);
    assert forall t: Table :: s.tables["pod" := t] == Tables(own, t);
    assert {} + {"0:52"} == {"0:52"};
  }

  /** A pass over the one container, its staging answering. */
  lemma PodPass(host: Host, own: Table, pod: Table, calls: nat)
    requires OneContainer(host) && Holding(own, ["stage"]).Some? && Holding(own, ["stage"]).value.dev != "0:52"
    ensures var s, holders := Progress(Tables(own, pod), calls, {}), Held(7, pod, {"0:52"});
            Pass(host, s.tables, calls, STAGE) == Turns(host, STAGE, holders, |holders|, s)
  {
    ContainerSpeaks(host, own, pod);
    assert STAGE.Keys == {"0:52"} && ProbedDead(host, Tables(own, pod), STAGE) == {};
  }

  lemma HeldAppend(pod: Table, m: Mount)
    ensures Held(7, pod + [m], {"0:52"}) == Held(7, pod, {"0:52"}) + if DeadFuse(m, {"0:52"}) then [Holder(7, m)] else []
  {
    assert (pod + [m])[..|pod|] == pod;
  }

  /** A pass when the corpse is all the container has. */
  lemma CorpsePass(host: Host, own: Table, calls: nat)
    requires OneContainer(host) && Holding(own, ["stage"]).Some? && Holding(own, ["stage"]).value.dev != "0:52"
    ensures Holding(own, ["stage"]).value.point <= ["stage"]
    ensures Pass(host, Tables(own, [CORPSE]), calls, STAGE) == PodAfter(host.helper(calls), own, [CORPSE], ["data"], calls)
    ensures Detach([CORPSE], ["data"]) == []
  {
    var s := Progress(Tables(own, [CORPSE]), calls, {});
    PodPass(host, own, [CORPSE], calls);
    HeldAppend([], CORPSE);
    assert [] + [CORPSE] == [CORPSE];
    assert Turns(host, STAGE, [Holder(7, CORPSE)], 0, s) == s;
    PodTurn(host, own, [CORPSE], CORPSE, calls);
  }

  /** A graft whose helper fails after its umount2: the device is kept back, but the next pass finds no
      holder of it and forgets it, and where the container had the volume there is nothing mounted. */
  lemma FailedGraftIsForgotten(host: Host, v: Volume)
    requires OneContainer(host) && host.helper(0) == Enters(true, false) && v.dead == ["0:52"]
    ensures var first := Pass(host, Tables([ROOT, HEALED], [CORPSE]), 0, STAGE);
            var second := Pass(host, first.tables, first.calls, STAGE);
            var kept := Do(map["a" := v], ForgetDead(first.keep));
            && first.keep == {"0:52"} && second == Progress(Tables([ROOT, HEALED], []), 1, {})
            && Remembers(kept, "0:52") && Forgotten(kept, second.keep, "0:52")
  {
    var own := [ROOT, HEALED];
    var vols := map["a" := v];
    assert Holding(own, ["stage"]) == Some(HEALED);
    CorpsePass(host, own, 0);
    PodPass(host, own, [], 1);
    assert "0:52" in vols["a"].dead;
    ForgottenExactly(vols, {"0:52"}, "0:52");
    ForgottenExactly(Do(vols, ForgetDead({"0:52"})), {}, "0:52");
  }

  /** A graft whose umount2 fails: the helper goes on and answers that it worked, the device is forgotten,
      and the container holds it still, under the clone. */
  lemma CoveredCorpseIsForgotten(host: Host, v: Volume)
    requires OneContainer(host) && host.helper(0) == Enters(false, true) && v.dead == ["0:52"]
    ensures var own, pod := [ROOT, HEALED], [CORPSE, CloneOf(HEALED, ["stage"], 0, ["data"])];
            && Pass(host, Tables(own, [CORPSE]), 0, STAGE) == Progress(Tables(own, pod), 1, {})
            && Forgotten(map["a" := v], {}, "0:52") && Holder(7, CORPSE) in HoldersOf(host, Tables(own, pod), {"0:52"})
  {
    var own, pod := [ROOT, HEALED], [CORPSE, CloneOf(HEALED, ["stage"], 0, ["data"])];
    assert Holding(own, ["stage"]) == Some(HEALED);
    CorpsePass(host, own, 0);
    assert [CORPSE] + [CloneAt(own, ["data"])] == pod;
    ContainerSpeaks(host, own, pod);
    HeldExactly(7, pod, {"0:52"}, Holder(7, CORPSE));
    assert "0:52" in map["a" := v]["a"].dead;
    ForgottenExactly(map["a" := v], {}, "0:52");
  }

  /** A second mount that the container has of the dead device, and the clones of a graft over each. */
  const CORPSE2 := Mount("0:52", [], ["logs"], 0, "fuse.geesefs")
  const CLONE := Mount("0:60", [], ["data"], 0, "fuse.geesefs")
  const CLONE2 := Mount("0:60", [], ["logs"], 0, "fuse.geesefs")

  /** Detaching beside the first mount, and at the clone over it. */
  lemma DetachCovered()
    ensures Detach([CORPSE, CORPSE2, CLONE], ["data"]) == [CORPSE, CORPSE2]
    ensures Detach([CORPSE, CORPSE2, CLONE], ["logs"]) == [CORPSE, CLONE]
  {
    assert ["data"][0] != ["logs"][0];
    assert [CORPSE, CORPSE2, CLONE] == [CORPSE] + [CORPSE2] + [CLONE];
    DetachAppend([CORPSE] + [CORPSE2], CLONE, ["data"]);
    DetachAppend([CORPSE] + [CORPSE2], CLONE, ["logs"]);
    DetachAppend([CORPSE], CORPSE2, ["logs"]);
  }

  lemma BothHeld()
    ensures Held(7, [CORPSE, CORPSE2], {"0:52"}) == [Holder(7, CORPSE), Holder(7, CORPSE2)]
    ensures Held(7, [CORPSE, CORPSE2, CLONE], {"0:52"}) == [Holder(7, CORPSE), Holder(7, CORPSE2)]
    ensures Held(7, [CORPSE, CLONE, CLONE2], {"0:52"}) == [Holder(7, CORPSE)]
  {
    assert [CORPSE] == [] + [CORPSE] && [CORPSE, CORPSE2] == [CORPSE] + [CORPSE2];
    assert [CORPSE, CORPSE2, CLONE] == [CORPSE, CORPSE2] + [CLONE];
    assert [CORPSE, CLONE, CLONE2] == [CORPSE] + [CLONE] + [CLONE2];
    HeldAppend([], CORPSE);
    HeldAppend([CORPSE], CORPSE2);
    HeldAppend([CORPSE, CORPSE2], CLONE);
    HeldAppend([CORPSE], CLONE);
    HeldAppend([CORPSE] + [CLONE], CLONE2);
  }

  /** A pass over both mounts is a turn for each. */
  lemma BothTurns(host: Host, own: Table, pod: Table, calls: nat)
    requires OneContainer(host) && Holding(own, ["stage"]) == Some(HEALED)
    requires Held(7, pod, {"0:52"}) == [Holder(7, CORPSE), Holder(7, CORPSE2)]
    ensures Pass(host, Tables(own, pod), calls, STAGE) ==
            Turn(host, STAGE, Holder(7, CORPSE2), Turn(host, STAGE, Holder(7, CORPSE), Progress(Tables(own, pod), calls, {})))
  {
    var s, holders := Progress(Tables(own, pod), calls, {}), [Holder(7, CORPSE), Holder(7, CORPSE2)];
    PodPass(host, own, pod, calls);
    assert Turns(host, STAGE, holders, 0, s) == s;
    assert Turns(host, STAGE, holders, 1, s) == Turn(host, STAGE, Holder(7, CORPSE), s);
  }

  /** The first pass covers the first mount, and its helper then stops short at the second. */
  lemma CoveringPass(host: Host)
    requires OneContainer(host) && host.helper(0) == Enters(false, true) && host.helper(1) == StopsShort
    ensures Pass(host, Tables([ROOT, HEALED], [CORPSE, CORPSE2]), 0, STAGE)
            == Progress(Tables([ROOT, HEALED], [CORPSE, CORPSE2, CLONE]), 2, {"0:52"})
  {
    var own := [ROOT, HEALED];
    assert Holding(own, ["stage"]) == Some(HEALED);
    BothHeld();
    BothTurns(host, own, [CORPSE, CORPSE2], 0);
    PodTurn(host, own, [CORPSE, CORPSE2], CORPSE, 0);
    assert CloneAt(own, ["data"]) == CLONE && [CORPSE, CORPSE2] + [CLONE] == [CORPSE, CORPSE2, CLONE];
    PodTurn(host, own, [CORPSE, CORPSE2, CLONE], CORPSE2, 1);
  }

  /** In the second every umount2 works, but at the first mount it takes the clone. */
  lemma RetryingPass(host: Host)
    requires OneContainer(host) && host.helper(2) == Enters(true, true) && host.helper(3) == Enters(true, true)
    ensures Pass(host, Tables([ROOT, HEALED], [CORPSE, CORPSE2, CLONE]), 2, STAGE)
            == Progress(Tables([ROOT, HEALED], [CORPSE, CLONE, CLONE2]), 4, {})
  {
    var own := [ROOT, HEALED];
    assert Holding(own, ["stage"]) == Some(HEALED);
    BothHeld();
    DetachCovered();
    BothTurns(host, own, [CORPSE, CORPSE2, CLONE], 2);
    PodTurn(host, own, [CORPSE, CORPSE2, CLONE], CORPSE, 2);
    assert CloneAt(own, ["data"]) == CLONE && [CORPSE, CORPSE2] + [CLONE] == [CORPSE, CORPSE2, CLONE];
    PodTurn(host, own, [CORPSE, CORPSE2, CLONE], CORPSE2, 3);
    assert CloneAt(own, ["logs"]) == CLONE2 && [CORPSE, CLONE] + [CLONE2] == [CORPSE, CLONE, CLONE2];
  }

  /** Two passes over a container that has the device twice: the first covers one mount and fails on the
      other; in the second every helper works, umount2 and all, and the device is forgotten with the
      covered mount still held. */
  lemma CoveredCorpseOutlivesTheRetry(host: Host, v: Volume)
    requires OneContainer(host) && host.helper(0) == Enters(false, true) && host.helper(1) == StopsShort
    requires host.helper(2) == Enters(true, true) && host.helper(3) == Enters(true, true) && v.dead == ["0:52"]
    ensures var first := Pass(host, Tables([ROOT, HEALED], [CORPSE, CORPSE2]), 0, STAGE);
            var second := Pass(host, first.tables, first.calls, STAGE);
            && first.keep == {"0:52"} && second.keep == {} && Forgotten(map["a" := v], second.keep, "0:52")
            && Holder(7, CORPSE) in HoldersOf(host, second.tables, {"0:52"})
  {
    CoveringPass(host);
    RetryingPass(host);
    BothHeld();
    ContainerSpeaks(host, [ROOT, HEALED], [CORPSE, CLONE, CLONE2]);
    assert "0:52" in map["a" := v]["a"].dead;
    ForgottenExactly(map["a" := v], {}, "0:52");
  }

  // ---- A staging path that shows no volume ----

  /** The container finds, where it had h, the filesystem that is mounted at the staging path. */
  ghost predicate ShowsVolume(own: Table, p: Path, h: Mount, table: Table) {
    exists v :: v in own && v.point == p && Holding(table, h.point).Some? && Holding(table, h.point).value.dev == v.dev
  }

  /** A container that had a forgotten device shows the volume exactly when the staging path was a mount
      point at the pass: the probe of a bare directory answers too, and then the host's directory is
      grafted. No filesystem mounted at the staging path is mounted above it as well. */
  lemma GraftShowsVolumeIff(own: Table, p: Path, h: Mount, table: Table)
    requires Grafted(own, p, h, table)
    requires forall v, x | v in own && x in own && v.point == p && x.dev == v.dev && x.point <= p :: x.point == p
    ensures ShowsVolume(own, p, h, table) <==> MountedAt(own, p)
  {
    HoldingIsAbove(own, p);
  }

  /** So for every device that a pass forgets, and every mount of it that a container held. */
  lemma ForgottenShowsVolumeIff(host: Host, tables: map<string, Table>, calls: nat, stage: map<string, Path>, d: string, ns: string, m: Mount)
    requires host.Sound(tables) && AllScattered(host, tables, stage.Keys)
    requires forall d | d in stage :: Fit(tables[host.own], host.broken, stage[d], stage.Keys)
    requires d in stage && d !in Pass(host, tables, calls, stage).keep
    requires ns in VisibleSet(host) && ns in Pass(host, tables, calls, stage).tables && m in tables[ns] && DeadFuse(m, {d})
    requires forall v, x | v in tables[host.own] && x in tables[host.own] && v.point == stage[d] && x.dev == v.dev
                           && x.point <= stage[d] :: x.point == stage[d]
    ensures ShowsVolume(tables[host.own], stage[d], m, Pass(host, tables, calls, stage).tables[ns])
            <==> MountedAt(tables[host.own], stage[d])
  {
    PassReplaces(host, tables, calls, stage, d);
    GraftShowsVolumeIff(tables[host.own], stage[d], m, Pass(host, tables, calls, stage).tables[ns]);
  }

  /** So it goes after a heal whose remount failed, with the device still remembered: the container gets
      the host's empty directory, and the device is forgotten. */
  lemma BareStagingIsGrafted(host: Host, v: Volume)
    requires OneContainer(host) && host.helper(0) == Enters(true, true) && v.dead == ["0:52"]
    ensures var own, vols := [ROOT], map["a" := v];
            var pass := Pass(host, Tables(own, [CORPSE]), 0, STAGE);
            && !MountedAt(own, ["stage"]) && !Dead(own, host.broken, ["stage"])
            && pass == Progress(Tables(own, [Mount("8:1", ["stage"], ["data"], 0, "ext4")]), 1, {})
            && Forgotten(vols, pass.keep, "0:52")
  {
    var own, vols := [ROOT], map["a" := v];
    assert Holding(own, ["stage"]) == Some(ROOT);
    CorpsePass(host, own, 0);
    assert CloneAt(own, ["data"]) == Mount("8:1", ["stage"], ["data"], 0, "ext4");
    assert [] + [CloneAt(own, ["data"])] == [CloneAt(own, ["data"])];
    assert "0:52" in vols["a"].dead;
    ForgottenExactly(vols, {}, "0:52");
  }
}
