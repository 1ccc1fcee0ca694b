/** The mount supervisor: the volumes it remembers, the state file it keeps them in, and its heals and
    graft passes (pkg/driver/supervisor.go, pkg/driver/graft.go). */
module Supervision {
  import opened Keys
  import opened Mounts
  import opened Volumes
  import opened Slices
  import opened Records
  import opened Holders
  import opened Hosts
  import opened Grafting
  import opened Healing

  // ---- The state file ----

  /** What a file holds: nothing, the beginning of an encoding, or volumes. */
  datatype Content = Missing | Torn | Whole(vols: Vols)

  /** What load makes of the state file: a missing or corrupt one recovers no volume. */
  function Decode(c: Content): Vols {
    if c.Whole? then c.vols else map[]
  }

  /** The state file, its temporary twin, and what the state file held after each step of a write: a
      crash leaves one of these. */
  class Disk {
    var file: Content
    var tmp: Content
    ghost var trace: seq<Content>

    constructor ()
      ensures file == Missing && trace == []
    {
      file, tmp, trace := Missing, Missing, [];
    }

    /** os.WriteFile of the temporary file, which a crash may tear. */
    method WriteTmp(vols: Vols)
      modifies this
      ensures file == old(file) && tmp == Whole(vols) && trace == old(trace) + [file, file]
    {
      tmp := Torn;
      trace := trace + [file];
      tmp := Whole(vols);
      trace := trace + [file];
    }

    /** os.Rename, which replaces the state file at once. */
    method Rename()
      modifies this
      ensures file == old(tmp) && tmp == Missing && trace == old(trace) + [file]
    {
      file, tmp := tmp, Missing;
      trace := trace + [file];
    }
  }

  /** Whenever the plugin crashes between the traces, a restart recovers the volumes as they were
      before the operation or as they are after it. */
  ghost predicate CrashSafe(before: seq<Content>, trace: seq<Content>, old_: Vols, new_: Vols) {
    && before <= trace
    && forall i | |before| <= i < |trace| :: Decode(trace[i]) == old_ || Decode(trace[i]) == new_
  }

  // ---- Dead devices ----

  function DeadOf(vols: Vols): set<string> {
    set id, d | id in vols && d in vols[id].dead :: d
  }

  function PointsOf(names: seq<string>): seq<Path> {
    seq(|names|, i requires 0 <= i < |names| => PointOf(names[i]))
  }

  /** A graft pass can count on this: dead mounts are alone where they sit in the containers, and
      stagings are fit. */
  ghost predicate PassFit(host: Host, tables: map<string, Table>, vols: Vols, dead: set<string>) {
    && AllScattered(host, tables, dead) && host.own in tables
    && forall id, d | id in vols && d in vols[id].dead :: Fit(tables[host.own], host.broken, PointOf(vols[id].stagePath), dead)
  }

  /** Device d of a volume is off the containers' hands: its staging answered, where a visible container
      had a FUSE mount of it the container finds what the staging path shows, and no path meets one. */
  ghost predicate OffHands(host: Host, before: map<string, Table>, tables: map<string, Table>, vols: Vols, d: string) {
    exists id :: id in vols && d in vols[id].dead && Replaced(host, before, tables, PointOf(vols[id].stagePath), d)
  }

  /** A pass that forgets nothing changes nothing. */
  lemma KeepingAllKeepsVols(vols: Vols, keep: set<string>)
    requires DeadOf(vols) <= keep
    ensures Do(vols, ForgetDead(keep)) == vols
  {
    forall id | id in vols ensures Within(vols[id].dead, keep) == vols[id].dead {
      forall d | d in vols[id].dead ensures d in keep { assert d in DeadOf(vols); }
      FilterNone(vols[id].dead, x => x in keep);
    }
  }

  /** The probing of a pass: devices whose staging is dead itself are kept back. */
  method ProbeStagings(host: Host, stage: map<string, Path>) returns (kept: set<string>)
    requires host.Valid()
    ensures kept == ProbedDead(host, host.tables, stage)
  {
    kept := {};
    var left := stage.Keys;
    while left != {}
      invariant left <= stage.Keys
      invariant kept == set d | d in stage && d !in left && Dead(host.tables[host.own], host.broken, stage[d])
    {
      var d :| d in left;
      if Dead(host.tables[host.own], host.broken, stage[d]) {
        kept := kept + {d};
      }
      left := left - {d};
    }
  }

  /** One volume's share of the snapshot. */
  method AddDead(devs: seq<string>, p: Path, dead: set<string>, stage: map<string, Path>) returns (dead': set<string>, stage': map<string, Path>)
    requires stage.Keys == dead
    ensures stage'.Keys == dead' && forall d :: d in dead' <==> d in dead || d in devs
    ensures forall d | d in dead' :: stage'[d] == if d in devs then p else stage[d]
  {
    dead', stage' := dead, stage;
    for i := 0 to |devs|
      invariant stage'.Keys == dead' && forall d :: d in dead' <==> d in dead || d in devs[..i]
      invariant forall d | d in dead' :: stage'[d] == if d in devs[..i] then p else stage[d]
    {
      dead', stage' := dead' + {devs[i]}, stage'[devs[i] := p];
      assert devs[..i + 1] == devs[..i] + [devs[i]];
    }
    assert devs[..|devs|] == devs;
  }

  /** Each device of a pass has the staging path of a volume that remembers it. */
  ghost predicate StagesOf(vols: Vols, stage: map<string, Path>) {
    forall d | d in stage :: exists id :: id in vols && d in vols[id].dead && stage[d] == PointOf(vols[id].stagePath)
  }

  /** The pass between the two sections under the lock; without dead devices or a helper there is none. */
  method GraftPass(host: Host, stage: map<string, Path>) returns (keep: set<string>)
    requires host.Valid()
    modifies host
    ensures host.Valid()
    ensures Progress(host.tables, host.calls, keep) == Pass(host, old(host.tables), old(host.calls), stage)
    ensures stage == map[] || !host.hasHelper ==> keep == stage.Keys
  {
    keep := stage.Keys;
    if stage != map[] && host.hasHelper {
      var kept := ProbeStagings(host, stage);
      var proc := host.Proc(host.tables);
      var holders := FindHolders(proc, stage.Keys);
      forall h | h in holders ensures h.mount.dev in stage {
        HeldBySpeakersExactly(proc, |host.tasks|, stage.Keys, h);
      }
      keep := GraftAll(host, holders, stage, kept);
    }
  }

  /** A pass is sound: a device that it does not keep back is off the containers' hands. */
  lemma PassIsOffHands(host: Host, tables: map<string, Table>, calls: nat, vols: Vols, stage: map<string, Path>)
    requires host.Sound(tables) && stage.Keys == DeadOf(vols) && StagesOf(vols, stage) && PassFit(host, tables, vols, stage.Keys)
    ensures var pass := Pass(host, tables, calls, stage);
            forall d | d in DeadOf(vols) && d !in pass.keep :: OffHands(host, tables, pass.tables, vols, d)
  {
    var pass := Pass(host, tables, calls, stage);
    StagesAreFit(host, tables, vols, stage);
    forall d | d in DeadOf(vols) && d !in pass.keep ensures OffHands(host, tables, pass.tables, vols, d) {
      PassReplaces(host, tables, calls, stage, d);
      var id :| id in vols && d in vols[id].dead && stage[d] == PointOf(vols[id].stagePath);
    }
  }

  lemma StagesAreFit(host: Host, tables: map<string, Table>, vols: Vols, stage: map<string, Path>)
    requires StagesOf(vols, stage) && PassFit(host, tables, vols, stage.Keys)
    ensures forall d | d in stage :: Fit(tables[host.own], host.broken, stage[d], stage.Keys)
  {}

  lemma ForgettingAllLeavesNone(vols: Vols)
    ensures DeadOf(Do(vols, ForgetDead({}))) == {}
  {
    forall id | id in vols ensures forall d :: d !in Within(vols[id].dead, {}) {
      WithinKeeps(vols[id].dead, {});
    }
  }

  /** And it is complete: with stagings that are mounted and answer, and a helper that works, no device
      stays remembered, and no container's path meets one. */
  lemma HealthyPassForgetsAll(host: Host, tables: map<string, Table>, calls: nat, vols: Vols, stage: map<string, Path>)
    requires host.Sound(tables) && stage.Keys == DeadOf(vols) && StagesOf(vols, stage) && PassFit(host, tables, vols, stage.Keys)
    requires AlwaysWorks(host)
    requires forall d | d in stage :: Holding(tables[host.own], stage[d]).Some? && !Dead(tables[host.own], host.broken, stage[d])
    ensures var pass := Pass(host, tables, calls, stage);
            && DeadOf(Do(vols, ForgetDead(pass.keep))) == {}
            && forall d | d in DeadOf(vols) :: Unmet(host, pass.tables, d)
  {
    var pass := Pass(host, tables, calls, stage);
    StagesAreFit(host, tables, vols, stage);
    HealthyPassKeepsNone(host, tables, calls, stage);
    ForgettingAllLeavesNone(vols);
    forall d | d in DeadOf(vols) ensures Unmet(host, pass.tables, d) {
      PassReplaces(host, tables, calls, stage, d);
    }
  }

  /** The loop that looks for x, returning at once when it is there. */
  method Among(s: seq<string>, x: string) returns (found: bool)
    ensures found <==> x in s
  {
    for i := 0 to |s|
      invariant x !in s[..i]
    {
      if s[i] == x {
        return true;
      }
    }
    assert s[..|s|] == s;
    found := false;
  }

  class Supervisor {
    const disk: Disk
    const publishes: Lists
    var staged: map<string, Staged>

    /** The volumes it knows. */
    ghost function Vols(): Vols
      reads this, publishes
    {
      VolsOf(staged, publishes.elements)
    }

    ghost predicate Sound()
      reads this, publishes, publishes.Arrays()
    {
      publishes.Valid() && staged.Keys == publishes.elements.Keys
    }

    /** What the state file decodes to is what the supervisor knows. */
    ghost predicate Saved()
      reads this, disk, publishes, publishes.Arrays()
    {
      Sound() && Decode(disk.file) == Vols()
    }

    /** newSupervisor: the volumes are loaded from the state file. */
    constructor (disk: Disk)
      ensures this.disk == disk && fresh(publishes) && fresh(publishes.Arrays()) && Saved()
    {
      var vols: Vols := Decode(disk.file);
      var lists := LoadLists(vols);
      PartsMakeVolumes(vols, lists.elements);
      this.disk, publishes, staged := disk, lists, StagedOf(vols);
    }

    /** What the state file is to hold. */
    function Encoded(): Vols
      requires Sound()
      reads this, publishes, publishes.Arrays()
      ensures Encoded() == Vols()
    {
      map id | id in staged :: VolumeOf(staged[id], publishes.Read(id))
    }

    /** Writes the state file. */
    method Persist(ghost before: Vols)
      requires Sound() && Decode(disk.file) == before
      modifies disk
      ensures Saved() && CrashSafe(old(disk.trace), disk.trace, before, Vols())
      ensures Vols() == old(Vols()) && publishes.Arrays() == old(publishes.Arrays())
    {
      disk.WriteTmp(Encoded());
      disk.Rename();
    }

    method StageInMemory(id: string, v: Staged)
      requires Sound()
      modifies this, publishes
      ensures Sound() && fresh(publishes.Arrays() - old(publishes.Arrays()))
      ensures Vols() == old(Vols())[id := VolumeOf(v, if id in old(publishes.elements) then old(publishes.elements)[id] else [])]
    {
      ghost var lists := publishes.elements;
      OneChanges(staged, lists, id, v, if id in lists then lists[id] else []);
      if id !in staged {
        publishes.Create(id, []);
      }
      assert publishes.elements == lists[id := if id in lists then lists[id] else []];
      staged := staged[id := v];
    }

    method RecordStage(id: string, stagePath: string, volumeContext: map<string, string>, secrets: map<string, string>, rewarm: bool)
      requires Saved()
      modifies this, disk, publishes
      ensures Saved() && fresh(publishes.Arrays() - old(publishes.Arrays()))
      ensures Vols() == Do(old(Vols()), Op.RecordStage(id, stagePath, volumeContext, secrets, rewarm))
      ensures CrashSafe(old(disk.trace), disk.trace, old(Vols()), Vols())
    {
      StageInMemory(id, Staged(stagePath, volumeContext, secrets, rewarm, if id in staged then staged[id].dead else []));
      Persist(old(Vols()));
    }

    method ForgetStage(id: string)
      requires Saved()
      modifies this, disk, publishes
      ensures Saved() && publishes.Arrays() == old(publishes.Arrays())
      ensures Vols() == Do(old(Vols()), Op.ForgetStage(id))
      ensures CrashSafe(old(disk.trace), disk.trace, old(Vols()), Vols())
    {
      OneLeaves(staged, publishes.elements, id);
      staged := staged - {id};
      publishes.Forget(id);
      Persist(old(Vols()));
    }

    method PublishInPlace(id: string, target: string)
      requires Sound() && id in staged && target !in publishes.elements[id]
      modifies publishes, publishes.Arrays()
      ensures Sound() && fresh(publishes.Arrays() - old(publishes.Arrays()))
      ensures Vols() == Do(old(Vols()), Op.RecordPublish(id, target))
    {
      TargetsChange(staged, publishes.elements, id, InsertSorted(publishes.elements[id], target));
      publishes.AddSorted(id, target);
    }

    method UnpublishInPlace(id: string, target: string, ghost copies: set<array<string>>)
      requires Sound() && id in staged && copies !! publishes.Arrays()
      modifies publishes, publishes.Arrays()
      ensures unchanged(copies)
      ensures Sound() && publishes.Arrays() == old(publishes.Arrays())
      ensures Vols() == Do(old(Vols()), Op.ForgetPublish(id, target))
    {
      TargetsChange(staged, publishes.elements, id, Without(publishes.elements[id], target));
      publishes.Keep(id, x => x != target);
    }

    /** Appends and sorts in place; copies are the arrays of what checkAll copied before. */
    method RecordPublish(id: string, target: string, ghost copies: set<array<string>>)
      requires Saved() && copies !! publishes.Arrays()
      modifies disk, publishes, publishes.Arrays()
      ensures Saved() && copies !! publishes.Arrays()
      ensures Vols() == Do(old(Vols()), Op.RecordPublish(id, target))
      ensures CrashSafe(old(disk.trace), disk.trace, old(Vols()), Vols())
    {
      if id in staged {
        var published := Among(publishes.Read(id), target);
        if !published {
          ghost var was := Vols();
          PublishInPlace(id, target);
          Persist(was);
        }
      }
    }

    /** Filters in place; copies are the arrays of what checkAll copied before. */
    method ForgetPublish(id: string, target: string, ghost copies: set<array<string>>)
      requires Saved() && copies !! publishes.Arrays()
      modifies disk, publishes, publishes.Arrays()
      ensures Saved() && copies !! publishes.Arrays() && unchanged(copies)
      ensures Vols() == Do(old(Vols()), Op.ForgetPublish(id, target))
      ensures CrashSafe(old(disk.trace), disk.trace, old(Vols()), Vols())
    {
      if id in staged {
        ghost var was := Vols();
        UnpublishInPlace(id, target, copies);
        Persist(was);
      }
    }

    method MarkDead(id: string, dev: string)
      requires Saved()
      modifies this, disk
      ensures Saved() && Vols() == Do(old(Vols()), Op.MarkDead(id, dev))
      ensures CrashSafe(old(disk.trace), disk.trace, old(Vols()), Vols())
    {
      if dev == "" || id !in staged {
        return;
      }
      var dead := staged[id].dead;
      var marked := Among(dead, dev);
      if marked {
        return;
      }
      ghost var was := Vols();
      DeadChange(staged, publishes.elements, id, dead + [dev]);
      staged := staged[id := staged[id].(dead := dead + [dev])];
      Persist(was);
    }

    /** checkAll's copies under the lock: the publishes go to arrays of their own. */
    method CopyVolumes() returns (copies: map<string, Copied>)
      requires Sound()
      ensures copies.Keys == staged.Keys
      ensures forall id | id in copies ::
                && copies[id].volume == staged[id] && copies[id].publishes.Valid() && fresh(copies[id].publishes.backing)
                && VolumeOf(copies[id].volume, copies[id].publishes.Elements()) == Vols()[id]
    {
      copies := map[];
      var left := staged.Keys;
      while left != {}
        invariant left <= staged.Keys && copies.Keys == staged.Keys - left
        invariant forall id | id in copies ::
                    && copies[id].volume == staged[id] && copies[id].publishes.Valid() && fresh(copies[id].publishes.backing)
                    && copies[id].publishes.Elements() == publishes.elements[id]
      {
        var id :| id in left;
        var targets := Make(publishes.Read(id));
        copies := copies[id := Copied(staged[id], targets)];
        left := left - {id};
      }
    }

    /** The first section of graftHolders: the dead devices, and a staging path for each. */
    method Snapshot() returns (stage: map<string, Path>)
      requires staged.Keys == publishes.elements.Keys
      ensures stage.Keys == DeadOf(Vols()) && StagesOf(Vols(), stage)
      ensures forall d :: d in stage <==> exists id :: id in staged && d in staged[id].dead
    {
      var dead := {};
      stage := map[];
      var left := staged.Keys;
      while left != {}
        invariant left <= staged.Keys && stage.Keys == dead
        invariant forall d :: d in dead <==> exists id :: id in staged && id !in left && d in staged[id].dead
        invariant forall d | d in stage :: exists id :: id in staged && d in staged[id].dead && stage[d] == PointOf(staged[id].stagePath)
      {
        var id :| id in left;
        dead, stage := AddDead(staged[id].dead, PointOf(staged[id].stagePath), dead, stage);
        left := left - {id};
      }
      SameDead(staged, publishes.elements);
    }

    /** The last section of graftHolders: devices not kept back are forgotten; the state file is written
        only if one was. */
    method Commit(keep: set<string>)
      requires Saved()
      modifies this, disk
      ensures Saved() && Vols() == Do(old(Vols()), ForgetDead(keep))
      ensures CrashSafe(old(disk.trace), disk.trace, old(Vols()), Vols())
      ensures Vols() == old(Vols()) ==> disk.trace == old(disk.trace) && disk.file == old(disk.file)
    {
      ghost var was := Vols();
      var thin, changed := Thin(staged, publishes.elements, keep);
      staged := thin;
      if changed {
        Persist(was);
      }
    }

    /** The pass, which leaves what is remembered alone. */
    method PassUnlocked(host: Host, stage: map<string, Path>) returns (keep: set<string>)
      requires Saved() && host.Valid()
      modifies host
      ensures Saved() && Vols() == old(Vols()) && host.Valid()
      ensures Progress(host.tables, host.calls, keep) == Pass(host, old(host.tables), old(host.calls), stage)
      ensures stage == map[] || !host.hasHelper ==> keep == stage.Keys
    {
      keep := GraftPass(host, stage);
    }

    /** graftHolders, with nothing marked meanwhile: what it forgets, keeps back and does to the
        containers is what the pass says. */
    method GraftHolders(host: Host) returns (stage: map<string, Path>, keep: set<string>)
      requires Saved() && host.Valid()
      modifies this, disk, host
      ensures Saved() && host.Valid()
      ensures stage.Keys == DeadOf(old(Vols())) && StagesOf(old(Vols()), stage)
      ensures Progress(host.tables, host.calls, keep) == Pass(host, old(host.tables), old(host.calls), stage)
      ensures Vols() == Do(old(Vols()), ForgetDead(keep))
      ensures CrashSafe(old(disk.trace), disk.trace, old(Vols()), Vols())
    {
      stage := Snapshot();
      keep := GraftDevices(host, stage);
    }

    method GraftDevices(host: Host, stage: map<string, Path>) returns (keep: set<string>)
      requires Saved() && host.Valid() && DeadOf(Vols()) <= stage.Keys
      modifies this, disk, host
      ensures Saved() && host.Valid()
      ensures Progress(host.tables, host.calls, keep) == Pass(host, old(host.tables), old(host.calls), stage)
      ensures Vols() == Do(old(Vols()), ForgetDead(keep))
      ensures CrashSafe(old(disk.trace), disk.trace, old(Vols()), Vols())
    {
      keep := PassUnlocked(host, stage);
      Finish(keep, stage != map[] && host.hasHelper);
    }

    /** The last section, which a pass that returned early does not come to. */
    method Finish(keep: set<string>, commits: bool)
      requires Saved() && (!commits ==> DeadOf(Vols()) <= keep)
      modifies this, disk
      ensures Saved() && Vols() == Do(old(Vols()), ForgetDead(keep))
      ensures CrashSafe(old(disk.trace), disk.trace, old(Vols()), Vols())
    {
      if commits {
        Commit(keep);
      } else {
        KeepingAllKeepsVols(Vols(), keep);
      }
    }

    /** heal: the corpse's binds and staging mount are detached, the staging is mounted again -- by
        remount, if the mounter succeeds -- the targets are bound again, and the corpse's device is
        remembered and a graft pass made. v is checkAll's copy of the volume. */
    method Heal(host: Host, id: string, v: Volume, remount: Option<string>, fstype: string, binds: nat -> bool)
      returns (stage: map<string, Path>, keep: set<string>)
      requires Saved() && host.Valid()
      requires HealFit(host, host.tables, Vols(), id, v, remount)
      modifies this, disk, host
      ensures Saved() && host.Valid()
      ensures remount.None? ==>
                && Vols() == Learned(old(Vols()), id, old(host.tables[host.own]), PointOf(v.stagePath), false)
                && host.tables == old(host.tables)[host.own := host.tables[host.own]] && host.calls == old(host.calls)
                && Detached(old(host.tables[host.own]), host.tables[host.own], PathsOf(v), PathsOf(v))
      ensures remount.Some? ==> NodeHealed(old(host.tables[host.own]), host.tables[host.own], v, remount.value, fstype, binds)
      ensures remount.Some? ==>
                var before := old(host.tables)[host.own := host.tables[host.own]];
                var marked := Learned(old(Vols()), id, old(host.tables[host.own]), PointOf(v.stagePath), true);
                && stage.Keys == DeadOf(marked) && StagesOf(marked, stage)
                && Progress(host.tables, host.calls, keep) == Pass(host, before, old(host.calls), stage)
                && Vols() == Do(marked, ForgetDead(keep))
                && forall d | d in DeadOf(marked) && d !in keep :: OffHands(host, before, host.tables, marked, d)
    {
      ghost var before := host.tables[host.own];
      var corpse := MountDevice(host.tables[host.own], PointOf(v.stagePath));
      HealNode(host, v, remount, fstype, binds);
      stage, keep := map[], {};
      if remount.Some? {
        ghost var tables := host.tables;
        StagingsFitAfterHeal(host, tables, Vols(), id, v, before, remount.value);
        stage, keep := RememberAndGraft(host, id, corpse);
      }
    }

    /** The end of a heal: the corpse's device is remembered, and a graft pass made. */
    method RememberAndGraft(host: Host, id: string, corpse: string) returns (stage: map<string, Path>, keep: set<string>)
      requires Saved() && host.Valid()
      requires var marked := Do(Vols(), Op.MarkDead(id, corpse)); PassFit(host, host.tables, marked, DeadOf(marked))
      modifies this, disk, host
      ensures Saved() && host.Valid() && host.tables[host.own] == old(host.tables[host.own])
      ensures var marked := Do(old(Vols()), Op.MarkDead(id, corpse));
              && stage.Keys == DeadOf(marked) && StagesOf(marked, stage)
              && Progress(host.tables, host.calls, keep) == Pass(host, old(host.tables), old(host.calls), stage)
              && Vols() == Do(marked, ForgetDead(keep))
              && forall d | d in DeadOf(marked) && d !in keep :: OffHands(host, old(host.tables), host.tables, marked, d)
    {
      MarkDead(id, corpse);
      ghost var marked := Vols();
      stage, keep := GraftHolders(host);
      PassIsOffHands(host, old(host.tables), old(host.calls), marked, stage);
      StagesAreFit(host, old(host.tables), marked, stage);
      PassLeavesNode(host, old(host.tables), old(host.calls), stage);
    }
  }

  // ---- What a heal learns ----

  /** The volumes as a heal leaves them for its graft pass: it remembers the device it found mounted at the
      staging path, but only once the remount has succeeded. */
  function Learned(vols: Vols, id: string, own: Table, p: Path, remounted: bool): Vols {
    if remounted then Do(vols, Op.MarkDead(id, DeviceAt(own, p))) else vols
  }

  /** So a device is newly remembered exactly when the remount succeeded and the topmost mount that was at
      the staging path is of it. */
  lemma LearnedIff(vols: Vols, id: string, own: Table, p: Path, remounted: bool, d: string)
    requires id in vols && d != "" && d !in vols[id].dead
    ensures id in Learned(vols, id, own, p, remounted)
    ensures d in Learned(vols, id, own, p, remounted)[id].dead <==> remounted && TopmostAt(own, p, d)
  {
    DeviceIsTopmost(own, p, d);
  }

  /** After a failed remount nothing is mounted at the staging path any more, so no later heal learns the
      corpse's device. */
  lemma LostCorpseIsNotLearned(before: Table, table: Table, ps: set<Path>, stage: Path, vols: Vols, id: string)
    requires Detached(before, table, ps, ps) && stage in ps
    ensures DeviceAt(table, stage) == "" && Learned(vols, id, table, stage, true) == vols
  {
    DeviceIsTopmost(table, stage, "");
  }

  /** And a device that is not remembered stays where the containers have it, whatever a pass does for the
      others: they find the dead mount there as before. */
  lemma UnrememberedStays(host: Host, tables: map<string, Table>, calls: nat, stage: map<string, Path>, ns: string, m: Mount)
    requires host.Sound(tables) && AllScattered(host, tables, stage.Keys + {m.dev})
    requires forall d | d in stage :: Fit(tables[host.own], host.broken, stage[d], stage.Keys + {m.dev})
    requires ns in VisibleSet(host) && m in tables[ns] && "fuse" <= m.fstype && m.dev !in stage
    ensures ns in Pass(host, tables, calls, stage).tables && SameStanding(tables[ns], Pass(host, tables, calls, stage).tables[ns], m)
  {
    var holders, s := HoldersOf(host, tables, stage.Keys), Progress(tables, calls, ProbedDead(host, tables, stage));
    forall ns | ns in VisibleSet(host) ensures Scattered(tables[ns], stage.Keys) {
      FewerAreScattered(tables[ns], stage.Keys + {m.dev}, stage.Keys);
    }
    HoldersAreAllHeld(host, tables, stage.Keys);
    BystanderStays(host, stage, holders, |holders|, s, stage.Keys + {m.dev}, ns, m);
  }

  // ---- The commit ----

  /** The volumes once the devices that are not in keep are forgotten. */
  function Thinned(staged: map<string, Staged>, keep: set<string>): map<string, Staged> {
    map id | id in staged :: staged[id].(dead := Within(staged[id].dead, keep))
  }

  /** The commit's loop; changed says whether a device was dropped. */
  method KeepAll(staged: map<string, Staged>, keep: set<string>) returns (thin: map<string, Staged>, changed: bool)
    ensures thin == Thinned(staged, keep) && (changed <==> thin != staged)
  {
    thin, changed := staged, false;
    var left := staged.Keys;
    while left != {}
      invariant left <= staged.Keys == thin.Keys && (changed <==> thin != staged)
      invariant forall id | id in staged :: thin[id] == if id in left then staged[id] else staged[id].(dead := Within(staged[id].dead, keep))
    {
      var id :| id in left;
      var kept := FilterDead(staged[id].dead, keep);
      if |kept| < |staged[id].dead| {
        changed := true;
        assert staged[id].(dead := kept) != staged[id];
      }
      thin, left := thin[id := staged[id].(dead := kept)], left - {id};
    }
  }

  /** The commit's loop, and what it makes of the volumes. */
  method Thin(staged: map<string, Staged>, ghost publishes: map<string, seq<string>>, keep: set<string>)
    returns (thin: map<string, Staged>, changed: bool)
    requires staged.Keys == publishes.Keys
    ensures thin.Keys == staged.Keys && VolsOf(thin, publishes) == Do(VolsOf(staged, publishes), ForgetDead(keep))
    ensures changed <==> VolsOf(thin, publishes) != VolsOf(staged, publishes)
  {
    thin, changed := KeepAll(staged, keep);
    ThinnedIsForgotten(staged, publishes, keep);
  }

  /** One volume's share: the devices kept, in their order. */
  method FilterDead(dead: seq<string>, keep: set<string>) returns (kept: seq<string>)
    ensures kept == Within(dead, keep) && |kept| <= |dead| && (|kept| == |dead| ==> kept == dead)
  {
    kept := [];
    for i := 0 to |dead|
      invariant kept == Within(dead[..i], keep)
    {
      assert dead[..i + 1][..i] == dead[..i];
      if dead[i] in keep {
        kept := kept + [dead[i]];
      }
    }
    assert dead[..|dead|] == dead;
    FilterAll(dead, x => x in keep);
  }

  lemma SameDead(staged: map<string, Staged>, publishes: map<string, seq<string>>)
    requires staged.Keys == publishes.Keys
    ensures var vols := VolsOf(staged, publishes);
            vols.Keys == staged.Keys && forall id | id in staged :: vols[id].dead == staged[id].dead && vols[id].stagePath == staged[id].stagePath
  {}

  lemma ThinnedIsForgotten(staged: map<string, Staged>, publishes: map<string, seq<string>>, keep: set<string>)
    requires staged.Keys == publishes.Keys
    ensures var vols, thin := VolsOf(staged, publishes), Thinned(staged, keep);
            && VolsOf(thin, publishes) == Do(vols, ForgetDead(keep))
            && (VolsOf(thin, publishes) == vols <==> thin == staged)
  {
    var vols, thin := VolsOf(staged, publishes), Thinned(staged, keep);
    if VolsOf(thin, publishes) == vols {
      forall id | id in staged ensures thin[id] == staged[id] {
        assert VolsOf(thin, publishes)[id].dead == vols[id].dead;
      }
    }
  }

  /** The node's side of a heal: the staging path and every target whose bind worked show the new device,
      nothing elsewhere is touched, and at paths all different no mount lies over another. */
  ghost predicate NodeHealed(before: Table, table: Table, v: Volume, dev: string, fstype: string, binds: nat -> bool) {
    var staged := Mount(dev, [], PointOf(v.stagePath), 0, fstype);
    && Mounted(before, table, PathsOf(v), dev) && Shows(table, PointOf(v.stagePath), staged)
    && (forall i | 0 <= i < |v.publishes| && binds(i) :: Shows(table, PointOf(v.publishes[i]), staged))
    && (Distinct(PointOf(v.stagePath), PointsOf(v.publishes)) ==> Tidy(before, table, PathsOf(v)))
  }

  /** The mounts of a heal. */
  method HealNode(host: Host, v: Volume, remount: Option<string>, fstype: string, binds: nat -> bool)
    requires host.Valid() && Separate(host.tables[host.own], PathsOf(v))
    modifies host
    ensures host.Valid() && host.tables == old(host.tables)[host.own := host.tables[host.own]] && host.calls == old(host.calls)
    ensures remount.None? ==> Detached(old(host.tables[host.own]), host.tables[host.own], PathsOf(v), PathsOf(v))
    ensures remount.Some? ==> NodeHealed(old(host.tables[host.own]), host.tables[host.own], v, remount.value, fstype, binds)
  {
    var p, targets := PointOf(v.stagePath), PointsOf(v.publishes);
    ghost var before := host.tables[host.own];
    DetachAll(host, p, targets);
    if remount.Some? {
      MountNode(host, v, remount.value, fstype, binds, before);
    }
  }

  /** The second half: the staging mount and its binds are made again. */
  method MountNode(host: Host, v: Volume, dev: string, fstype: string, binds: nat -> bool, ghost before: Table)
    requires host.Valid() && Unnested(PathsOf(v)) && Detached(before, host.tables[host.own], PathsOf(v), PathsOf(v))
    modifies host
    ensures host.Valid() && host.tables == old(host.tables)[host.own := host.tables[host.own]] && host.calls == old(host.calls)
    ensures NodeHealed(before, host.tables[host.own], v, dev, fstype, binds)
  {
    var p, targets := PointOf(v.stagePath), PointsOf(v.publishes);
    var staged := Mount(dev, [], p, 0, fstype);
    RemountShows(before, host.tables[host.own], staged, targets, binds);
    if Distinct(p, targets) {
      RemountIsTidy(before, host.tables[host.own], staged, targets, binds);
    }
    host.Mount(staged);
    BindAll(host, p, targets, binds);
    assert forall i | 0 <= i < |v.publishes| :: targets[i] == PointOf(v.publishes[i]);
  }

  /** After a heal the graft pass finds every staging fit. */
  lemma StagingsFitAfterHeal(host: Host, tables: map<string, Table>, vols: Vols, id: string, v: Volume, before: Table, dev: string)
    requires host.Sound(tables)
    requires Mounted(before, tables[host.own], PathsOf(v), dev) && MountedAt(tables[host.own], PointOf(v.stagePath))
    requires Holding(tables[host.own], PointOf(v.stagePath)).value.dev == dev
    requires OwnFit(before, host.broken, vols, id, v, Some(dev))
    requires AllScattered(host, tables, DeadOf(Do(vols, Op.MarkDead(id, DeviceAt(before, PointOf(v.stagePath))))))
    ensures var marked := Do(vols, Op.MarkDead(id, DeviceAt(before, PointOf(v.stagePath)))); PassFit(host, tables, marked, DeadOf(marked))
  {
    var p, ps := PointOf(v.stagePath), PathsOf(v);
    var marked := Do(vols, Op.MarkDead(id, DeviceAt(before, p)));
    assert p in ps;
    forall other | other in marked ensures Fit(tables[host.own], host.broken, PointOf(marked[other].stagePath), DeadOf(marked)) {
      FitAfterHeal(before, tables[host.own], ps, p, PointOf(marked[other].stagePath), dev, host.broken, DeadOf(marked));
    }
  }

  /** A pass leaves the node's own table alone. */
  lemma PassLeavesNode(host: Host, tables: map<string, Table>, calls: nat, stage: map<string, Path>)
    requires host.Sound(tables) && AllScattered(host, tables, stage.Keys)
    requires forall d | d in stage :: Fit(tables[host.own], host.broken, stage[d], stage.Keys)
    ensures host.own in Pass(host, tables, calls, stage).tables && Pass(host, tables, calls, stage).tables[host.own] == tables[host.own]
  {
    var holders := HoldersOf(host, tables, stage.Keys);
    HoldersAreAllHeld(host, tables, stage.Keys);
    AllStand(host, stage, holders, |holders|, Progress(tables, calls, ProbedDead(host, tables, stage)), stage.Keys);
  }

  ghost function PathsOf(v: Volume): set<Path> {
    HealPaths(PointOf(v.stagePath), PointsOf(v.publishes))
  }

  /** What a heal of v counts on: its paths are apart from each other and each mounted on once, nothing
      is mounted below its staging path, the mounter brings up a fresh device, and the other volumes'
      stagings are elsewhere and fit for the graft pass that follows. */
  ghost predicate HealFit(host: Host, tables: map<string, Table>, vols: Vols, id: string, v: Volume, remount: Option<string>) {
    && host.own in tables && OwnFit(tables[host.own], host.broken, vols, id, v, remount)
    && AllScattered(host, tables, DeadOf(Do(vols, Op.MarkDead(id, DeviceAt(tables[host.own], PointOf(v.stagePath))))))
  }

  ghost predicate OwnFit(own: Table, broken: set<string>, vols: Vols, id: string, v: Volume, remount: Option<string>) {
    var p, ps := PointOf(v.stagePath), PathsOf(v);
    var marked := Do(vols, Op.MarkDead(id, DeviceAt(own, p)));
    && Separate(own, ps)
    && (forall m | m in own && p <= m.point :: m.point == p)
    && (remount.Some? ==> remount.value !in DeadOf(marked))
    && forall other | other in marked && PointOf(marked[other].stagePath) != p ::
         Fit(own, broken, PointOf(marked[other].stagePath), DeadOf(marked)) && Beside(ps, PointOf(marked[other].stagePath))
  }

  /** q is neither above nor below a path of ps. */
  ghost predicate Beside(ps: set<Path>, q: Path) {
    forall r | r in ps :: !(r <= q) && !(q <= r)
  }

  lemma FitAfterHeal(before: Table, table: Table, ps: set<Path>, p: Path, q: Path, dev: string, broken: set<string>, dead: set<string>)
    requires Mounted(before, table, ps, dev) && MountedAt(table, p) && Holding(table, p).value.dev == dev && p in ps && dev !in dead
    requires forall r | r in ps && p <= r :: p == r
    requires forall m | m in before && p <= m.point :: m.point == p
    requires q != p ==> Fit(before, broken, q, dead) && Beside(ps, q)
    ensures Fit(table, broken, q, dead)
  {}
}
