/** What the supervisor remembers of each staged volume, and what each of its operations does to it
    (pkg/driver/supervisor.go, pkg/driver/graft.go), as values. */
module Volumes {
  import opened Strings

  datatype Volume = Volume(stagePath: string, volumeContext: map<string, string>, secrets: map<string, string>,
                           rewarm: bool, publishes: seq<string>, dead: seq<string>)

  type Vols = map<string, Volume>

  /** The operations that change what is remembered. */
  datatype Op =
    | RecordStage(id: string, stagePath: string, volumeContext: map<string, string>, secrets: map<string, string>, rewarm: bool)
    | ForgetStage(id: string)
    | RecordPublish(id: string, target: string)
    | ForgetPublish(id: string, target: string)
    | MarkDead(id: string, dev: string)
    | ForgetDead(keep: set<string>)

  /** Where t goes in a sorted slice: below the elements that it is less than. */
  function PlaceOf(s: seq<string>, t: string): (k: nat)
    ensures k <= |s| && (k > 0 ==> !Less(t, s[k - 1]))
    ensures forall j | k <= j < |s| :: Less(t, s[j])
  {
    if s == [] || !Less(t, s[|s| - 1]) then |s| else PlaceOf(s[..|s| - 1], t)
  }

  /** sort.Strings after appending to a sorted slice. */
  function InsertSorted(s: seq<string>, t: string): (r: seq<string>)
    ensures multiset(r) == multiset(s + [t])
  {
    var k := PlaceOf(s, t);
    assert s == s[..k] + s[k..];
    s[..k] + [t] + s[k..]
  }

  function Filter(s: seq<string>, keep: string -> bool): seq<string> {
    if s == [] then []
    else Filter(s[..|s| - 1], keep) + if keep(s[|s| - 1]) then [s[|s| - 1]] else []
  }

  function Without(s: seq<string>, t: string): seq<string> { Filter(s, x => x != t) }

  function Within(s: seq<string>, keep: set<string>): seq<string> { Filter(s, x => x in keep) }

  function WithTargets(vols: Vols, id: string, targets: seq<string>): Vols {
    if id in vols then vols[id := vols[id].(publishes := targets)] else vols
  }

  function WithDead(vols: Vols, id: string, dead: seq<string>): Vols {
    if id in vols then vols[id := vols[id].(dead := dead)] else vols
  }

  function Do(vols: Vols, op: Op): Vols {
    match op
    case RecordStage(id, stagePath, volumeContext, secrets, rewarm) =>
      vols[id := Volume(stagePath, volumeContext, secrets, rewarm,
                        if id in vols then vols[id].publishes else [], if id in vols then vols[id].dead else [])]
    case ForgetStage(id) => vols - {id}
    case RecordPublish(id, target) =>
      if id !in vols || target in vols[id].publishes then vols
      else WithTargets(vols, id, InsertSorted(vols[id].publishes, target))
    case ForgetPublish(id, target) =>
      if id !in vols then vols else WithTargets(vols, id, Without(vols[id].publishes, target))
    case MarkDead(id, dev) =>
      if dev == "" || id !in vols || dev in vols[id].dead then vols
      else WithDead(vols, id, vols[id].dead + [dev])
    case ForgetDead(keep) =>
      map id | id in vols :: vols[id].(dead := Within(vols[id].dead, keep))
  }

  function Run(ops: seq<Op>): Vols {
    if ops == [] then map[] else Do(Run(ops[..|ops| - 1]), ops[|ops| - 1])
  }

  // ---- Publishes refines a finite set ----

  /** In strictly ascending order, hence without duplicates. */
  ghost predicate Ascending(s: seq<string>) {
    forall i, j | 0 <= i < j < |s| :: Less(s[i], s[j])
  }

  /** Volume id is staged after ops: it was staged, and not unstaged since. */
  ghost predicate Staged(ops: seq<Op>, id: string) {
    exists k :: 0 <= k < |ops| && ops[k].RecordStage? && ops[k].id == id
                && forall j | k < j < |ops| :: ops[j] != ForgetStage(id)
  }

  /** add was done while volume id was staged, and nothing has undone it since. */
  ghost predicate InForce(ops: seq<Op>, id: string, add: Op, undoes: Op -> bool) {
    exists k :: 0 <= k < |ops| && ops[k] == add && Staged(ops[..k], id) && forall j | k < j < |ops| :: !undoes(ops[j])
  }

  function Unpublishes(id: string, target: string): Op -> bool {
    (op: Op) => op == ForgetPublish(id, target) || op == ForgetStage(id)
  }

  function Unmarks(id: string, dev: string): Op -> bool {
    (op: Op) => (op.ForgetDead? && dev !in op.keep) || op == ForgetStage(id)
  }

  /** target is published: that was recorded while the volume was staged, and neither the publish
      nor the volume was forgotten since. */
  ghost predicate Published(ops: seq<Op>, id: string, target: string) {
    InForce(ops, id, RecordPublish(id, target), Unpublishes(id, target))
  }

  /** dev is remembered as dead: it was marked while the volume was staged, and since then every graft pass
      kept it back and the volume was not forgotten. */
  ghost predicate Marked(ops: seq<Op>, id: string, dev: string) {
    dev != "" && InForce(ops, id, MarkDead(id, dev), Unmarks(id, dev))
  }

  /** v is what the last staging of the volume said, which nothing has unstaged since. */
  ghost predicate StagedAs(ops: seq<Op>, id: string, v: Volume) {
    exists k :: 0 <= k < |ops| && ops[k] == RecordStage(id, v.stagePath, v.volumeContext, v.secrets, v.rewarm)
                && forall j | k < j < |ops| :: ops[j] != ForgetStage(id) && !(ops[j].RecordStage? && ops[j].id == id)
  }

  lemma StagedStep(ops: seq<Op>, op: Op, id: string)
    ensures Staged(ops + [op], id) <==> (op.RecordStage? && op.id == id) || (Staged(ops, id) && op != ForgetStage(id))
  {
    var all, n := ops + [op], |ops|;
    assert all[n] == op;
    if Staged(all, id) {
      var k :| 0 <= k < |all| && all[k].RecordStage? && all[k].id == id && forall j | k < j < |all| :: all[j] != ForgetStage(id);
      if k < n {
        assert ops[k] == all[k] && forall j | k < j < n :: all[j] == ops[j];
      }
    }
    if Staged(ops, id) && op != ForgetStage(id) {
      var k :| 0 <= k < n && ops[k].RecordStage? && ops[k].id == id && forall j | k < j < n :: ops[j] != ForgetStage(id);
      assert all[k] == ops[k];
    }
  }

  lemma InForceBefore(ops: seq<Op>, op: Op, id: string, add: Op, undoes: Op -> bool)
    requires InForce(ops + [op], id, add, undoes)
    ensures (op == add && Staged(ops, id)) || (InForce(ops, id, add, undoes) && !undoes(op))
  {
    var all, n := ops + [op], |ops|;
    var k :| 0 <= k < |all| && all[k] == add && Staged(all[..k], id) && forall j | k < j < |all| :: !undoes(all[j]);
    assert all[n] == op && all[..n] == ops;
    if k < n {
      assert ops[k] == all[k] && all[..k] == ops[..k] && forall j | k < j < n :: all[j] == ops[j];
    }
  }

  lemma InForceAfter(ops: seq<Op>, op: Op, id: string, add: Op, undoes: Op -> bool)
    requires (op == add && Staged(ops, id)) || (InForce(ops, id, add, undoes) && !undoes(op))
    ensures InForce(ops + [op], id, add, undoes)
  {
    var all, n := ops + [op], |ops|;
    assert all[n] == op && all[..n] == ops;
    if InForce(ops, id, add, undoes) && !undoes(op) {
      var k :| 0 <= k < n && ops[k] == add && Staged(ops[..k], id) && forall j | k < j < n :: !undoes(ops[j]);
      assert all[k] == ops[k] && all[..k] == ops[..k];
    }
  }

  lemma InForceStep(ops: seq<Op>, op: Op, id: string, add: Op, undoes: Op -> bool)
    ensures InForce(ops + [op], id, add, undoes) <==>
            (op == add && Staged(ops, id)) || (InForce(ops, id, add, undoes) && !undoes(op))
  {
    if InForce(ops + [op], id, add, undoes) {
      InForceBefore(ops, op, id, add, undoes);
    }
    if (op == add && Staged(ops, id)) || (InForce(ops, id, add, undoes) && !undoes(op)) {
      InForceAfter(ops, op, id, add, undoes);
    }
  }

  lemma InsertKeepsAscending(s: seq<string>, t: string)
    requires Ascending(s) && t !in s
    ensures Ascending(InsertSorted(s, t))
  {
    var k := PlaceOf(s, t);
    forall i | 0 <= i < k ensures Less(s[i], t) {
      LessTotal(t, s[k - 1]);
      if i < k - 1 {
        LessTransitive(s[i], s[k - 1], t);
      }
    }
  }

  lemma {:induction false} FilterKeeps(s: seq<string>, keep: string -> bool)
    ensures forall x :: x in Filter(s, keep) <==> x in s && keep(x)
    ensures Ascending(s) ==> Ascending(Filter(s, keep))
  {
    if s != [] {
      var init := s[..|s| - 1];
      FilterKeeps(init, keep);
      assert s == init + [s[|s| - 1]];
      if Ascending(s) {
        var r := Filter(init, keep);
        forall i | 0 <= i < |r| ensures Less(r[i], s[|s| - 1]) {
          assert r[i] in init;
        }
      }
    }
  }

  lemma {:induction false} FilterAll(s: seq<string>, keep: string -> bool)
    ensures |Filter(s, keep)| <= |s|
    ensures |Filter(s, keep)| == |s| ==> Filter(s, keep) == s
  {
    if s != [] {
      FilterAll(s[..|s| - 1], keep);
      assert s == s[..|s| - 1] + [s[|s| - 1]];
    }
  }

  lemma {:induction false} FilterNone(s: seq<string>, keep: string -> bool)
    requires forall x | x in s :: keep(x)
    ensures Filter(s, keep) == s
  {
    if s != [] {
      FilterNone(s[..|s| - 1], keep);
      assert s == s[..|s| - 1] + [s[|s| - 1]];
    }
  }

  lemma {:induction false} FilterNobody(s: seq<string>, keep: string -> bool)
    requires forall x | x in s :: !keep(x)
    ensures Filter(s, keep) == []
  {
    if s != [] {
      FilterNobody(s[..|s| - 1], keep);
    }
  }

  lemma WithoutKeeps(s: seq<string>, t: string)
    ensures forall x :: x in Without(s, t) <==> x in s && x != t
    ensures Ascending(s) ==> Ascending(Without(s, t))
  {
    FilterKeeps(s, x => x != t);
  }

  lemma WithinKeeps(s: seq<string>, keep: set<string>)
    ensures forall x :: x in Within(s, keep) <==> x in s && x in keep
  {
    FilterKeeps(s, x => x in keep);
  }

  /** One operation keeps a volume's publishes sorted. */
  lemma StepKeepsAscending(vols: Vols, op: Op, id: string)
    requires id in vols ==> Ascending(vols[id].publishes)
    ensures id in Do(vols, op) ==> Ascending(Do(vols, op)[id].publishes)
  {
    if op.RecordPublish? && op.id == id && id in vols && op.target !in vols[id].publishes {
      InsertKeepsAscending(vols[id].publishes, op.target);
    } else if op.ForgetPublish? && op.id == id && id in vols {
      WithoutKeeps(vols[id].publishes, op.target);
    }
  }

  predicate PublishedIn(vols: Vols, id: string, t: string) { id in vols && t in vols[id].publishes }

  /** What one operation does to a volume's publishes. */
  lemma PublishesStep(vols: Vols, op: Op, id: string, t: string)
    ensures PublishedIn(Do(vols, op), id, t) <==>
            (op == RecordPublish(id, t) && id in vols)
            || (PublishedIn(vols, id, t) && op != ForgetPublish(id, t) && op != ForgetStage(id))
  {
    if op.RecordPublish? && op.id == id && id in vols && op.target !in vols[id].publishes {
      var p := vols[id].publishes;
      assert t in InsertSorted(p, op.target) <==> t in multiset(p + [op.target]);
      assert t in multiset(p + [op.target]) <==> t in p || t == op.target;
    } else if op.ForgetPublish? && op.id == id && id in vols {
      WithoutKeeps(vols[id].publishes, op.target);
    }
  }

  /** Over any run, the publishes of a volume are sorted, free of duplicates, and exactly the targets
      recorded and not forgotten. */
  lemma {:induction false} PublishesAreThoseRecorded(ops: seq<Op>, id: string)
    ensures id in Run(ops) <==> Staged(ops, id)
    ensures id in Run(ops) ==> Ascending(Run(ops)[id].publishes)
    ensures forall t :: PublishedIn(Run(ops), id, t) <==> Published(ops, id, t)
  {
    if ops != [] {
      var init, op := ops[..|ops| - 1], ops[|ops| - 1];
      assert ops == init + [op];
      PublishesAreThoseRecorded(init, id);
      StagedStep(init, op, id);
      StepKeepsAscending(Run(init), op, id);
      forall t ensures PublishedIn(Run(ops), id, t) <==> Published(ops, id, t) {
        InForceStep(init, op, id, RecordPublish(id, t), Unpublishes(id, t));
        PublishesStep(Run(init), op, id, t);
      }
    }
  }

  // ---- The dead devices, and the rest of a volume ----

  predicate DeadIn(vols: Vols, id: string, dev: string) { id in vols && dev in vols[id].dead }

  /** What one operation does to a volume's dead devices. */
  lemma DeadStep(vols: Vols, op: Op, id: string, dev: string)
    ensures DeadIn(Do(vols, op), id, dev) <==>
            (dev != "" && op == MarkDead(id, dev) && id in vols) || (DeadIn(vols, id, dev) && !Unmarks(id, dev)(op))
  {
    if op.ForgetDead? && id in vols {
      WithinKeeps(vols[id].dead, op.keep);
    }
  }

  /** No device is remembered twice. */
  ghost predicate NoneTwice(s: seq<string>) {
    forall i, j | 0 <= i < j < |s| :: s[i] != s[j]
  }

  lemma {:induction false} FilterKeepsNoneTwice(s: seq<string>, keep: string -> bool)
    requires NoneTwice(s)
    ensures NoneTwice(Filter(s, keep))
  {
    if s != [] {
      var init := s[..|s| - 1];
      FilterKeepsNoneTwice(init, keep);
      FilterKeeps(init, keep);
      assert s[|s| - 1] !in init;
    }
  }

  lemma StepKeepsNoneTwice(vols: Vols, op: Op, id: string)
    requires id in vols ==> NoneTwice(vols[id].dead)
    ensures id in Do(vols, op) ==> NoneTwice(Do(vols, op)[id].dead)
  {
    if op.ForgetDead? && id in vols {
      FilterKeepsNoneTwice(vols[id].dead, x => x in op.keep);
    }
  }

  /** Over any run, the dead devices of a volume are, each once, those marked while it was staged that every
      later pass kept back; staging it again forgets none. */
  lemma {:induction false} DeadAreThoseMarked(ops: seq<Op>, id: string)
    ensures forall dev :: DeadIn(Run(ops), id, dev) <==> Marked(ops, id, dev)
    ensures id in Run(ops) ==> NoneTwice(Run(ops)[id].dead)
  {
    if ops != [] {
      var init, op := ops[..|ops| - 1], ops[|ops| - 1];
      assert ops == init + [op];
      DeadAreThoseMarked(init, id);
      PublishesAreThoseRecorded(init, id);
      StepKeepsNoneTwice(Run(init), op, id);
      forall dev ensures DeadIn(Run(ops), id, dev) <==> Marked(ops, id, dev) {
        InForceStep(init, op, id, MarkDead(id, dev), Unmarks(id, dev));
        DeadStep(Run(init), op, id, dev);
      }
    }
  }

  lemma StagedAsStep(ops: seq<Op>, op: Op, id: string, v: Volume)
    requires op == RecordStage(id, v.stagePath, v.volumeContext, v.secrets, v.rewarm)
             || (StagedAs(ops, id, v) && op != ForgetStage(id) && !(op.RecordStage? && op.id == id))
    ensures StagedAs(ops + [op], id, v)
  {
    var all, n := ops + [op], |ops|;
    assert all[n] == op && forall j | 0 <= j < n :: all[j] == ops[j];
    if op == RecordStage(id, v.stagePath, v.volumeContext, v.secrets, v.rewarm) {
      assert all[n] == RecordStage(id, v.stagePath, v.volumeContext, v.secrets, v.rewarm);
    } else {
      var k :| 0 <= k < n && ops[k] == RecordStage(id, v.stagePath, v.volumeContext, v.secrets, v.rewarm)
               && forall j | k < j < n :: ops[j] != ForgetStage(id) && !(ops[j].RecordStage? && ops[j].id == id);
      assert all[k] == ops[k];
    }
  }

  /** Over any run, the rest of what is remembered of a volume is what its last staging said. */
  lemma {:induction false} RestIsAsLastStaged(ops: seq<Op>, id: string)
    ensures id in Run(ops) ==> StagedAs(ops, id, Run(ops)[id])
  {
    if ops != [] {
      var init, op := ops[..|ops| - 1], ops[|ops| - 1];
      assert ops == init + [op];
      RestIsAsLastStaged(init, id);
      if id in Run(ops) {
        RestStep(Run(init), op, id);
        if id in Run(init) && !(op.RecordStage? && op.id == id) {
          assert StagedAs(init, id, Run(ops)[id]);
        }
        StagedAsStep(init, op, id, Run(ops)[id]);
      }
    }
  }

  /** Only staging changes the rest of a volume. */
  lemma RestStep(vols: Vols, op: Op, id: string)
    requires id in Do(vols, op)
    ensures var v := Do(vols, op)[id];
            if op.RecordStage? && op.id == id then op == RecordStage(id, v.stagePath, v.volumeContext, v.secrets, v.rewarm)
            else id in vols && op != ForgetStage(id) && v.stagePath == vols[id].stagePath && v.volumeContext == vols[id].volumeContext
                 && v.secrets == vols[id].secrets && v.rewarm == vols[id].rewarm
  {}

  // ---- Forgetting, when something was marked meanwhile ----

  predicate Remembers(vols: Vols, dev: string) {
    exists id | id in vols :: dev in vols[id].dead
  }

  /** What the commit of a graft pass forgets. */
  predicate Forgotten(vols: Vols, keep: set<string>, dev: string) {
    Remembers(vols, dev) && !Remembers(Do(vols, ForgetDead(keep)), dev)
  }

  lemma ForgottenExactly(vols: Vols, keep: set<string>, dev: string)
    ensures Forgotten(vols, keep, dev) <==> Remembers(vols, dev) && dev !in keep
    ensures dev in keep && Remembers(vols, dev) ==> Remembers(Do(vols, ForgetDead(keep)), dev)
  {
    var after := Do(vols, ForgetDead(keep));
    forall id | id in vols ensures id in after && (dev in after[id].dead <==> dev in vols[id].dead && dev in keep) {
      WithinKeeps(vols[id].dead, keep);
    }
  }

  /** The commit filters by keep alone. It forgets only devices that its pass looked at exactly when
      every device remembered by then was in the pass's snapshot: one that a concurrent NodeStage or
      NodePublish marked after the snapshot is forgotten without a graft. */
  lemma CommitForgetsOnlyWhatItSaw(vols: Vols, snapshot: set<string>, keep: set<string>)
    requires keep <= snapshot
    ensures (forall dev | Forgotten(vols, keep, dev) :: dev in snapshot)
            <==> (forall dev | Remembers(vols, dev) :: dev in snapshot)
  {
    forall dev ensures Forgotten(vols, keep, dev) <==> Remembers(vols, dev) && dev !in keep {
      ForgottenExactly(vols, keep, dev);
    }
    if forall dev | Forgotten(vols, keep, dev) :: dev in snapshot {
      forall dev | Remembers(vols, dev) ensures dev in snapshot {
        assert dev !in keep ==> Forgotten(vols, keep, dev);
      }
    }
  }

  /** Such a run: a pass snapshots volume a's device 0:52, volume b's 0:60 is marked while the helper
      runs, and the commit forgets 0:60, which the pass never looked for. */
  lemma MarkedMeanwhileIsForgotten(a: Volume, b: Volume)
    requires a.dead == ["0:52"] && b.dead == []
    ensures var snapshot := map["a" := a, "b" := b];
            && Remembers(snapshot, "0:52") && !Remembers(snapshot, "0:60")
            && Forgotten(Do(snapshot, MarkDead("b", "0:60")), {}, "0:60")
  {
    var snapshot := map["a" := a, "b" := b];
    var marked := Do(snapshot, MarkDead("b", "0:60"));
    assert "0:52" in snapshot["a"].dead;
    assert "b" in marked && "0:60" in marked["b"].dead;
    ForgottenExactly(marked, {}, "0:60");
  }
}
