/** What the supervisor holds of the staged volumes (pkg/driver/supervisor.go): the publishes of each are a
    slice that is edited in place. */
module Records {
  import opened Volumes
  import opened Slices

  /** A staged volume beside its publishes. */
  datatype Staged = Staged(stagePath: string, volumeContext: map<string, string>, secrets: map<string, string>, rewarm: bool,
                           dead: seq<string>)

  /** checkAll's copy of a volume. */
  datatype Copied = Copied(volume: Staged, publishes: Slice)

  function VolumeOf(v: Staged, publishes: seq<string>): Volume {
    Volume(v.stagePath, v.volumeContext, v.secrets, v.rewarm, publishes, v.dead)
  }

  /** The volumes that these parts make. */
  function VolsOf(staged: map<string, Staged>, publishes: map<string, seq<string>>): Vols {
    map id | id in staged && id in publishes :: VolumeOf(staged[id], publishes[id])
  }

  /** The volumes beside their publishes. */
  function StagedOf(vols: Vols): map<string, Staged> {
    map id | id in vols :: Staged(vols[id].stagePath, vols[id].volumeContext, vols[id].secrets, vols[id].rewarm, vols[id].dead)
  }

  lemma PartsMakeVolumes(vols: Vols, publishes: map<string, seq<string>>)
    requires publishes.Keys == vols.Keys && forall id | id in vols :: publishes[id] == vols[id].publishes
    ensures VolsOf(StagedOf(vols), publishes) == vols
  {}

  lemma OneChanges(staged: map<string, Staged>, publishes: map<string, seq<string>>, id: string, v: Staged, targets: seq<string>)
    ensures VolsOf(staged[id := v], publishes[id := targets]) == VolsOf(staged, publishes)[id := VolumeOf(v, targets)]
  {}

  lemma OneLeaves(staged: map<string, Staged>, publishes: map<string, seq<string>>, id: string)
    ensures VolsOf(staged - {id}, publishes - {id}) == VolsOf(staged, publishes) - {id}
  {}

  lemma TargetsChange(staged: map<string, Staged>, publishes: map<string, seq<string>>, id: string, targets: seq<string>)
    requires id in staged && id in publishes
    ensures var vols := VolsOf(staged, publishes);
            id in vols && vols[id].publishes == publishes[id]
            && VolsOf(staged, publishes[id := targets]) == WithTargets(vols, id, targets)
  {
    OneChanges(staged, publishes, id, staged[id], targets);
    assert staged[id := staged[id]] == staged;
  }

  lemma DeadChange(staged: map<string, Staged>, publishes: map<string, seq<string>>, id: string, dead: seq<string>)
    requires id in staged && id in publishes
    ensures var vols := VolsOf(staged, publishes);
            id in vols && vols[id].dead == staged[id].dead
            && VolsOf(staged[id := staged[id].(dead := dead)], publishes) == WithDead(vols, id, dead)
  {
    OneChanges(staged, publishes, id, staged[id].(dead := dead), publishes[id]);
    assert publishes[id := publishes[id]] == publishes;
  }

  /** The slices of volumes read from the state file. */
  method LoadLists(vols: Vols) returns (lists: Lists)
    ensures fresh(lists) && fresh(lists.Arrays()) && lists.Valid()
    ensures lists.elements.Keys == vols.Keys && forall id | id in vols :: lists.elements[id] == vols[id].publishes
  {
    lists := new Lists();
    var left := vols.Keys;
    while left != {}
      invariant left <= vols.Keys && fresh(lists.Arrays()) && lists.Valid()
      invariant lists.elements.Keys == vols.Keys - left
      invariant forall id | id in lists.elements :: lists.elements[id] == vols[id].publishes
    {
      var id :| id in left;
      lists.Create(id, vols[id].publishes);
      left := left - {id};
    }
  }
}
