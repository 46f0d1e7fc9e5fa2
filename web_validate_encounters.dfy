/** The browser build's encounter-table check: one pass over every scene's entries. */
module WebValidateEncounters {
  import opened Results
  import opened Content

  /** The messages the script throws. */
  datatype Failure =
    | UnknownCreatureInScene(creature: string, scene: string)
    | InvalidLevelRange(scene: string)
    | NonPositiveWeights(scene: string)

  /** The script's message for an encounter violation. */
  function Message(p: EncounterProblem): Failure {
    match p
    case UnknownCreature(scene, creature) => UnknownCreatureInScene(creature, scene)
    case BadLevelRange(scene, _) => InvalidLevelRange(scene)
    case NonPositiveTotal(scene) => NonPositiveWeights(scene)
  }

  /** The whole script: throws on the first bad entry or non-positive scene total. */
  method ValidateEncounters(cs: seq<Creature>, tables: seq<Scene>) returns (r: Outcome<Failure>)
    ensures r == Pass <==> EncounterVerdict(CreatureIds(cs), tables) == Pass
    ensures r.Fail? ==> EncounterVerdict(CreatureIds(cs), tables).Fail?
                        && r.error == Message(EncounterVerdict(CreatureIds(cs), tables).error)
  {
    var creatures := CreatureIds(cs);
    for i := 0 to |tables|
      invariant forall k :: 0 <= k < i ==> SceneProblem(tables[k].0, tables[k].1, creatures) == None
    {
      var (scene, entries) := tables[i];
      var total := 0;
      for j := 0 to |entries|
        invariant forall k :: 0 <= k < j ==> EntryOk(entries[k], creatures)
        invariant total == TotalWeight(entries[..j])
      {
        var e := entries[j];
        if e.creature !in creatures {
          FirstProblemSkipsGoodEntries(scene, entries, creatures, j);
          VerdictSkipsPassingScenes(creatures, tables, i);
          return Fail(UnknownCreatureInScene(e.creature, scene));
        }
        if e.minLevel > e.maxLevel {
          FirstProblemSkipsGoodEntries(scene, entries, creatures, j);
          VerdictSkipsPassingScenes(creatures, tables, i);
          return Fail(InvalidLevelRange(scene));
        }
        assert entries[..j + 1][..j] == entries[..j];
        total := total + e.weight;
      }
      assert entries[..|entries|] == entries;
      if total <= 0 {
        VerdictSkipsPassingScenes(creatures, tables, i);
        return Fail(NonPositiveWeights(scene));
      }
    }
    VerdictSkipsPassingScenes(creatures, tables, |tables|);
    r := Pass;
  }
}
