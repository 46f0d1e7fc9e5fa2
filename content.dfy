/**
 * The game content the validators read (creatures, moves, items, encounter tables) and the
 * integrity rules they enforce over it. A JSON document is modelled by the fields the
 * validators consume; a scene table keeps the file's scene order, because the validators
 * report the first violation they meet.
 */
module Content {
  import opened Results

  /** A creature record: its id, its move ids, and `evolves_to` ("" for null, absent or empty). */
  datatype Creature = Creature(id: string, moves: seq<string>, evolvesTo: string)

  datatype Move = Move(id: string)

  datatype Item = Item(id: string)

  /** One weighted spawn entry of a scene's encounter table. */
  datatype EncounterEntry = EncounterEntry(creature: string, minLevel: int, maxLevel: int, weight: int)

  /** A scene name with its encounter entries. */
  type Scene = (string, seq<EncounterEntry>)

  const CreatureCount: nat := 15

  /** The item ids every content set must define. */
  const RequiredItems: seq<string> := [
    "chip_spice", "pattie_bun", "fog_lantern", "dock_rope", "fair_token", "marina_pass",
    "founders_key", "silt_vial", "traffic_cone", "hull_fc_scarf", "hull_kr_badge"
  ]

  /** The least number of creatures that must start a line of at least three stages. */
  const MinMultiStageLines: nat := 3

  function MoveIds(moves: seq<Move>): set<string> {
    set m | m in moves :: m.id
  }

  function ItemIds(items: seq<Item>): set<string> {
    set i | i in items :: i.id
  }

  function CreatureIds(cs: seq<Creature>): set<string> {
    set c | c in cs :: c.id
  }

  // ---------------------------------------------------------------------------------------
  // Creatures, moves and items

  /** The creature has at least one move and every move it lists is defined. */
  predicate HasKnownMoves(c: Creature, moveIds: set<string>) {
    |c.moves| > 0 && forall m :: m in c.moves ==> m in moveIds
  }

  predicate HasRequiredItems(itemIds: set<string>) {
    forall r :: r in RequiredItems ==> r in itemIds
  }

  /** The rule both creature/move/item validators enforce. */
  predicate CreaturesMovesItemsOk(cs: seq<Creature>, moveIds: set<string>, itemIds: set<string>) {
    && |cs| == CreatureCount
    && (forall c :: c in cs ==> HasKnownMoves(c, moveIds))
    && HasRequiredItems(itemIds)
  }

  // ---------------------------------------------------------------------------------------
  // Encounter tables

  /** The sum of the weights of a scene's entries. */
  function TotalWeight(entries: seq<EncounterEntry>): int {
    if entries == [] then 0
    else TotalWeight(entries[..|entries| - 1]) + entries[|entries| - 1].weight
  }

  /** An entry names a known creature and has a non-empty level range. */
  predicate EntryOk(e: EncounterEntry, creatureIds: set<string>) {
    e.creature in creatureIds && e.minLevel <= e.maxLevel
  }

  predicate SceneOk(entries: seq<EncounterEntry>, creatureIds: set<string>) {
    (forall e :: e in entries ==> EntryOk(e, creatureIds)) && TotalWeight(entries) > 0
  }

  /** The rule both encounter validators enforce. */
  predicate EncounterTablesOk(creatureIds: set<string>, tables: seq<Scene>) {
    forall i :: 0 <= i < |tables| ==> SceneOk(tables[i].1, creatureIds)
  }

  /** The violations an encounter validator can report, whatever its wording. */
  datatype EncounterProblem =
    | UnknownCreature(scene: string, creature: string)
    | BadLevelRange(scene: string, entry: EncounterEntry)
    | NonPositiveTotal(scene: string)

  /** The first bad entry of a scene, checking the creature before the level range. */
  function FirstEntryProblem(scene: string, entries: seq<EncounterEntry>, creatureIds: set<string>): (r: Option<EncounterProblem>)
    ensures r == None <==> forall e :: e in entries ==> EntryOk(e, creatureIds)
    ensures r.Some? ==> !r.value.NonPositiveTotal? && r.value.scene == scene
    ensures r.Some? ==> exists k :: FirstBadEntry(entries, creatureIds, k) && r.value == EntryProblem(scene, entries[k], creatureIds)
  {
    if entries == [] then None
    else if entries[0].creature !in creatureIds then
      assert entries[0] in entries;
      assert FirstBadEntry(entries, creatureIds, 0);
      Some(UnknownCreature(scene, entries[0].creature))
    else if entries[0].minLevel > entries[0].maxLevel then
      assert entries[0] in entries;
      assert FirstBadEntry(entries, creatureIds, 0);
      Some(BadLevelRange(scene, entries[0]))
    else
      var rest := FirstEntryProblem(scene, entries[1..], creatureIds);
      assert entries == [entries[0]] + entries[1..];
      if rest.Some? then
        var k :| FirstBadEntry(entries[1..], creatureIds, k) && rest.value == EntryProblem(scene, entries[1..][k], creatureIds);
        assert entries[k + 1] == entries[1..][k];
        assert FirstBadEntry(entries, creatureIds, k + 1) by {
          forall i | 0 <= i < k + 1 ensures EntryOk(entries[i], creatureIds) {
            if i > 0 { assert entries[i] == entries[1..][i - 1]; }
          }
        }
        rest
      else rest
  }

  /** Entry `k` is the first one of the table that fails `EntryOk`. */
  predicate FirstBadEntry(entries: seq<EncounterEntry>, creatureIds: set<string>, k: int) {
    && 0 <= k < |entries|
    && !EntryOk(entries[k], creatureIds)
    && forall i :: 0 <= i < k ==> EntryOk(entries[i], creatureIds)
  }

  /** The problem a failing entry is reported for: an unknown creature is checked before the level range. */
  function EntryProblem(scene: string, e: EncounterEntry, creatureIds: set<string>): EncounterProblem {
    if e.creature !in creatureIds then UnknownCreature(scene, e.creature) else BadLevelRange(scene, e)
  }

  /** One scene's verdict: its first bad entry, else a non-positive total, else none. */
  function SceneProblem(scene: string, entries: seq<EncounterEntry>, creatureIds: set<string>): Option<EncounterProblem> {
    match FirstEntryProblem(scene, entries, creatureIds)
    case Some(p) => Some(p)
    case None => if TotalWeight(entries) > 0 then None else Some(NonPositiveTotal(scene))
  }

  /** The verdict of an encounter validator: the first problem of the first bad scene. */
  function EncounterVerdict(creatureIds: set<string>, tables: seq<Scene>): Outcome<EncounterProblem> {
    if tables == [] then Pass
    else match SceneProblem(tables[0].0, tables[0].1, creatureIds)
      case Some(p) => Fail(p)
      case None => EncounterVerdict(creatureIds, tables[1..])
  }

  /** The encounter verdict passes exactly when the encounter rule holds. */
  lemma {:induction false} EncounterVerdictPassesIffOk(creatureIds: set<string>, tables: seq<Scene>)
    ensures EncounterVerdict(creatureIds, tables) == Pass <==> EncounterTablesOk(creatureIds, tables)
  {
    if tables != [] {
      EncounterVerdictPassesIffOk(creatureIds, tables[1..]);
      assert forall i :: 1 <= i < |tables| ==> tables[i] == tables[1..][i - 1];
    }
  }

  /** A scene without entries fails, because its weight total stays 0. */
  lemma EmptySceneFails(scene: string, creatureIds: set<string>)
    ensures SceneProblem(scene, [], creatureIds) == Some(NonPositiveTotal(scene))
  {
  }

  /** A scene with a bad entry is reported for that entry, never for its weight total. */
  lemma EntryProblemReportedFirst(scene: string, entries: seq<EncounterEntry>, creatureIds: set<string>, e: EncounterEntry)
    requires e in entries && !EntryOk(e, creatureIds)
    ensures SceneProblem(scene, entries, creatureIds).Some?
    ensures SceneProblem(scene, entries, creatureIds).value.UnknownCreature?
         || SceneProblem(scene, entries, creatureIds).value.BadLevelRange?
  {
  }

  /** Scenes that pass do not change the verdict of the scenes after them. */
  lemma {:induction false} VerdictSkipsPassingScenes(creatureIds: set<string>, tables: seq<Scene>, i: nat)
    requires i <= |tables|
    requires forall k :: 0 <= k < i ==> SceneProblem(tables[k].0, tables[k].1, creatureIds) == None
    ensures EncounterVerdict(creatureIds, tables) == EncounterVerdict(creatureIds, tables[i..])
  {
    if i > 0 {
      VerdictSkipsPassingScenes(creatureIds, tables[1..], i - 1);
      assert tables[1..][i - 1..] == tables[i..];
    }
  }

  /** Entries that pass do not change the first problem of the entries after them. */
  lemma {:induction false} FirstProblemSkipsGoodEntries(scene: string, entries: seq<EncounterEntry>, creatureIds: set<string>, j: nat)
    requires j <= |entries|
    requires forall k :: 0 <= k < j ==> EntryOk(entries[k], creatureIds)
    ensures FirstEntryProblem(scene, entries, creatureIds) == FirstEntryProblem(scene, entries[j..], creatureIds)
  {
    if j > 0 {
      FirstProblemSkipsGoodEntries(scene, entries[1..], creatureIds, j - 1);
      assert entries[1..][j - 1..] == entries[j..];
    }
  }

  // ---------------------------------------------------------------------------------------
  // Evolution lines

  /** Python's `{c["id"]: c for c in creatures}`: a later record with the same id wins. */
  function ById(cs: seq<Creature>): (m: map<string, Creature>)
    ensures m.Keys == CreatureIds(cs)
    ensures forall i :: 0 <= i < |cs| ==> cs[i].id in m
    ensures forall id :: id in m ==> m[id] in cs && m[id].id == id
    ensures forall i :: 0 <= i < |cs| && LastWithId(cs, i) ==> m[cs[i].id] == cs[i]
  {
    if cs == [] then map[]
    else
      var init := cs[..|cs| - 1];
      var last := cs[|cs| - 1];
      assert cs == init + [last];
      forall i | 0 <= i < |cs| - 1 && LastWithId(cs, i) ensures LastWithId(init, i) {
        assert forall j :: i < j < |init| ==> init[j] == cs[j];
      }
      ById(init)[last.id := last]
  }

  /** No creature after position `i` has the same id, so a keyed map keeps `cs[i]`. */
  predicate LastWithId(cs: seq<Creature>, i: nat)
    requires i < |cs|
  {
    forall j :: i < j < |cs| ==> cs[j].id != cs[i].id
  }

  /** `c` evolves into a known creature that itself evolves further. */
  predicate StartsMultiStageLine(c: Creature, byId: map<string, Creature>) {
    c.evolvesTo != "" && c.evolvesTo in byId && byId[c.evolvesTo].evolvesTo != ""
  }

  /** How many of `cs` start a line of at least three stages. */
  function CountLines(cs: seq<Creature>, byId: map<string, Creature>): (n: nat)
    ensures n <= |cs|
  {
    if cs == [] then 0
    else CountLines(cs[..|cs| - 1], byId) + (if StartsMultiStageLine(cs[|cs| - 1], byId) then 1 else 0)
  }

  /** The count is 0 exactly when no creature starts a long line. */
  lemma {:induction false} CountLinesZeroIff(cs: seq<Creature>, byId: map<string, Creature>)
    ensures CountLines(cs, byId) == 0 <==> forall c :: c in cs ==> !StartsMultiStageLine(c, byId)
  {
    if cs != [] {
      var init, last := cs[..|cs| - 1], cs[|cs| - 1];
      CountLinesZeroIff(init, byId);
      if forall c :: c in cs ==> !StartsMultiStageLine(c, byId) {
        assert forall c :: c in init ==> c in cs;
      } else {
        var c :| c in cs && StartsMultiStageLine(c, byId);
        var i :| 0 <= i < |cs| && cs[i] == c;
        if i < |cs| - 1 {
          assert init[i] == c;
        }
      }
    }
  }

  /** The count is `|cs|` exactly when every creature starts a long line. */
  lemma {:induction false} CountLinesAllIff(cs: seq<Creature>, byId: map<string, Creature>)
    ensures CountLines(cs, byId) == |cs| <==> forall c :: c in cs ==> StartsMultiStageLine(c, byId)
  {
    if cs != [] {
      var init, last := cs[..|cs| - 1], cs[|cs| - 1];
      CountLinesAllIff(init, byId);
      if forall c :: c in cs ==> StartsMultiStageLine(c, byId) {
        assert forall c :: c in init ==> c in cs;
      } else {
        var c :| c in cs && !StartsMultiStageLine(c, byId);
        var i :| 0 <= i < |cs| && cs[i] == c;
        if i < |cs| - 1 {
          assert init[i] == c;
        }
      }
    }
  }

  /** Counting one more creature adds one exactly when it starts a long line. */
  lemma CountLinesSnoc(cs: seq<Creature>, c: Creature, byId: map<string, Creature>)
    ensures CountLines(cs + [c], byId) == CountLines(cs, byId) + (if StartsMultiStageLine(c, byId) then 1 else 0)
  {
    assert (cs + [c])[..|cs|] == cs;
  }

  /** A single creature counts one exactly when it starts a long line. */
  lemma CountLinesSingle(c: Creature, byId: map<string, Creature>)
    ensures CountLines([c], byId) == if StartsMultiStageLine(c, byId) then 1 else 0
  {
    assert [c][..0] == [];
  }

  /** Counting adds up over concatenation. */
  lemma {:induction false} CountLinesAppend(a: seq<Creature>, b: seq<Creature>, byId: map<string, Creature>)
    ensures CountLines(a + b, byId) == CountLines(a, byId) + CountLines(b, byId)
    decreases |b|
  {
    if b != [] {
      var bi, last := b[..|b| - 1], b[|b| - 1];
      CountLinesAppend(a, bi, byId);
      assert b == bi + [last];
      assert a + b == (a + bi) + [last];
      CountLinesSnoc(a + bi, last, byId);
      CountLinesSnoc(bi, last, byId);
    } else {
      assert a + b == a;
    }
  }

  /** A creature whose target is unknown is never counted: removing it keeps the count. */
  lemma CountLinesIgnoresUnknownTarget(a: seq<Creature>, c: Creature, b: seq<Creature>, byId: map<string, Creature>)
    requires c.evolvesTo !in byId
    ensures CountLines(a + [c] + b, byId) == CountLines(a + b, byId)
  {
    CountLinesAppend(a + [c], b, byId);
    CountLinesAppend(a, [c], byId);
    CountLinesAppend(a, b, byId);
  }

  /** The evolution rule: at least three creatures start a line of three or more stages. */
  predicate EvolutionOk(cs: seq<Creature>) {
    CountLines(cs, ById(cs)) >= MinMultiStageLines
  }

  /** The top-level keys a save payload must carry. */
  const ExpectedSaveKeys: seq<string> := [
    "save_version", "player", "party", "inventory", "world_flags", "npc_states", "roaming", "time_steps"
  ]

  /** No element occurs twice. */
  predicate Distinct(s: seq<string>) {
    forall i, j :: 0 <= i < j < |s| ==> s[i] != s[j]
  }

  /** A list without repeats has as many distinct elements as entries. */
  lemma {:induction false} DistinctCardinality(s: seq<string>)
    requires Distinct(s)
    ensures |set x | x in s| == |s|
  {
    if s != [] {
      var t := s[1..];
      DistinctCardinality(t);
      assert (set x | x in s) == (set x | x in t) + {s[0]};
      assert s[0] !in t;
    }
  }

  /** The save-key list names eight different keys. */
  lemma ExpectedSaveKeysAreEight()
    ensures |set k | k in ExpectedSaveKeys| == 8
  {
    DistinctCardinality(ExpectedSaveKeys);
  }
}
