/**
 * The Python content validator: three fail-fast checks run in a fixed order over the
 * loaded creatures, moves, items and encounter tables.
 */
module HullRpgValidate {
  import opened Results
  import opened Text
  import opened Content

  /** The assertion messages of the script, by the rule each one guards. */
  datatype Failure =
    | WrongCreatureCount(got: nat)
    | CreatureHasNoMoves(creature: string)
    | MissingMove(move: string, creature: string)
    | MissingRequiredItems(missing: seq<string>)
    | EncounterCreatureMissing(scene: string, creature: string)
    | EncounterLevelRangeInvalid(scene: string, entry: EncounterEntry)
    | EncounterWeightsNotPositive(scene: string)
    | TooFewMultiStageLines(got: nat)

  /** The first creature without moves or with an undefined move, in list order. */
  function FirstMoveFailure(cs: seq<Creature>, moveIds: set<string>): (r: Option<Failure>)
    ensures r == None <==> forall c :: c in cs ==> HasKnownMoves(c, moveIds)
    ensures r.Some? ==> r.value.CreatureHasNoMoves? || r.value.MissingMove?
    ensures r.Some? ==> exists k :: FirstWithoutKnownMoves(cs, moveIds, k) && r.value == MoveFailure(cs[k], moveIds)
  {
    if cs == [] then None
    else if cs[0].moves == [] then
      assert cs[0] in cs;
      assert FirstWithoutKnownMoves(cs, moveIds, 0);
      Some(CreatureHasNoMoves(cs[0].id))
    else if exists m :: m in cs[0].moves && m !in moveIds then
      assert cs[0] in cs;
      assert FirstWithoutKnownMoves(cs, moveIds, 0);
      Some(MissingMove(cs[0].moves[FirstUnknown(cs[0].moves, moveIds)], cs[0].id))
    else
      var rest := FirstMoveFailure(cs[1..], moveIds);
      assert cs == [cs[0]] + cs[1..];
      if rest.Some? then
        var k :| FirstWithoutKnownMoves(cs[1..], moveIds, k) && rest.value == MoveFailure(cs[1..][k], moveIds);
        assert cs[k + 1] == cs[1..][k];
        assert FirstWithoutKnownMoves(cs, moveIds, k + 1) by {
          forall i | 0 <= i < k + 1 ensures HasKnownMoves(cs[i], moveIds) {
            if i > 0 { assert cs[i] == cs[1..][i - 1]; }
          }
        }
        rest
      else rest
  }

  /** Creature `k` is the first of the list without a full set of defined moves. */
  predicate FirstWithoutKnownMoves(cs: seq<Creature>, moveIds: set<string>, k: int) {
    && 0 <= k < |cs|
    && !HasKnownMoves(cs[k], moveIds)
    && forall i :: 0 <= i < k ==> HasKnownMoves(cs[i], moveIds)
  }

  /** The failure a creature without known moves is reported for: no moves at all, else its first undefined move. */
  function MoveFailure(c: Creature, moveIds: set<string>): (r: Failure)
    requires !HasKnownMoves(c, moveIds)
    ensures r.MissingMove? ==> r.move in c.moves && r.move !in moveIds && r.creature == c.id
  {
    if c.moves == [] then CreatureHasNoMoves(c.id)
    else MissingMove(c.moves[FirstUnknown(c.moves, moveIds)], c.id)
  }

  /** The position of the first move id that is not defined. */
  function FirstUnknown(moves: seq<string>, moveIds: set<string>): (k: nat)
    requires exists m :: m in moves && m !in moveIds
    ensures k < |moves| && moves[k] !in moveIds
    ensures forall i :: 0 <= i < k ==> moves[i] in moveIds
  {
    if moves[0] !in moveIds then 0
    else
      assert exists m :: m in moves[1..] && m !in moveIds by {
        var m :| m in moves && m !in moveIds;
        assert m != moves[0];
      }
      1 + FirstUnknown(moves[1..], moveIds)
  }

  /** `sorted(required_items - items)`. */
  function MissingItems(itemIds: set<string>): (r: seq<string>)
    ensures Sorted(r)
    ensures forall x :: x in r <==> x in RequiredItems && x !in itemIds
    ensures Distinct(r)
    ensures r == [] <==> HasRequiredItems(itemIds)
  {
    var absent := Absent(RequiredItems, itemIds);
    var r := SortStrings(absent);
    assert forall x :: x in r <==> x in absent by {
      forall x ensures x in r <==> x in absent {
        assert x in r <==> x in multiset(r);
        assert x in absent <==> x in multiset(absent);
      }
    }
    DistinctByMultiset(absent, r);
    assert r != [] ==> r[0] in r;
    r
  }

  /** The elements of `s` outside `present`, in order. */
  function Absent(s: seq<string>, present: set<string>): (r: seq<string>)
    requires Distinct(s)
    ensures forall x :: x in r <==> x in s && x !in present
    ensures Distinct(r)
  {
    if s == [] then []
    else
      assert Distinct(s[1..]) by {
        forall i, j | 0 <= i < j < |s[1..]| ensures s[1..][i] != s[1..][j] {
          assert s[1..][i] == s[i + 1] && s[1..][j] == s[j + 1];
        }
      }
      var rest := Absent(s[1..], present);
      assert s[0] !in s[1..] by {
        forall i | 0 <= i < |s[1..]| ensures s[1..][i] != s[0] {
          assert s[1..][i] == s[i + 1];
        }
      }
      assert s == [s[0]] + s[1..];
      if s[0] in present then rest else [s[0]] + rest
  }

  /** Two lists with the same elements counted with multiplicity: one is repeat-free iff the other is. */
  lemma DistinctByMultiset(a: seq<string>, b: seq<string>)
    requires Distinct(a) && multiset(a) == multiset(b)
    ensures Distinct(b)
  {
    forall x ensures multiset(a)[x] <= 1 {
      DistinctCount(a, x);
    }
    forall i, j | 0 <= i < j < |b| ensures b[i] != b[j] {
      if b[i] == b[j] {
        TwoPositionsCount(b, i, j);
        assert false;
      }
    }
  }

  lemma {:induction false} DistinctCount(a: seq<string>, x: string)
    requires Distinct(a)
    ensures multiset(a)[x] <= 1
  {
    if a != [] {
      assert a == [a[0]] + a[1..];
      assert Distinct(a[1..]) by {
        forall i, j | 0 <= i < j < |a[1..]| ensures a[1..][i] != a[1..][j] {
          assert a[1..][i] == a[i + 1] && a[1..][j] == a[j + 1];
        }
      }
      DistinctCount(a[1..], x);
      if a[0] == x {
        assert x !in a[1..] by {
          forall i | 0 <= i < |a[1..]| ensures a[1..][i] != a[0] {
            assert a[1..][i] == a[i + 1];
          }
        }
      }
    }
  }

  lemma {:induction false} TwoPositionsCount(b: seq<string>, i: nat, j: nat)
    requires i < j < |b| && b[i] == b[j]
    ensures multiset(b)[b[i]] >= 2
  {
    if i > 0 {
      assert b == [b[0]] + b[1..];
      TwoPositionsCount(b[1..], i - 1, j - 1);
    } else {
      assert b == [b[0]] + b[1..];
      assert b[1..][j - 1] == b[j];
      assert b[j] in multiset(b[1..]);
    }
  }

  /** `check_creatures_moves_items`: the creature count, then each creature's moves, then the required items. */
  function CheckCreaturesMovesItems(cs: seq<Creature>, moves: seq<Move>, items: seq<Item>): (r: Outcome<Failure>)
    ensures r == Pass <==> CreaturesMovesItemsOk(cs, MoveIds(moves), ItemIds(items))
    ensures |cs| != CreatureCount ==> r == Fail(WrongCreatureCount(|cs|))
    ensures r.Fail? && r.error.MissingRequiredItems? ==>
      && Sorted(r.error.missing) && Distinct(r.error.missing) && r.error.missing != []
      && forall x :: x in r.error.missing <==> x in RequiredItems && x !in ItemIds(items)
  {
    if |cs| != CreatureCount then Fail(WrongCreatureCount(|cs|))
    else match FirstMoveFailure(cs, MoveIds(moves))
      case Some(f) => Fail(f)
      case None =>
        var missing := MissingItems(ItemIds(items));
        if missing == [] then Pass else Fail(MissingRequiredItems(missing))
  }

  /** The script's message for an encounter violation. */
  function EncounterFailure(p: EncounterProblem): Failure {
    match p
    case UnknownCreature(scene, creature) => EncounterCreatureMissing(scene, creature)
    case BadLevelRange(scene, entry) => EncounterLevelRangeInvalid(scene, entry)
    case NonPositiveTotal(scene) => EncounterWeightsNotPositive(scene)
  }

  /** `check_encounter_tables`: scene by scene, entry by entry, then the scene's weight total. */
  method CheckEncounterTables(cs: seq<Creature>, tables: seq<Scene>) returns (r: Outcome<Failure>)
    ensures r == Pass <==> EncounterVerdict(CreatureIds(cs), tables) == Pass
    ensures r.Fail? ==> EncounterVerdict(CreatureIds(cs), tables).Fail?
                        && r.error == EncounterFailure(EncounterVerdict(CreatureIds(cs), tables).error)
  {
    var creatures := CreatureIds(cs);
    var i := 0;
    while i < |tables|
      invariant 0 <= i <= |tables|
      invariant forall k :: 0 <= k < i ==> SceneProblem(tables[k].0, tables[k].1, creatures) == None
    {
      var (scene, entries) := tables[i];
      var total := 0;
      var j := 0;
      while j < |entries|
        invariant 0 <= j <= |entries|
        invariant forall k :: 0 <= k < j ==> EntryOk(entries[k], creatures)
        invariant total == TotalWeight(entries[..j])
      {
        var e := entries[j];
        if e.creature !in creatures || !(e.minLevel <= e.maxLevel) {
          FirstProblemSkipsGoodEntries(scene, entries, creatures, j);
          VerdictSkipsPassingScenes(creatures, tables, i);
          r := Fail(if e.creature !in creatures then EncounterCreatureMissing(scene, e.creature)
                    else EncounterLevelRangeInvalid(scene, e));
          return;
        }
        assert entries[..j + 1][..j] == entries[..j];
        total := total + e.weight;
        j := j + 1;
      }
      assert entries[..j] == entries;
      if !(total > 0) {
        VerdictSkipsPassingScenes(creatures, tables, i);
        r := Fail(EncounterWeightsNotPositive(scene));
        return;
      }
      i := i + 1;
    }
    VerdictSkipsPassingScenes(creatures, tables, i);
    r := Pass;
  }

  /** The creatures that evolve at all (`[c for c in creatures if c["evolves_to"]]`). */
  function Roots(cs: seq<Creature>): (r: seq<Creature>)
    ensures forall c :: c in r <==> c in cs && c.evolvesTo != ""
  {
    if cs == [] then []
    else (if cs[0].evolvesTo != "" then [cs[0]] else []) + Roots(cs[1..])
  }

  /** Dropping creatures that do not evolve leaves the line count unchanged. */
  lemma {:induction false} CountLinesOfRoots(cs: seq<Creature>, byId: map<string, Creature>)
    ensures CountLines(Roots(cs), byId) == CountLines(cs, byId)
  {
    if cs != [] {
      var c, rest := cs[0], cs[1..];
      CountLinesOfRoots(rest, byId);
      assert cs == [c] + rest;
      CountLinesAppend([c], rest, byId);
      CountLinesSingle(c, byId);
      if c.evolvesTo != "" {
        assert Roots(cs) == [c] + Roots(rest);
        CountLinesAppend([c], Roots(rest), byId);
      } else {
        assert Roots(cs) == [] + Roots(rest) == Roots(rest);
        assert !StartsMultiStageLine(c, byId);
      }
    }
  }

  /** The counting loop of `check_evolution_lines_and_save_schema_shape`. */
  method CountChains(roots: seq<Creature>, byId: map<string, Creature>) returns (chains: nat)
    requires forall c :: c in roots ==> c.evolvesTo != ""
    ensures chains == CountLines(roots, byId)
  {
    chains := 0;
    var i := 0;
    while i < |roots|
      invariant 0 <= i <= |roots|
      invariant chains == CountLines(roots[..i], byId)
    {
      var c := roots[i];
      var next := c.evolvesTo;
      assert roots[..i + 1] == roots[..i] + [c];
      CountLinesSnoc(roots[..i], c, byId);
      if next in byId && byId[next].evolvesTo != "" {
        chains := chains + 1;
      }
      i := i + 1;
    }
    assert roots[..i] == roots;
  }

  /** `check_evolution_lines_and_save_schema_shape`: count the multi-stage lines, then the save-key shape. */
  method CheckEvolutionLinesAndSaveSchemaShape(cs: seq<Creature>) returns (r: Outcome<Failure>)
    ensures r == Pass <==> EvolutionOk(cs)
    ensures r.Fail? ==> r == Fail(TooFewMultiStageLines(CountLines(cs, ById(cs))))
  {
    var byId := ById(cs);
    var roots := Roots(cs);
    var chains := CountChains(roots, byId);
    CountLinesOfRoots(cs, byId);
    if chains < MinMultiStageLines {
      return Fail(TooFewMultiStageLines(chains));
    }
    ExpectedSaveKeysAreEight();
    r := Pass;
  }

  /** The whole script: the three checks in order, stopping at the first failure. */
  method ValidateAll(cs: seq<Creature>, moves: seq<Move>, items: seq<Item>, tables: seq<Scene>) returns (r: Outcome<Failure>)
    ensures r == Pass <==>
      && CreaturesMovesItemsOk(cs, MoveIds(moves), ItemIds(items))
      && EncounterTablesOk(CreatureIds(cs), tables)
      && EvolutionOk(cs)
    ensures CheckCreaturesMovesItems(cs, moves, items).Fail? ==> r == CheckCreaturesMovesItems(cs, moves, items)
    ensures CheckCreaturesMovesItems(cs, moves, items) == Pass && EncounterVerdict(CreatureIds(cs), tables).Fail? ==>
      r == Fail(EncounterFailure(EncounterVerdict(CreatureIds(cs), tables).error))
    ensures CheckCreaturesMovesItems(cs, moves, items) == Pass && EncounterVerdict(CreatureIds(cs), tables) == Pass && !EvolutionOk(cs) ==>
      r == Fail(TooFewMultiStageLines(CountLines(cs, ById(cs))))
    ensures r.Fail? && r.error.TooFewMultiStageLines? ==>
      CreaturesMovesItemsOk(cs, MoveIds(moves), ItemIds(items)) && EncounterTablesOk(CreatureIds(cs), tables)
  {
    r := CheckCreaturesMovesItems(cs, moves, items);
    if r.Fail? {
      return;
    }
    EncounterVerdictPassesIffOk(CreatureIds(cs), tables);
    r := CheckEncounterTables(cs, tables);
    if r.Fail? {
      return;
    }
    r := CheckEvolutionLinesAndSaveSchemaShape(cs);
  }
}
