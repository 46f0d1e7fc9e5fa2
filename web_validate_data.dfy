/**
 * The browser build's content check for creatures, moves and items: the creature count,
 * every creature's moves, then the required items in list order, throwing on the first
 * violation.
 */
module WebValidateData {
  import opened Results
  import opened Content
  import HullRpgValidate

  /** The messages the script throws. */
  datatype Failure =
    | WrongCreatureCount(got: nat)
    | CreatureMissingMoves(creature: string)
    | UnknownMove(move: string, creature: string)
    | MissingRequiredItem(item: string)

  /** The first creature whose `moves` is missing or empty, or lists an unknown move. */
  function FirstMoveFailure(cs: seq<Creature>, moveIds: set<string>): (r: Option<Failure>)
    ensures r == None <==> forall c :: c in cs ==> HasKnownMoves(c, moveIds)
    ensures r.Some? ==> r.value.CreatureMissingMoves? || r.value.UnknownMove?
    ensures r.Some? ==> exists k :: HullRpgValidate.FirstWithoutKnownMoves(cs, moveIds, k) && r.value == MoveFailure(cs[k], moveIds)
  {
    if cs == [] then None
    else if |cs[0].moves| == 0 then
      assert cs[0] in cs;
      assert HullRpgValidate.FirstWithoutKnownMoves(cs, moveIds, 0);
      Some(CreatureMissingMoves(cs[0].id))
    else match FirstUnknownMove(cs[0].moves, moveIds)
      case Some(m) =>
        assert cs[0] in cs;
        assert HullRpgValidate.FirstWithoutKnownMoves(cs, moveIds, 0);
        Some(UnknownMove(m, cs[0].id))
      case None =>
        var rest := FirstMoveFailure(cs[1..], moveIds);
        assert cs == [cs[0]] + cs[1..];
        if rest.Some? then
          var k :| HullRpgValidate.FirstWithoutKnownMoves(cs[1..], moveIds, k) && rest.value == MoveFailure(cs[1..][k], moveIds);
          assert cs[k + 1] == cs[1..][k];
          assert HullRpgValidate.FirstWithoutKnownMoves(cs, moveIds, k + 1) by {
            forall i | 0 <= i < k + 1 ensures HasKnownMoves(cs[i], moveIds) {
              if i > 0 { assert cs[i] == cs[1..][i - 1]; }
            }
          }
          rest
        else rest
  }

  /** The failure a creature without known moves is reported for: missing moves, else its first unknown move. */
  function MoveFailure(c: Creature, moveIds: set<string>): (r: Failure)
    requires !HasKnownMoves(c, moveIds)
    ensures r.UnknownMove? ==> r.move in c.moves && r.move !in moveIds && r.creature == c.id
  {
    if |c.moves| == 0 then CreatureMissingMoves(c.id)
    else UnknownMove(FirstUnknownMove(c.moves, moveIds).value, c.id)
  }

  /** The first move of the list that `moveIds` lacks. */
  function FirstUnknownMove(moves: seq<string>, moveIds: set<string>): (r: Option<string>)
    ensures r == None <==> forall m :: m in moves ==> m in moveIds
    ensures r.Some? ==> r.value in moves && r.value !in moveIds
  {
    if moves == [] then None
    else if moves[0] !in moveIds then Some(moves[0])
    else
      assert moves == [moves[0]] + moves[1..];
      FirstUnknownMove(moves[1..], moveIds)
  }

  /** The first required item, in the script's list order, that the item ids lack. */
  function FirstMissingItem(required: seq<string>, itemIds: set<string>): (r: Option<string>)
    ensures r == None <==> forall x :: x in required ==> x in itemIds
    ensures r.Some? ==> exists k :: 0 <= k < |required| && required[k] == r.value && r.value !in itemIds
                                    && forall i :: 0 <= i < k ==> required[i] in itemIds
  {
    if required == [] then None
    else if required[0] !in itemIds then Some(required[0])
    else
      var rest := FirstMissingItem(required[1..], itemIds);
      assert required == [required[0]] + required[1..];
      if rest.Some? then
        var k :| 0 <= k < |required[1..]| && required[1..][k] == rest.value && rest.value !in itemIds
                 && forall i :: 0 <= i < k ==> required[1..][i] in itemIds;
        assert forall i :: 0 <= i < k + 1 ==> required[i] in itemIds by {
          forall i | 0 <= i < k + 1 ensures required[i] in itemIds {
            if i > 0 { assert required[i] == required[1..][i - 1]; }
          }
        }
        assert required[k + 1] == rest.value;
        rest
      else rest
  }

  /** The script from its first check to "validate_data: ok". */
  function Validate(cs: seq<Creature>, moves: seq<Move>, items: seq<Item>): (r: Outcome<Failure>)
    ensures r == Pass <==> CreaturesMovesItemsOk(cs, MoveIds(moves), ItemIds(items))
    ensures |cs| != CreatureCount ==> r == Fail(WrongCreatureCount(|cs|))
    ensures r.Fail? && r.error.MissingRequiredItem? ==>
      r.error.item in RequiredItems && r.error.item !in ItemIds(items)
  {
    if |cs| != CreatureCount then Fail(WrongCreatureCount(|cs|))
    else match FirstMoveFailure(cs, MoveIds(moves))
      case Some(f) => Fail(f)
      case None =>
        match FirstMissingItem(RequiredItems, ItemIds(items))
        case Some(id) => Fail(MissingRequiredItem(id))
        case None => Pass
  }

  /** Both scripts stop at the same creature and move for the same data. */
  lemma {:induction false} SameMoveFailure(cs: seq<Creature>, moveIds: set<string>)
    ensures FirstMoveFailure(cs, moveIds).None? <==> HullRpgValidate.FirstMoveFailure(cs, moveIds).None?
    ensures FirstMoveFailure(cs, moveIds).Some? ==>
      match FirstMoveFailure(cs, moveIds).value
      case CreatureMissingMoves(c) => HullRpgValidate.FirstMoveFailure(cs, moveIds) == Some(HullRpgValidate.CreatureHasNoMoves(c))
      case UnknownMove(m, c) => HullRpgValidate.FirstMoveFailure(cs, moveIds) == Some(HullRpgValidate.MissingMove(m, c))
      case _ => false
  {
    if cs != [] && |cs[0].moves| > 0 {
      var moves := cs[0].moves;
      match FirstUnknownMove(moves, moveIds)
      case Some(m) =>
        SameUnknownMove(moves, moveIds);
      case None =>
        SameMoveFailure(cs[1..], moveIds);
    }
  }

  /** The move both scripts name is the first unknown one of the creature's list. */
  lemma {:induction false} SameUnknownMove(moves: seq<string>, moveIds: set<string>)
    requires exists m :: m in moves && m !in moveIds
    ensures FirstUnknownMove(moves, moveIds) == Some(moves[HullRpgValidate.FirstUnknown(moves, moveIds)])
  {
    if moves[0] in moveIds {
      assert exists m :: m in moves[1..] && m !in moveIds by {
        var m :| m in moves && m !in moveIds;
        assert m != moves[0];
      }
      SameUnknownMove(moves[1..], moveIds);
    }
  }

  /** The browser check and the Python check accept exactly the same content. */
  lemma AgreesWithPythonCheck(cs: seq<Creature>, moves: seq<Move>, items: seq<Item>)
    ensures Validate(cs, moves, items) == Pass <==> HullRpgValidate.CheckCreaturesMovesItems(cs, moves, items) == Pass
  {
  }
}
