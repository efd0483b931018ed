/** The move service: a user's moves, each owned through `user_id`. Every read and write
    is filtered by both the move id and the requesting user's id. */
module MoveService {
  import opened Wrappers
  import opened Tables
  import opened Schema
  import opened Query
  import opened Cascade
  import opened Ownership
  import opened Text

  /** The fields of a create request. */
  datatype NewMove = NewMove(
    startLocation: Location,
    endLocation: Location,
    moveDate: string,
    householdSize: Option<int>,
    inventorySizeEstimate: Option<string>)

  /** The fields of an update request; `None` is a field the request leaves out. */
  datatype MovePatch = MovePatch(
    startLocation: Option<Location>,
    endLocation: Option<Location>,
    moveDate: Option<string>,
    householdSize: Option<int>,
    inventorySizeEstimate: Option<string>)

  /** The row selected by `WHERE id = moveId AND user_id = userId`. */
  predicate IsOwned(m: Move, moveId: Id, userId: Id) {
    m.id == moveId && m.user_id == userId
  }

  /** createMove: insert a move for `userId`; status takes its column default. */
  function CreateMove(st: State, userId: Id, data: NewMove, freshId: Id, now: Time): (r: (State, Move))
    requires Valid(st) && !HasId(st.moves, MoveKey, freshId)
    ensures var (st', m) := r;
      && m.id == freshId && m.user_id == userId && m.status == DefaultMoveStatus
      && m.start_location == data.startLocation && m.end_location == data.endLocation
      && m.move_date == data.moveDate && m.household_size == data.householdSize
      && m.inventory_size_estimate == data.inventorySizeEstimate
      && m.created_at == now && m.updated_at == now
    ensures Valid(r.0) && OwnsMove(r.0, freshId, userId)
    ensures r.0.tasks == st.tasks && r.0.rooms == st.rooms && r.0.items == st.items && r.0.boxes == st.boxes
    ensures forall m :: m in st.moves ==> m in r.0.moves
    ensures r.0.moves == st.moves + [r.1]
  {
    var m := Move(freshId, userId, data.startLocation, data.endLocation, data.moveDate, DefaultMoveStatus,
                  data.householdSize, data.inventorySizeEstimate, now, now);
    AppendRow(st.moves, m, MoveKey);
    var st' := st.(moves := st.moves + [m]);
    assert st'.moves[|st.moves|] == m;
    (st', m)
  }

  /** ORDER BY created_at DESC. */
  function NewestFirst(m: Move): Key {
    [Desc(Num(m.created_at))]
  }

  /** getMovesByUserId: the user's moves, newest first. */
  function GetMovesByUserId(st: State, userId: Id): (r: seq<Move>)
    ensures forall m :: multiset(r)[m] == if m.user_id == userId then multiset(st.moves)[m] else 0
    ensures SortedBy(r, NewestFirst)
  {
    SortBy(Filter(st.moves, (m: Move) => m.user_id == userId), NewestFirst)
  }

  /** getMoveById: the move, only when it belongs to `userId`. */
  function GetMoveById(st: State, moveId: Id, userId: Id): (r: Option<Move>)
    ensures r.Some? <==> OwnsMove(st, moveId, userId)
    ensures r.Some? ==> r.value in st.moves && r.value.id == moveId && r.value.user_id == userId
  {
    Find(st.moves, (m: Move) => IsOwned(m, moveId, userId))
  }

  /** The columns an update request sets: an object location always, a date or size estimate
      only when non-empty (JavaScript truthiness), a household size whenever it is given. */
  function PatchMove(m: Move, p: MovePatch): Move {
    m.(start_location := if p.startLocation.Some? then p.startLocation.value else m.start_location,
       end_location := if p.endLocation.Some? then p.endLocation.value else m.end_location,
       move_date := if Given(p.moveDate) then p.moveDate.value else m.move_date,
       household_size := if p.householdSize.Some? then p.householdSize else m.household_size,
       inventory_size_estimate :=
         if Given(p.inventorySizeEstimate) then p.inventorySizeEstimate
         else m.inventory_size_estimate)
  }

  /** Whether the request sets any column at all. */
  predicate SetsSomething(p: MovePatch) {
    || p.startLocation.Some? || p.endLocation.Some?
    || Given(p.moveDate)
    || p.householdSize.Some?
    || Given(p.inventorySizeEstimate)
  }

  /** Apply `f` to the rows selected by `WHERE id = moveId AND user_id = userId`. */
  function UpdateOwned(moves: seq<Move>, moveId: Id, userId: Id, f: Move -> Move): seq<Move> {
    MapRowsTo(moves, (m: Move) => if IsOwned(m, moveId, userId) then f(m) else m)
  }

  /** An update that rewrites only the selected row and keeps its key keeps the schema valid. */
  lemma UpdateOwnedValid(st: State, moveId: Id, userId: Id, f: Move -> Move)
    requires Valid(st)
    requires forall m :: f(m).id == m.id
    ensures Valid(st.(moves := UpdateOwned(st.moves, moveId, userId, f)))
  {
    SameKeysAgree(st.moves, UpdateOwned(st.moves, moveId, userId, f), MoveKey);
  }

  /** Under unique keys, at most one row is selected by `WHERE id = moveId AND user_id = userId`. */
  lemma OwnedMoveUnique(moves: seq<Move>, moveId: Id, userId: Id, i: int)
    requires UniqueIds(moves, MoveKey) && 0 <= i < |moves| && IsOwned(moves[i], moveId, userId)
    ensures forall j :: 0 <= j < |moves| && IsOwned(moves[j], moveId, userId) ==> moves[j] == moves[i]
  {
  }

  /** updateMove: the updated move, or `None` when the user owns no such move. An update that
      sets no column is refused before the ownership filter runs. `updated_at` is not touched. */
  function UpdateMove(st: State, moveId: Id, userId: Id, patch: MovePatch): (r: Result<(State, Option<Move>)>)
    requires Valid(st)
    ensures r.Err? <==> !SetsSomething(patch)
    ensures r.Err? ==> r.error == EmptyUpdate
    ensures r.Ok? ==> Valid(r.value.0)
    ensures r.Ok? ==> (r.value.1.Some? <==> OwnsMove(st, moveId, userId))
    ensures r.Ok? && r.value.1.None? ==> r.value.0 == st
    ensures r.Ok? && r.value.1.Some? ==>
      var m := r.value.1.value;
      && m in r.value.0.moves && IsOwned(m, moveId, userId)
      && exists m0 :: m0 in st.moves && IsOwned(m0, moveId, userId) && m == PatchMove(m0, patch)
    ensures r.Ok? ==> forall m :: m in st.moves && !IsOwned(m, moveId, userId) ==> m in r.value.0.moves
    ensures r.Ok? ==> |r.value.0.moves| == |st.moves|
    ensures r.Ok? && r.value.1.Some? ==> forall i :: 0 <= i < |st.moves| ==>
      r.value.0.moves[i] == if IsOwned(st.moves[i], moveId, userId) then r.value.1.value else st.moves[i]
    ensures r.Ok? ==> (r.value.0.tasks, r.value.0.rooms, r.value.0.items, r.value.0.boxes) == (st.tasks, st.rooms, st.items, st.boxes)
  {
    if !SetsSomething(patch) then Err(EmptyUpdate)
    else
      match GetMoveById(st, moveId, userId)
      case None =>
        assert forall m :: (m in st.moves && IsOwned(m, moveId, userId)) ==> false;
        Ok((st, None))
      case Some(m0) =>
        var f := (m: Move) => PatchMove(m, patch);
        var moves := UpdateOwned(st.moves, moveId, userId, f);
        UpdateOwnedValid(st, moveId, userId, f);
        var i :| 0 <= i < |st.moves| && st.moves[i] == m0;
        assert moves[i] == PatchMove(m0, patch);
        assert forall j :: 0 <= j < |st.moves| && IsOwned(st.moves[j], moveId, userId) ==> st.moves[j] == m0 by {
          OwnedMoveUnique(st.moves, moveId, userId, i);
        }
        assert forall m :: m in st.moves && !IsOwned(m, moveId, userId) ==> m in moves by {
          forall m | m in st.moves && !IsOwned(m, moveId, userId) ensures m in moves {
            var j :| 0 <= j < |st.moves| && st.moves[j] == m;
            assert moves[j] == m;
          }
        }
        Ok((st.(moves := moves), Some(PatchMove(m0, patch))))
  }

  /** updateMoveStatus: set the status of an owned move; nothing else changes. */
  function UpdateMoveStatus(st: State, moveId: Id, userId: Id, status: string): (r: (State, Option<Move>))
    requires Valid(st)
    ensures Valid(r.0)
    ensures r.1.Some? <==> OwnsMove(st, moveId, userId)
    ensures r.1.None? ==> r.0 == st
    ensures r.1.Some? ==>
      && r.1.value in r.0.moves && IsOwned(r.1.value, moveId, userId) && r.1.value.status == status
      && exists m0 :: m0 in st.moves && IsOwned(m0, moveId, userId) && r.1.value == m0.(status := status)
    ensures forall m :: m in st.moves && !IsOwned(m, moveId, userId) ==> m in r.0.moves
    ensures |r.0.moves| == |st.moves|
    ensures r.1.Some? ==> forall i :: 0 <= i < |st.moves| ==>
      r.0.moves[i] == if IsOwned(st.moves[i], moveId, userId) then r.1.value else st.moves[i]
    ensures r.0.tasks == st.tasks && r.0.rooms == st.rooms && r.0.items == st.items && r.0.boxes == st.boxes
  {
    match GetMoveById(st, moveId, userId)
    case None =>
      (st, None)
    case Some(m0) =>
      var f := (m: Move) => m.(status := status);
      var moves := UpdateOwned(st.moves, moveId, userId, f);
      UpdateOwnedValid(st, moveId, userId, f);
      var i :| 0 <= i < |st.moves| && st.moves[i] == m0;
      assert moves[i] == m0.(status := status);
      assert forall m :: m in st.moves && !IsOwned(m, moveId, userId) ==> m in moves by {
        forall m | m in st.moves && !IsOwned(m, moveId, userId) ensures m in moves {
          var j :| 0 <= j < |st.moves| && st.moves[j] == m;
          assert moves[j] == m;
        }
      }
      (st.(moves := moves), Some(m0.(status := status)))
  }

  /** deleteMove: `true` iff an owned move was deleted; its tasks, rooms, items and boxes go
      with it and references to its rooms and boxes from other moves' rows become NULL. */
  function DeleteMove(st: State, moveId: Id, userId: Id): (r: (State, bool))
    requires Valid(st)
    ensures Valid(r.0)
    ensures r.1 <==> OwnsMove(st, moveId, userId)
    ensures !r.1 ==> r.0 == st
    ensures r.1 ==> forall m :: m in r.0.moves <==> m in st.moves && m.id != moveId
  {
    if GetMoveById(st, moveId, userId).Some? then
      var moves := Without(st.moves, MoveKey, moveId);
      CascadeValid(st, moves);
      (CascadeFrom(st, moves), true)
    else
      (st, false)
  }

  /** A created move is visible to its owner and to nobody else. */
  lemma CreateThenGet(st: State, userId: Id, data: NewMove, freshId: Id, now: Time, otherUser: Id)
    requires Valid(st) && !HasId(st.moves, MoveKey, freshId)
    ensures var (st', m) := CreateMove(st, userId, data, freshId, now);
      && GetMoveById(st', freshId, userId) == Some(m)
      && (otherUser != userId ==> GetMoveById(st', freshId, otherUser) == None)
  {
    var (st', m) := CreateMove(st, userId, data, freshId, now);
    assert st'.moves == st.moves + [m];
    assert forall i :: 0 <= i < |st.moves| ==> st'.moves[i].id != freshId by {
      forall i | 0 <= i < |st.moves| ensures st'.moves[i].id != freshId {
        assert st'.moves[i] == st.moves[i];
      }
    }
    assert forall i :: 0 <= i < |st'.moves| && st'.moves[i].id == freshId ==> i == |st.moves|;
  }

  /** Deleting an owned move deletes exactly its tasks and rooms, every one of its boxes and
      items, and keeps every row of the other moves, with references into the deleted move's
      rooms and boxes set to NULL. */
  lemma DeleteMoveCascades(st: State, moveId: Id, userId: Id)
    requires Valid(st) && OwnsMove(st, moveId, userId)
    ensures var st' := DeleteMove(st, moveId, userId).0;
      && (forall t :: t in st'.tasks <==> t in st.tasks && t.move_id != moveId)
      && (forall x :: x in st'.rooms <==> x in st.rooms && x.move_id != moveId)
      && (forall b :: b in st'.boxes ==> b.move_id != moveId)
      && (forall x :: x in st'.items ==> x.move_id != moveId)
      && (forall b :: b in st.boxes && b.move_id != moveId ==> RepointBox(st'.rooms, b) in st'.boxes)
      && (forall x :: x in st.items && x.move_id != moveId ==> RepointItem(st'.rooms, st'.boxes, x) in st'.items)
  {
    var moves := Without(st.moves, MoveKey, moveId);
    var st' := CascadeFrom(st, moves);
    assert DeleteMove(st, moveId, userId).0 == st';
    forall k ensures HasId(moves, MoveKey, k) <==> HasId(st.moves, MoveKey, k) && k != moveId {
      WithoutHasId(st.moves, MoveKey, moveId, k);
    }
    KeptBoxesFrom(st.boxes, moves, st'.rooms);
    KeptBoxesKeep(st.boxes, moves, st'.rooms);
    KeptItemsFrom(st.items, moves, st'.rooms, st'.boxes);
    KeptItemsKeep(st.items, moves, st'.rooms, st'.boxes);
  }
}
