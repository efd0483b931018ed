/** The ownership guard every room, item and box operation runs first: a row is visible
    to a user only through a move whose `user_id` is that user. Each predicate is the
    WHERE clause (and join) of the corresponding guard query. */
module Ownership {
  import opened Wrappers
  import opened Tables
  import opened Schema

  /** `moves WHERE id = moveId AND user_id = userId` is non-empty. */
  predicate OwnsMove(st: State, moveId: Id, userId: Id) {
    exists i :: 0 <= i < |st.moves| && st.moves[i].id == moveId && st.moves[i].user_id == userId
  }

  /** `rooms JOIN moves ON rooms.move_id = moves.id WHERE rooms.id = roomId AND moves.user_id = userId`. */
  predicate OwnsRoom(st: State, roomId: Id, userId: Id) {
    exists i :: 0 <= i < |st.rooms| && st.rooms[i].id == roomId && OwnsMove(st, st.rooms[i].move_id, userId)
  }

  /** The same join for boxes. */
  predicate OwnsBox(st: State, boxId: Id, userId: Id) {
    exists i :: 0 <= i < |st.boxes| && st.boxes[i].id == boxId && OwnsMove(st, st.boxes[i].move_id, userId)
  }

  /** The same join for items. */
  predicate OwnsItem(st: State, itemId: Id, userId: Id) {
    exists i :: 0 <= i < |st.items| && st.items[i].id == itemId && OwnsMove(st, st.items[i].move_id, userId)
  }

  /** The user's box with that id (boxes JOIN moves). */
  function OwnedBox(st: State, boxId: Id, userId: Id): (r: Option<Box>)
    ensures r.Some? <==> OwnsBox(st, boxId, userId)
    ensures r.Some? ==> r.value in st.boxes && r.value.id == boxId && OwnsMove(st, r.value.move_id, userId)
  {
    Find(st.boxes, (b: Box) => b.id == boxId && OwnsMove(st, b.move_id, userId))
  }

  /** With unique keys, the owned room is the row its key names. */
  lemma OwnedRoomRow(st: State, roomId: Id, userId: Id)
    requires UniqueIds(st.rooms, RoomKey) && OwnsRoom(st, roomId, userId)
    ensures Lookup(st.rooms, RoomKey, roomId).Some?
    ensures OwnsMove(st, Lookup(st.rooms, RoomKey, roomId).value.move_id, userId)
  {
    var i :| 0 <= i < |st.rooms| && st.rooms[i].id == roomId && OwnsMove(st, st.rooms[i].move_id, userId);
    assert RoomKey(st.rooms[i]) == roomId;
  }

  lemma OwnedBoxRow(st: State, boxId: Id, userId: Id)
    requires UniqueIds(st.boxes, BoxKey) && OwnsBox(st, boxId, userId)
    ensures Lookup(st.boxes, BoxKey, boxId).Some?
    ensures OwnsMove(st, Lookup(st.boxes, BoxKey, boxId).value.move_id, userId)
  {
    var i :| 0 <= i < |st.boxes| && st.boxes[i].id == boxId && OwnsMove(st, st.boxes[i].move_id, userId);
    assert BoxKey(st.boxes[i]) == boxId;
  }

  lemma OwnedItemRow(st: State, itemId: Id, userId: Id)
    requires UniqueIds(st.items, ItemKey) && OwnsItem(st, itemId, userId)
    ensures Lookup(st.items, ItemKey, itemId).Some?
    ensures OwnsMove(st, Lookup(st.items, ItemKey, itemId).value.move_id, userId)
  {
    var i :| 0 <= i < |st.items| && st.items[i].id == itemId && OwnsMove(st, st.items[i].move_id, userId);
    assert ItemKey(st.items[i]) == itemId;
  }
}
