/** What the foreign-key actions of the migrations do when rows are deleted:
    ON DELETE CASCADE from moves to tasks, rooms, items and boxes, and ON DELETE SET NULL
    from rooms to `items.room_id` / `boxes.destination_room_id` and from boxes to `items.box_id`. */
module Cascade {
  import opened Wrappers
  import opened Tables
  import opened Schema

  /** ON DELETE SET NULL: a reference to a row that is no longer in `table` becomes NULL. */
  function KeepRef<T>(table: seq<T>, idOf: T -> Id, ref: Option<Id>): (r: Option<Id>)
    ensures RefOk(table, idOf, r)
    ensures ref.Some? && HasId(table, idOf, ref.value) ==> r == ref
    ensures r.Some? ==> r == ref
  {
    if ref.Some? && IndexOf(table, idOf, ref.value).None? then None else ref
  }

  /** A box after SET NULL against the surviving rooms. */
  function RepointBox(rooms: seq<Room>, b: Box): Box {
    b.(destination_room_id := KeepRef(rooms, RoomKey, b.destination_room_id))
  }

  /** An item after SET NULL against the surviving rooms and boxes. */
  function RepointItem(rooms: seq<Room>, boxes: seq<Box>, x: Item): Item {
    x.(room_id := KeepRef(rooms, RoomKey, x.room_id), box_id := KeepRef(boxes, BoxKey, x.box_id))
  }

  /** Whether the rows of move `moveId` survive when the moves table becomes `moves`. */
  predicate Lives(moves: seq<Move>, moveId: Id)
    ensures Lives(moves, moveId) <==> HasId(moves, MoveKey, moveId)
  {
    IndexOf(moves, MoveKey, moveId).Some?
  }

  function TaskLives(moves: seq<Move>): Task -> bool { (t: Task) => Lives(moves, t.move_id) }
  function RoomLives(moves: seq<Move>): Room -> bool { (x: Room) => Lives(moves, x.move_id) }
  function BoxLives(moves: seq<Move>): Box -> bool { (b: Box) => Lives(moves, b.move_id) }
  function ItemLives(moves: seq<Move>): Item -> bool { (x: Item) => Lives(moves, x.move_id) }

  /** ON DELETE CASCADE on tasks: the tasks of surviving moves. */
  function KeptTasks(tasks: seq<Task>, moves: seq<Move>): (r: seq<Task>)
    ensures forall t :: t in r <==> t in tasks && HasId(moves, MoveKey, t.move_id)
    ensures UniqueIds(tasks, TaskKey) ==> UniqueIds(r, TaskKey)
  {
    FilterUniqueIds(tasks, TaskLives(moves), TaskKey);
    assert forall t :: TaskLives(moves)(t) == Lives(moves, t.move_id);
    Filter(tasks, TaskLives(moves))
  }

  /** ON DELETE CASCADE on rooms: the rooms of surviving moves. */
  function KeptRooms(rooms: seq<Room>, moves: seq<Move>): (r: seq<Room>)
    ensures forall x :: x in r <==> x in rooms && HasId(moves, MoveKey, x.move_id)
    ensures UniqueIds(rooms, RoomKey) ==> UniqueIds(r, RoomKey)
  {
    FilterUniqueIds(rooms, RoomLives(moves), RoomKey);
    assert forall x :: RoomLives(moves)(x) == Lives(moves, x.move_id);
    Filter(rooms, RoomLives(moves))
  }

  /** ON DELETE CASCADE on boxes, then SET NULL on destinations outside `rooms`. */
  function KeptBoxes(boxes: seq<Box>, moves: seq<Move>, rooms: seq<Room>): (r: seq<Box>)
    ensures UniqueIds(boxes, BoxKey) ==> UniqueIds(r, BoxKey)
  {
    var kept := Filter(boxes, BoxLives(moves));
    FilterUniqueIds(boxes, BoxLives(moves), BoxKey);
    var r := MapRowsTo(kept, (b: Box) => RepointBox(rooms, b));
    SameKeysAgree(kept, r, BoxKey);
    r
  }

  /** ON DELETE CASCADE on items, then SET NULL on room and box references outside `rooms` / `boxes`. */
  function KeptItems(items: seq<Item>, moves: seq<Move>, rooms: seq<Room>, boxes: seq<Box>): (r: seq<Item>)
    ensures UniqueIds(items, ItemKey) ==> UniqueIds(r, ItemKey)
  {
    var kept := Filter(items, ItemLives(moves));
    FilterUniqueIds(items, ItemLives(moves), ItemKey);
    var r := MapRowsTo(kept, (x: Item) => RepointItem(rooms, boxes, x));
    SameKeysAgree(kept, r, ItemKey);
    r
  }

  /** Every surviving box is a box of a surviving move, changed at most in its destination. */
  lemma KeptBoxesFrom(boxes: seq<Box>, moves: seq<Move>, rooms: seq<Room>)
    ensures forall b :: b in KeptBoxes(boxes, moves, rooms) ==>
      HasId(moves, MoveKey, b.move_id) && exists b0 :: b0 in boxes && b == RepointBox(rooms, b0)
  {
    var kept := Filter(boxes, BoxLives(moves));
    var r := KeptBoxes(boxes, moves, rooms);
    assert forall b :: BoxLives(moves)(b) == Lives(moves, b.move_id);
    forall b | b in r
      ensures HasId(moves, MoveKey, b.move_id) && exists b0 :: b0 in boxes && b == RepointBox(rooms, b0)
    {
      var i :| 0 <= i < |r| && r[i] == b;
      assert kept[i] in kept;
    }
  }

  /** Every box of a surviving move survives, its destination set to NULL if that room is gone. */
  lemma KeptBoxesKeep(boxes: seq<Box>, moves: seq<Move>, rooms: seq<Room>)
    ensures forall b :: b in boxes && HasId(moves, MoveKey, b.move_id) ==> RepointBox(rooms, b) in KeptBoxes(boxes, moves, rooms)
  {
    var kept := Filter(boxes, BoxLives(moves));
    var r := KeptBoxes(boxes, moves, rooms);
    assert forall b :: BoxLives(moves)(b) == Lives(moves, b.move_id);
    forall b | b in boxes && HasId(moves, MoveKey, b.move_id)
      ensures RepointBox(rooms, b) in r
    {
      assert b in kept;
      var i :| 0 <= i < |kept| && kept[i] == b;
      assert r[i] == RepointBox(rooms, b);
    }
  }

  /** Every item of a surviving move survives, its room and box set to NULL if they are gone. */
  lemma KeptItemsKeep(items: seq<Item>, moves: seq<Move>, rooms: seq<Room>, boxes: seq<Box>)
    ensures forall x :: x in items && HasId(moves, MoveKey, x.move_id) ==> RepointItem(rooms, boxes, x) in KeptItems(items, moves, rooms, boxes)
  {
    var kept := Filter(items, ItemLives(moves));
    var r := KeptItems(items, moves, rooms, boxes);
    assert forall x :: ItemLives(moves)(x) == Lives(moves, x.move_id);
    forall x | x in items && HasId(moves, MoveKey, x.move_id)
      ensures RepointItem(rooms, boxes, x) in r
    {
      assert x in kept;
      var i :| 0 <= i < |kept| && kept[i] == x;
      assert r[i] == RepointItem(rooms, boxes, x);
    }
  }

  /** Every surviving item is an item of a surviving move, changed at most in its room and box. */
  lemma KeptItemsFrom(items: seq<Item>, moves: seq<Move>, rooms: seq<Room>, boxes: seq<Box>)
    ensures forall x :: x in KeptItems(items, moves, rooms, boxes) ==>
      HasId(moves, MoveKey, x.move_id) && exists x0 :: x0 in items && x == RepointItem(rooms, boxes, x0)
  {
    var kept := Filter(items, ItemLives(moves));
    var r := KeptItems(items, moves, rooms, boxes);
    assert forall x :: ItemLives(moves)(x) == Lives(moves, x.move_id);
    forall x | x in r
      ensures HasId(moves, MoveKey, x.move_id) && exists x0 :: x0 in items && x == RepointItem(rooms, boxes, x0)
    {
      var i :| 0 <= i < |r| && r[i] == x;
      assert kept[i] in kept;
    }
  }

  /** The database once the moves table has become `moves`: the tasks, rooms, boxes and items
      of every other move are deleted with it, and references to deleted rooms and boxes
      from the surviving rows are set to NULL. */
  function CascadeFrom(st: State, moves: seq<Move>): (r: State)
    ensures r.moves == moves
  {
    var rooms := KeptRooms(st.rooms, moves);
    var boxes := KeptBoxes(st.boxes, moves, rooms);
    State(moves, KeptTasks(st.tasks, moves), rooms, KeptItems(st.items, moves, rooms, boxes), boxes)
  }

  /** The cascade keeps the schema's constraints, whatever set of moves survives. */
  lemma CascadeValid(st: State, moves: seq<Move>)
    requires Valid(st) && UniqueIds(moves, MoveKey)
    ensures Valid(CascadeFrom(st, moves))
  {
    var r := CascadeFrom(st, moves);
    KeptBoxesFrom(st.boxes, moves, r.rooms);
    KeptItemsFrom(st.items, moves, r.rooms, r.boxes);
    assert QrCodesUnique(r.boxes) by {
      forall a, b | a in r.boxes && b in r.boxes && a.qr_code.Some? && a.qr_code == b.qr_code
        ensures a.id == b.id
      {
        var a0 :| a0 in st.boxes && a == RepointBox(r.rooms, a0);
        var b0 :| b0 in st.boxes && b == RepointBox(r.rooms, b0);
      }
    }
  }

  /** DELETE FROM rooms WHERE id = roomId, with SET NULL on the item and box references. */
  function RemoveRoom(st: State, roomId: Id): (r: State)
    ensures r.moves == st.moves && r.tasks == st.tasks
    ensures forall x :: x in r.rooms <==> x in st.rooms && x.id != roomId
    ensures |r.items| == |st.items| && |r.boxes| == |st.boxes|
    ensures forall i :: 0 <= i < |st.items| ==>
      r.items[i] == if st.items[i].room_id == Some(roomId) then st.items[i].(room_id := None) else st.items[i]
    ensures forall i :: 0 <= i < |st.boxes| ==>
      r.boxes[i] == if st.boxes[i].destination_room_id == Some(roomId) then st.boxes[i].(destination_room_id := None) else st.boxes[i]
  {
    State(
      st.moves,
      st.tasks,
      Without(st.rooms, RoomKey, roomId),
      MapRowsTo(st.items, (x: Item) => if x.room_id == Some(roomId) then x.(room_id := None) else x),
      MapRowsTo(st.boxes, (b: Box) => if b.destination_room_id == Some(roomId) then b.(destination_room_id := None) else b))
  }

  lemma RemoveRoomValid(st: State, roomId: Id)
    requires Valid(st)
    ensures Valid(RemoveRoom(st, roomId))
  {
    var r := RemoveRoom(st, roomId);
    forall k ensures HasId(r.rooms, RoomKey, k) <==> HasId(st.rooms, RoomKey, k) && k != roomId {
      WithoutHasId(st.rooms, RoomKey, roomId, k);
    }
    RemoveRoomBoxesValid(st, roomId);
    RemoveRoomItemsValid(st, roomId);
  }

  lemma RemoveRoomBoxesValid(st: State, roomId: Id)
    requires Valid(st)
    requires forall k :: HasId(RemoveRoom(st, roomId).rooms, RoomKey, k) <==> HasId(st.rooms, RoomKey, k) && k != roomId
    ensures BoxesValid(RemoveRoom(st, roomId))
  {
    var r := RemoveRoom(st, roomId);
    SameKeysAgree(st.boxes, r.boxes, BoxKey);
    RemoveRoomCodesUnique(st, roomId);
    forall b | b in r.boxes
      ensures HasId(st.moves, MoveKey, b.move_id) && RefOk(r.rooms, RoomKey, b.destination_room_id)
    {
      var i :| 0 <= i < |r.boxes| && r.boxes[i] == b;
      assert st.boxes[i] in st.boxes;
    }
  }

  /** Clearing destinations leaves every QR code on the box that had it. */
  lemma RemoveRoomCodesUnique(st: State, roomId: Id)
    requires QrCodesUnique(st.boxes)
    ensures QrCodesUnique(RemoveRoom(st, roomId).boxes)
  {
    var boxes := RemoveRoom(st, roomId).boxes;
    forall a, b | a in boxes && b in boxes && a.qr_code.Some? && a.qr_code == b.qr_code
      ensures a.id == b.id
    {
      var i :| 0 <= i < |boxes| && boxes[i] == a;
      var j :| 0 <= j < |boxes| && boxes[j] == b;
      assert st.boxes[i] in st.boxes && st.boxes[j] in st.boxes;
    }
  }

  lemma RemoveRoomItemsValid(st: State, roomId: Id)
    requires Valid(st)
    requires forall k :: HasId(RemoveRoom(st, roomId).rooms, RoomKey, k) <==> HasId(st.rooms, RoomKey, k) && k != roomId
    ensures ItemsValid(RemoveRoom(st, roomId))
  {
    var r := RemoveRoom(st, roomId);
    SameKeysAgree(st.items, r.items, ItemKey);
    SameKeysAgree(st.boxes, r.boxes, BoxKey);
    forall x | x in r.items
      ensures HasId(st.moves, MoveKey, x.move_id) && RefOk(r.rooms, RoomKey, x.room_id) && RefOk(r.boxes, BoxKey, x.box_id)
    {
      var i :| 0 <= i < |r.items| && r.items[i] == x;
      assert st.items[i] in st.items;
    }
  }

  /** DELETE FROM boxes WHERE id = boxId, with SET NULL on `items.box_id`. */
  function RemoveBox(st: State, boxId: Id): (r: State)
    ensures r.moves == st.moves && r.tasks == st.tasks && r.rooms == st.rooms
    ensures forall b :: b in r.boxes <==> b in st.boxes && b.id != boxId
    ensures |r.items| == |st.items|
    ensures forall i :: 0 <= i < |st.items| ==>
      r.items[i] == if st.items[i].box_id == Some(boxId) then st.items[i].(box_id := None) else st.items[i]
  {
    State(
      st.moves,
      st.tasks,
      st.rooms,
      MapRowsTo(st.items, (x: Item) => if x.box_id == Some(boxId) then x.(box_id := None) else x),
      Without(st.boxes, BoxKey, boxId))
  }

  lemma RemoveBoxValid(st: State, boxId: Id)
    requires Valid(st)
    ensures Valid(RemoveBox(st, boxId))
  {
    var r := RemoveBox(st, boxId);
    SameKeysAgree(st.items, r.items, ItemKey);
    forall k ensures HasId(r.boxes, BoxKey, k) <==> HasId(st.boxes, BoxKey, k) && k != boxId {
      WithoutHasId(st.boxes, BoxKey, boxId, k);
    }
    forall x | x in r.items
      ensures HasId(st.moves, MoveKey, x.move_id) && RefOk(r.rooms, RoomKey, x.room_id) && RefOk(r.boxes, BoxKey, x.box_id)
    {
      var i :| 0 <= i < |r.items| && r.items[i] == x;
      assert st.items[i] in st.items;
    }
  }

  /** DELETE FROM tasks WHERE id = taskId (nothing refers to tasks). */
  function RemoveTask(st: State, taskId: Id): (r: State)
    ensures r.moves == st.moves && r.rooms == st.rooms && r.items == st.items && r.boxes == st.boxes
    ensures forall t :: t in r.tasks <==> t in st.tasks && t.id != taskId
  {
    st.(tasks := Without(st.tasks, TaskKey, taskId))
  }

  lemma RemoveTaskValid(st: State, taskId: Id)
    requires Valid(st)
    ensures Valid(RemoveTask(st, taskId))
  {
  }

  /** DELETE FROM items WHERE id = itemId (nothing refers to items). */
  function RemoveItem(st: State, itemId: Id): (r: State)
    ensures r.moves == st.moves && r.tasks == st.tasks && r.rooms == st.rooms && r.boxes == st.boxes
    ensures forall x :: x in r.items <==> x in st.items && x.id != itemId
  {
    st.(items := Without(st.items, ItemKey, itemId))
  }

  lemma RemoveItemValid(st: State, itemId: Id)
    requires Valid(st)
    ensures Valid(RemoveItem(st, itemId))
  {
  }

  /** Deleting a user (the moves table's foreign key to users): their moves go, and with them
      everything those moves own. */
  function RemoveUser(st: State, userId: Id): (r: State)
    ensures forall m :: m in r.moves <==> m in st.moves && m.user_id != userId
  {
    CascadeFrom(st, Filter(st.moves, (m: Move) => m.user_id != userId))
  }

  lemma RemoveUserValid(st: State, userId: Id)
    requires Valid(st)
    ensures Valid(RemoveUser(st, userId))
    ensures forall t :: t in RemoveUser(st, userId).tasks ==> exists m :: m in st.moves && m.id == t.move_id && m.user_id != userId
  {
    var moves := Filter(st.moves, (m: Move) => m.user_id != userId);
    FilterUniqueIds(st.moves, (m: Move) => m.user_id != userId, MoveKey);
    CascadeValid(st, moves);
    forall t | t in RemoveUser(st, userId).tasks
      ensures exists m :: m in st.moves && m.id == t.move_id && m.user_id != userId
    {
      var i :| 0 <= i < |moves| && moves[i].id == t.move_id;
      assert moves[i] in moves;
    }
  }
}
