/** The room service: rooms belong to a move, and every operation first checks that the
    move (or the room's move) belongs to the requesting user. */
module RoomService {
  import opened Wrappers
  import opened Tables
  import opened Schema
  import opened Query
  import opened Cascade
  import opened Ownership
  import MoveService

  datatype NewRoom = NewRoom(name: string, description: Option<string>)

  /** An update request; a field left out of the request is not written. */
  datatype RoomPatch = RoomPatch(name: Option<string>, description: Option<string>)

  /** One row of the room statistics. */
  datatype RoomStat = RoomStat(id: Id, name: string, item_count: nat, packed_items: nat, total_value: Cents)

  /** createRoom: insert a room into an owned move. */
  function CreateRoom(st: State, moveId: Id, userId: Id, data: NewRoom, freshId: Id, now: Time): (r: Result<(State, Room)>)
    requires Valid(st) && !HasId(st.rooms, RoomKey, freshId)
    ensures r.Err? <==> !OwnsMove(st, moveId, userId)
    ensures r.Err? ==> r.error == MoveNotFound
    ensures r.Ok? ==> var (st', x) := r.value;
      && Valid(st')
      && x == Room(freshId, moveId, data.name, data.description, now, now)
      && OwnsRoom(st', freshId, userId)
      && (forall y :: y in st'.rooms <==> y in st.rooms || y == x)
      && st'.moves == st.moves && st'.tasks == st.tasks && st'.items == st.items && st'.boxes == st.boxes
  {
    if MoveService.GetMoveById(st, moveId, userId).None? then Err(MoveNotFound)
    else
      var x := Room(freshId, moveId, data.name, data.description, now, now);
      AppendRow(st.rooms, x, RoomKey);
      var st' := st.(rooms := st.rooms + [x]);
      var i :| 0 <= i < |st.moves| && st.moves[i].id == moveId && st.moves[i].user_id == userId;
      assert st'.rooms[|st.rooms|] == x;
      assert OwnsMove(st', moveId, userId);
      Ok((st', x))
  }

  /** ORDER BY name. */
  function ByName(x: Room): Key {
    [Asc(Str(x.name))]
  }

  /** getRoomsByMove: the rooms of an owned move, by name. */
  function GetRoomsByMove(st: State, moveId: Id, userId: Id): (r: Result<seq<Room>>)
    ensures r.Err? <==> !OwnsMove(st, moveId, userId)
    ensures r.Err? ==> r.error == MoveNotFound
    ensures r.Ok? ==> forall x :: multiset(r.value)[x] == if x.move_id == moveId then multiset(st.rooms)[x] else 0
    ensures r.Ok? ==> SortedBy(r.value, ByName)
  {
    if MoveService.GetMoveById(st, moveId, userId).None? then Err(MoveNotFound)
    else Ok(SortBy(Filter(st.rooms, (x: Room) => x.move_id == moveId), ByName))
  }

  /** getRoomById: the room, when its move belongs to `userId` (rooms JOIN moves). */
  function GetRoomById(st: State, roomId: Id, userId: Id): (r: Result<Room>)
    ensures r.Err? <==> !OwnsRoom(st, roomId, userId)
    ensures r.Err? ==> r.error == RoomNotFound
    ensures r.Ok? ==> r.value in st.rooms && r.value.id == roomId && OwnsMove(st, r.value.move_id, userId)
  {
    match Find(st.rooms, (x: Room) => x.id == roomId && OwnsMove(st, x.move_id, userId))
    case None => Err(RoomNotFound)
    case Some(x) => Ok(x)
  }

  /** The columns an update writes: the supplied fields and the update time. */
  function PatchRoom(x: Room, p: RoomPatch, now: Time): Room {
    x.(name := p.name.GetOr(x.name),
       description := if p.description.Some? then p.description else x.description,
       updated_at := now)
  }

  /** Rewriting rooms without touching their keys or moves keeps the schema valid. */
  lemma RoomUpdateValid(st: State, roomId: Id, f: Room -> Room)
    requires Valid(st)
    requires forall x :: f(x).id == x.id && f(x).move_id == x.move_id
    ensures Valid(st.(rooms := UpdateWhere(st.rooms, RoomKey, roomId, f)))
  {
    var rooms := UpdateWhere(st.rooms, RoomKey, roomId, f);
    forall y | y in rooms ensures HasId(st.moves, MoveKey, y.move_id) {
      if !(y in st.rooms) {
        var x :| x in st.rooms && x.id == roomId && y == f(x);
      }
    }
  }

  /** updateRoom: after the ownership check, rewrite the room with that id. */
  function UpdateRoom(st: State, roomId: Id, userId: Id, patch: RoomPatch, now: Time): (r: Result<(State, Room)>)
    requires Valid(st)
    ensures r.Err? <==> !OwnsRoom(st, roomId, userId)
    ensures r.Err? ==> r.error == RoomNotFound
    ensures r.Ok? ==> var (st', x) := r.value;
      && Valid(st')
      && x in st'.rooms && x.id == roomId && x.updated_at == now
      && (patch.name.Some? ==> x.name == patch.name.value)
      && (patch.description.Some? ==> x.description == patch.description)
      && (exists x0 :: x0 in st.rooms && x0.id == roomId && x == PatchRoom(x0, patch, now))
      && (forall y :: y in st.rooms && y.id != roomId ==> y in st'.rooms)
      && |st'.rooms| == |st.rooms|
      && st'.moves == st.moves && st'.tasks == st.tasks && st'.items == st.items && st'.boxes == st.boxes
  {
    match GetRoomById(st, roomId, userId)
    case Err(e) => Err(e)
    case Ok(x0) =>
      var f := (y: Room) => PatchRoom(y, patch, now);
      var rooms := UpdateWhere(st.rooms, RoomKey, roomId, f);
      RoomUpdateValid(st, roomId, f);
      Ok((st.(rooms := rooms), PatchRoom(x0, patch, now)))
  }

  /** deleteRoom: after the ownership check, delete the room; its items and the boxes bound
      for it stay, with the reference set to NULL. */
  function DeleteRoom(st: State, roomId: Id, userId: Id): (r: Result<State>)
    requires Valid(st)
    ensures r.Err? <==> !OwnsRoom(st, roomId, userId)
    ensures r.Err? ==> r.error == RoomNotFound
    ensures r.Ok? ==> var st' := r.value;
      && Valid(st')
      && !HasId(st'.rooms, RoomKey, roomId)
      && (forall y :: y in st'.rooms <==> y in st.rooms && y.id != roomId)
      && |st'.items| == |st.items|
      && (forall i :: 0 <= i < |st.items| ==>
            st'.items[i] == if st.items[i].room_id == Some(roomId) then st.items[i].(room_id := None) else st.items[i])
      && (forall b :: b in st'.boxes ==> b.destination_room_id != Some(roomId))
      && |st'.boxes| == |st.boxes|
      && (forall i :: 0 <= i < |st.boxes| ==>
            st'.boxes[i] == if st.boxes[i].destination_room_id == Some(roomId)
                            then st.boxes[i].(destination_room_id := None) else st.boxes[i])
      && st'.moves == st.moves && st'.tasks == st.tasks
  {
    match GetRoomById(st, roomId, userId)
    case Err(e) => Err(e)
    case Ok(_) =>
      RemoveRoomValid(st, roomId);
      WithoutHasId(st.rooms, RoomKey, roomId, roomId);
      Ok(RemoveRoom(st, roomId))
  }

  /** Items LEFT JOINed to room `roomId` (of any move). */
  function InRoom(roomId: Id): Item -> bool {
    (x: Item) => x.room_id == Some(roomId)
  }

  function InRoomPacked(roomId: Id): Item -> bool {
    (x: Item) => x.room_id == Some(roomId) && x.box_id.Some?
  }

  function ValueInRoom(roomId: Id): Item -> Cents {
    (x: Item) => if x.room_id == Some(roomId) then ValueOf(x) else 0
  }

  /** COUNT(items.id), COUNT(box_id IS NOT NULL) and COALESCE(SUM(estimated_value), 0) over the
      items joined to one room, computed in one pass. */
  function RoomTotals(items: seq<Item>, roomId: Id): (r: (nat, nat, Cents))
    ensures r.0 == Count(items, InRoom(roomId))
    ensures r.1 == Count(items, InRoomPacked(roomId))
    ensures r.2 == Sum(items, ValueInRoom(roomId))
  {
    if |items| == 0 then (0, 0, 0)
    else
      var (n, p, v) := RoomTotals(items[1..], roomId);
      var x := items[0];
      assert Count(items, InRoom(roomId)) == (if InRoom(roomId)(x) then 1 else 0) + Count(items[1..], InRoom(roomId));
      assert Count(items, InRoomPacked(roomId)) ==
        (if InRoomPacked(roomId)(x) then 1 else 0) + Count(items[1..], InRoomPacked(roomId));
      assert Sum(items, ValueInRoom(roomId)) == ValueInRoom(roomId)(x) + Sum(items[1..], ValueInRoom(roomId));
      (if x.room_id == Some(roomId) then n + 1 else n,
       if x.room_id == Some(roomId) && x.box_id.Some? then p + 1 else p,
       if x.room_id == Some(roomId) then ValueOf(x) + v else v)
  }

  function StatOf(items: seq<Item>, x: Room): (s: RoomStat)
    ensures s.id == x.id && s.name == x.name
    ensures s.item_count == Count(items, InRoom(x.id))
    ensures s.packed_items == Count(items, InRoomPacked(x.id))
    ensures s.packed_items <= s.item_count
    ensures s.total_value == Sum(items, ValueInRoom(x.id))
  {
    CountMonotonic(items, InRoomPacked(x.id), InRoom(x.id));
    var (n, p, v) := RoomTotals(items, x.id);
    RoomStat(x.id, x.name, n, p, v)
  }

  /** The rooms of one move. */
  function RoomsOf(rooms: seq<Room>, moveId: Id): (r: seq<Room>)
    ensures forall x :: x in r <==> x in rooms && x.move_id == moveId
  {
    Filter(rooms, (x: Room) => x.move_id == moveId)
  }

  /** getRoomStats: one row per room of an owned move, rooms without items included. */
  function GetRoomStats(st: State, moveId: Id, userId: Id): (r: Result<seq<RoomStat>>)
    ensures r.Err? <==> !OwnsMove(st, moveId, userId)
    ensures r.Err? ==> r.error == MoveNotFound
    ensures r.Ok? ==> |r.value| == |RoomsOf(st.rooms, moveId)|
    ensures r.Ok? ==> forall i :: 0 <= i < |r.value| ==> r.value[i] == StatOf(st.items, RoomsOf(st.rooms, moveId)[i])
  {
    if MoveService.GetMoveById(st, moveId, userId).None? then Err(MoveNotFound)
    else Ok(MapRowsTo(RoomsOf(st.rooms, moveId), (x: Room) => StatOf(st.items, x)))
  }

  /** Every room of the move has a statistics row, rooms without items included. */
  lemma RoomStatsCoverRooms(st: State, moveId: Id, userId: Id)
    requires OwnsMove(st, moveId, userId)
    ensures GetRoomStats(st, moveId, userId).Ok?
    ensures forall x :: x in st.rooms && x.move_id == moveId ==>
      exists s :: s in GetRoomStats(st, moveId, userId).value && s.id == x.id && s.name == x.name
  {
    var rooms := RoomsOf(st.rooms, moveId);
    var stats := GetRoomStats(st, moveId, userId).value;
    forall x | x in st.rooms && x.move_id == moveId
      ensures exists s :: s in stats && s.id == x.id && s.name == x.name
    {
      var i :| 0 <= i < |rooms| && rooms[i] == x;
      assert stats[i] in stats;
    }
  }

  /** Every statistics row is a room of the move, and no room has two rows. */
  lemma RoomStatsOnlyRooms(st: State, moveId: Id, userId: Id)
    requires UniqueIds(st.rooms, RoomKey) && OwnsMove(st, moveId, userId)
    ensures GetRoomStats(st, moveId, userId).Ok?
    ensures forall s :: s in GetRoomStats(st, moveId, userId).value ==>
      exists x :: x in st.rooms && x.move_id == moveId && x.id == s.id
    ensures var stats := GetRoomStats(st, moveId, userId).value;
      forall i, j :: 0 <= i < j < |stats| ==> stats[i].id != stats[j].id
  {
    var rooms := RoomsOf(st.rooms, moveId);
    var stats := GetRoomStats(st, moveId, userId).value;
    FilterUniqueIds(st.rooms, (x: Room) => x.move_id == moveId, RoomKey);
    forall i, j | 0 <= i < j < |stats| ensures stats[i].id != stats[j].id {
      assert stats[i].id == rooms[i].id && stats[j].id == rooms[j].id;
    }
    forall s | s in stats
      ensures exists x :: x in st.rooms && x.move_id == moveId && x.id == s.id
    {
      var i :| 0 <= i < |stats| && stats[i] == s;
      assert rooms[i] in rooms;
    }
  }
}
