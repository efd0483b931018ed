/** The box service: the boxes of a move, their QR codes and their packing milestones.
    Every operation first checks that the move, or the box's move, belongs to the requesting
    user; a destination room need only belong to the same user. */
module BoxService {
  import opened Wrappers
  import opened Tables
  import opened Schema
  import opened Query
  import opened Text
  import opened Cascade
  import opened Ownership
  import ItemService
  import Json

  /** A create request; `None` is a field the request leaves out. */
  datatype NewBox = NewBox(
    label_text: string,
    destination_room_id: Option<Id>,
    box_type: Option<string>,
    notes: Option<string>)

  /** An update request; a field left out of the request is not written. */
  datatype BoxPatch = BoxPatch(
    label_text: Option<string>,
    destination_room_id: Option<Id>,
    box_type: Option<string>,
    notes: Option<string>,
    is_packed: Option<bool>,
    is_loaded: Option<bool>,
    is_delivered: Option<bool>)

  /** A box read with `rooms.name as destination_room_name` from the LEFT JOIN. */
  datatype BoxView = BoxView(row: Box, destination_room_name: Option<string>)

  /** The QR code minted from a fresh token (`BOX-` and the token). */
  function QrCode(token: string): (c: string)
    ensures |c| == |token| + 4 && c[..4] == "BOX-" && c[4..] == token
  {
    "BOX-" + token
  }

  /** Two codes minted from different tokens differ. */
  lemma QrCodeInjective(t1: string, t2: string)
    ensures QrCode(t1) == QrCode(t2) ==> t1 == t2
  {
    if QrCode(t1) == QrCode(t2) {
      assert t1 == QrCode(t1)[4..];
    }
  }

  /** No box carries this code yet: what a fresh token guarantees. */
  ghost predicate CodeFree(boxes: seq<Box>, code: string) {
    forall b :: b in boxes ==> b.qr_code != Some(code)
  }

  /** The destination room check of create and update: a given room id must name a room in
      some move of the user. An empty id is falsy and not checked. */
  function CheckDestination(st: State, userId: Id, roomId: Option<Id>): (r: Option<Failure>)
    ensures r.None? <==> !Given(roomId) || OwnsRoom(st, roomId.value, userId)
    ensures r.Some? ==> r.value == DestinationRoomNotFound
  {
    if Given(roomId) && !OwnsRoom(st, roomId.value, userId) then Some(DestinationRoomNotFound) else None
  }

  /** An owned destination room exists, so after the check only an empty id can break the
      foreign key. */
  lemma CheckedDestinationExists(st: State, userId: Id, roomId: Option<Id>)
    requires CheckDestination(st, userId, roomId).None? && roomId != Some("")
    ensures RefOk(st.rooms, RoomKey, roomId)
  {
    if roomId.Some? {
      var i :| 0 <= i < |st.rooms| && st.rooms[i].id == roomId.value && OwnsMove(st, st.rooms[i].move_id, userId);
      assert RoomKey(st.rooms[i]) == roomId.value;
    }
  }

  /** `box_type || 'standard'`. */
  function TypeOrDefault(t: Option<string>): string {
    if Given(t) then t.value else DefaultBoxType
  }

  /** The row createBox inserts: the column defaults fill what the request does not give. */
  function NewRow(moveId: Id, data: NewBox, freshId: Id, token: string, now: Time): Box {
    Box(freshId, moveId, data.label_text, Some(QrCode(token)), data.destination_room_id,
        TypeOrDefault(data.box_type), data.notes, false, false, false, None, None, None, now, now)
  }

  /** Appending a box keeps the constraints when its key and code are new and its references
      exist. */
  lemma AppendBoxValid(st: State, b: Box)
    requires Valid(st) && !HasId(st.boxes, BoxKey, b.id) && b.qr_code.Some? && CodeFree(st.boxes, b.qr_code.value)
    requires HasId(st.moves, MoveKey, b.move_id) && RefOk(st.rooms, RoomKey, b.destination_room_id)
    ensures Valid(st.(boxes := st.boxes + [b]))
  {
    AppendRow(st.boxes, b, BoxKey);
    var st' := st.(boxes := st.boxes + [b]);
    forall k | HasId(st.boxes, BoxKey, k)
      ensures HasId(st'.boxes, BoxKey, k)
    {
      var i :| 0 <= i < |st.boxes| && BoxKey(st.boxes[i]) == k;
      assert st'.boxes[i] == st.boxes[i];
    }
  }

  lemma OwnedMoveExists(st: State, moveId: Id, userId: Id)
    requires OwnsMove(st, moveId, userId)
    ensures HasId(st.moves, MoveKey, moveId)
  {
    var i :| 0 <= i < |st.moves| && st.moves[i].id == moveId && st.moves[i].user_id == userId;
    assert MoveKey(st.moves[i]) == moveId;
  }

  /** createBox: the owned move, then the destination room, then the insert with a freshly
      minted QR code. */
  function CreateBox(st: State, moveId: Id, userId: Id, data: NewBox, freshId: Id, token: string, now: Time): (r: Result<(State, Box)>)
    requires Valid(st) && !HasId(st.boxes, BoxKey, freshId) && CodeFree(st.boxes, QrCode(token))
    ensures !OwnsMove(st, moveId, userId) ==> r == Err(MoveNotFound)
    ensures OwnsMove(st, moveId, userId) ==>
      (r.Ok? <==> CheckDestination(st, userId, data.destination_room_id).None? && data.destination_room_id != Some(""))
    ensures r.Err? ==> r.error in {MoveNotFound, DestinationRoomNotFound, ForeignKeyViolation}
    ensures r.Ok? ==> var (st', b) := r.value;
      && Valid(st')
      && st'.boxes == st.boxes + [b]
      && OwnsBox(st', freshId, userId)
      && b.id == freshId && b.move_id == moveId && b.label_text == data.label_text
      && b.qr_code == Some("BOX-" + token)
      && b.destination_room_id == data.destination_room_id && b.notes == data.notes
      && (Given(data.box_type) ==> b.box_type == data.box_type.value)
      && (!Given(data.box_type) ==> b.box_type == "standard")
      && !b.is_packed && !b.is_loaded && !b.is_delivered
      && b.packed_at.None? && b.loaded_at.None? && b.delivered_at.None?
      && b.created_at == now && b.updated_at == now
      && st'.moves == st.moves && st'.tasks == st.tasks && st'.rooms == st.rooms && st'.items == st.items
  {
    if !OwnsMove(st, moveId, userId) then Err(MoveNotFound)
    else match CheckDestination(st, userId, data.destination_room_id)
      case Some(e) => Err(e)
      case None =>
        if data.destination_room_id == Some("") then Err(ForeignKeyViolation)
        else
          var b := NewRow(moveId, data, freshId, token, now);
          CheckedDestinationExists(st, userId, data.destination_room_id);
          OwnedMoveExists(st, moveId, userId);
          AppendBoxValid(st, b);
          var st' := st.(boxes := st.boxes + [b]);
          assert st'.boxes[|st.boxes|] == b;
          var i :| 0 <= i < |st.moves| && st.moves[i].id == moveId && st.moves[i].user_id == userId;
          assert OwnsMove(st', moveId, userId);
          Ok((st', b))
  }

  // ---------------------------------------------------------------- reads

  /** `rooms.name as destination_room_name` of the LEFT JOIN. */
  function DestinationNameOf(st: State, b: Box): Option<string> {
    if b.destination_room_id.None? then None
    else match Lookup(st.rooms, RoomKey, b.destination_room_id.value)
      case None => None
      case Some(room) => Some(room.name)
  }

  function ViewOf(st: State, b: Box): BoxView {
    BoxView(b, DestinationNameOf(st, b))
  }

  /** getBoxById: the box if it is the user's, with its destination room's name. */
  function GetBoxById(st: State, boxId: Id, userId: Id): (r: Result<BoxView>)
    ensures r.Ok? <==> OwnsBox(st, boxId, userId)
    ensures r.Err? ==> r.error == BoxNotFound
    ensures r.Ok? ==> var b := r.value.row;
      && b in st.boxes && b.id == boxId && OwnsMove(st, b.move_id, userId)
      && r.value.destination_room_name == DestinationNameOf(st, b)
  {
    match OwnedBox(st, boxId, userId)
    case None => Err(BoxNotFound)
    case Some(b) => Ok(ViewOf(st, b))
  }

  /** The query-string filters and sort of a listing. An absent or empty text value does not
      apply; a flag applies whenever it is given. */
  datatype BoxFilters = BoxFilters(
    box_type: Option<string>,
    is_packed: Option<bool>,
    is_loaded: Option<bool>,
    is_delivered: Option<bool>,
    destination_room_id: Option<Id>,
    search: Option<string>,
    sort_by: Option<string>,
    sort_order: Option<string>)

  const NoBoxFilters := BoxFilters(None, None, None, None, None, None, None, None)

  /** `ilike '%s%'` on the label or the notes; NULL notes never match. */
  predicate BoxSearchHits(b: Box, s: string) {
    ContainsIgnoringCase(b.label_text, s) || (b.notes.Some? && ContainsIgnoringCase(b.notes.value, s))
  }

  /** The WHERE clause a listing adds for the filters that apply. */
  predicate BoxMatches(f: BoxFilters, b: Box) {
    && (Given(f.box_type) ==> b.box_type == f.box_type.value)
    && (f.is_packed.Some? ==> b.is_packed == f.is_packed.value)
    && (f.is_loaded.Some? ==> b.is_loaded == f.is_loaded.value)
    && (f.is_delivered.Some? ==> b.is_delivered == f.is_delivered.value)
    && (Given(f.destination_room_id) ==> b.destination_room_id == f.destination_room_id)
    && (Given(f.search) ==> BoxSearchHits(b, f.search.value))
  }

  /** The same conditions, with the search stated over the substring relation. */
  ghost predicate BoxSelected(f: BoxFilters, b: Box) {
    && (Given(f.box_type) ==> b.box_type == f.box_type.value)
    && (f.is_packed.Some? ==> b.is_packed == f.is_packed.value)
    && (f.is_loaded.Some? ==> b.is_loaded == f.is_loaded.value)
    && (f.is_delivered.Some? ==> b.is_delivered == f.is_delivered.value)
    && (Given(f.destination_room_id) ==> b.destination_room_id == f.destination_room_id)
    && (Given(f.search) ==>
          || Occurs(LowerStr(f.search.value), LowerStr(b.label_text))
          || (b.notes.Some? && Occurs(LowerStr(f.search.value), LowerStr(b.notes.value))))
  }

  lemma MatchesIsSelected(f: BoxFilters, b: Box)
    ensures BoxMatches(f, b) <==> BoxSelected(f, b)
  {
  }

  function Listed(moveId: Id, f: BoxFilters): Box -> bool {
    (b: Box) => b.move_id == moveId && BoxMatches(f, b)
  }

  function OptTime(t: Option<Time>): Datum {
    if t.Some? then Num(t.value) else Null
  }

  /** The value of column `col` of the boxes table, or `None` when there is no such column. */
  function BoxColumn(col: string, b: Box): Option<Datum> {
    if col == "id" then Some(Str(b.id))
    else if col == "move_id" then Some(Str(b.move_id))
    else if col == "label" then Some(Str(b.label_text))
    else if col == "qr_code" then Some(OptStr(b.qr_code))
    else if col == "destination_room_id" then Some(OptStr(b.destination_room_id))
    else if col == "box_type" then Some(Str(b.box_type))
    else if col == "notes" then Some(OptStr(b.notes))
    else if col == "is_packed" then Some(Flag(b.is_packed))
    else if col == "is_loaded" then Some(Flag(b.is_loaded))
    else if col == "is_delivered" then Some(Flag(b.is_delivered))
    else if col == "packed_at" then Some(OptTime(b.packed_at))
    else if col == "loaded_at" then Some(OptTime(b.loaded_at))
    else if col == "delivered_at" then Some(OptTime(b.delivered_at))
    else if col == "created_at" then Some(Num(b.created_at))
    else if col == "updated_at" then Some(Num(b.updated_at))
    else None
  }

  predicate IsBoxColumn(col: string) {
    col in ["id", "move_id", "label", "qr_code", "destination_room_id", "box_type", "notes",
            "is_packed", "is_loaded", "is_delivered", "packed_at", "loaded_at", "delivered_at",
            "created_at", "updated_at"]
  }

  /** Every column name is answered, and only those. */
  lemma BoxColumnDefined(col: string, b: Box)
    ensures BoxColumn(col, b).Some? <==> IsBoxColumn(col)
  {
  }

  /** `sort_by || 'label'`. */
  function BoxSortColumn(f: BoxFilters): string {
    if Given(f.sort_by) then f.sort_by.value else "label"
  }

  /** ORDER BY boxes.<sort column> <direction>. */
  function BoxOrder(f: BoxFilters): Box -> Key {
    (b: Box) =>
      var d := BoxColumn(BoxSortColumn(f), b).GetOr(Null);
      [if Descending(f.sort_order) then Desc(d) else Asc(d)]
  }

  /** The table rows behind a list of views. */
  function Rows(vs: seq<BoxView>): seq<Box> {
    MapRowsTo(vs, (v: BoxView) => v.row)
  }

  /** getBoxesByMove: the owned move's boxes that pass every filter given, in the requested
      order, each with its destination room's name. */
  function GetBoxesByMove(st: State, moveId: Id, userId: Id, f: BoxFilters): (r: Result<seq<BoxView>>)
    ensures !OwnsMove(st, moveId, userId) ==> r == Err(MoveNotFound)
    ensures OwnsMove(st, moveId, userId) ==> (r.Ok? <==> IsBoxColumn(BoxSortColumn(f)))
    ensures r.Err? ==> r.error == MoveNotFound || r.error == UnknownColumn
    ensures r.Ok? ==> forall b :: multiset(Rows(r.value))[b] == if b.move_id == moveId && BoxSelected(f, b) then multiset(st.boxes)[b] else 0
    ensures r.Ok? ==> SortedBy(Rows(r.value), BoxOrder(f))
    ensures r.Ok? ==> forall i :: 0 <= i < |r.value| ==> r.value[i].destination_room_name == DestinationNameOf(st, r.value[i].row)
  {
    if !OwnsMove(st, moveId, userId) then Err(MoveNotFound)
    else if !IsBoxColumn(BoxSortColumn(f)) then Err(UnknownColumn)
    else Ok(Views(st, ListBoxes(st, moveId, f)))
  }

  /** The rows of a listing: the move's boxes the filters select, in the requested order. */
  function ListBoxes(st: State, moveId: Id, f: BoxFilters): (r: seq<Box>)
    ensures forall b :: multiset(r)[b] == if b.move_id == moveId && BoxSelected(f, b) then multiset(st.boxes)[b] else 0
    ensures SortedBy(r, BoxOrder(f))
  {
    assert forall b :: Listed(moveId, f)(b) <==> b.move_id == moveId && BoxSelected(f, b) by {
      forall b ensures Listed(moveId, f)(b) <==> b.move_id == moveId && BoxSelected(f, b) {
        MatchesIsSelected(f, b);
      }
    }
    SortBy(Filter(st.boxes, Listed(moveId, f)), BoxOrder(f))
  }

  /** Each row with its destination room's name. */
  function Views(st: State, rows: seq<Box>): (vs: seq<BoxView>)
    ensures Rows(vs) == rows
    ensures forall i :: 0 <= i < |vs| ==> vs[i].destination_room_name == DestinationNameOf(st, vs[i].row)
  {
    var vs := seq(|rows|, i requires 0 <= i < |rows| => ViewOf(st, rows[i]));
    assert Rows(vs) == rows;
    vs
  }

  // ---------------------------------------------------------------- writes

  /** Writes `f` over the found box `b0`; `f` keeps the key, move and QR code and writes
      only existing destinations. */
  function Rewrite(st: State, b0: Box, f: Box -> Box): (r: (State, Box))
    requires Valid(st) && b0 in st.boxes
    requires forall b :: f(b).id == b.id && f(b).move_id == b.move_id && f(b).qr_code == b.qr_code
    requires forall b :: b in st.boxes ==> RefOk(st.rooms, RoomKey, f(b).destination_room_id)
    ensures Valid(r.0)
    ensures |r.0.boxes| == |st.boxes|
    ensures forall i :: 0 <= i < |st.boxes| ==> r.0.boxes[i] == if st.boxes[i].id == b0.id then f(st.boxes[i]) else st.boxes[i]
    ensures r.1 == f(b0) && r.1 in r.0.boxes
    ensures r.0.moves == st.moves && r.0.tasks == st.tasks && r.0.rooms == st.rooms && r.0.items == st.items
  {
    var boxes := UpdateWhere(st.boxes, BoxKey, b0.id, f);
    assert Valid(st.(boxes := boxes)) by {
      BoxUpdateValid(st, b0.id, f);
    }
    assert f(b0) in boxes;
    (st.(boxes := boxes), f(b0))
  }

  /** Rewriting one box keeps the constraints when its key, move and QR code stay and the
      destination it writes exists. */
  lemma BoxUpdateValid(st: State, boxId: Id, f: Box -> Box)
    requires Valid(st)
    requires forall b :: f(b).id == b.id && f(b).move_id == b.move_id && f(b).qr_code == b.qr_code
    requires forall b :: b in st.boxes ==> RefOk(st.rooms, RoomKey, f(b).destination_room_id)
    ensures Valid(st.(boxes := UpdateWhere(st.boxes, BoxKey, boxId, f)))
  {
    var boxes := UpdateWhere(st.boxes, BoxKey, boxId, f);
    forall c | c in boxes
      ensures HasId(st.moves, MoveKey, c.move_id) && RefOk(st.rooms, RoomKey, c.destination_room_id)
      ensures exists b :: b in st.boxes && c.id == b.id && c.qr_code == b.qr_code
    {
      if c !in st.boxes {
        var b :| b in st.boxes && b.id == boxId && c == f(b);
      }
    }
    forall a, c | a in boxes && c in boxes && a.qr_code.Some? && a.qr_code == c.qr_code
      ensures a.id == c.id
    {
      var a0 :| a0 in st.boxes && a.id == a0.id && a.qr_code == a0.qr_code;
      var c0 :| c0 in st.boxes && c.id == c0.id && c.qr_code == c0.qr_code;
    }
  }

  /** The columns an update writes: the supplied fields and the update time. Setting a flag
      here does not stamp its milestone time. */
  function PatchBox(b: Box, p: BoxPatch, now: Time): Box {
    b.(label_text := p.label_text.GetOr(b.label_text),
       destination_room_id := if p.destination_room_id.Some? then p.destination_room_id else b.destination_room_id,
       box_type := p.box_type.GetOr(b.box_type),
       notes := if p.notes.Some? then p.notes else b.notes,
       is_packed := p.is_packed.GetOr(b.is_packed),
       is_loaded := p.is_loaded.GetOr(b.is_loaded),
       is_delivered := p.is_delivered.GetOr(b.is_delivered),
       updated_at := now)
  }

  function Patcher(p: BoxPatch, now: Time): Box -> Box {
    (b: Box) => PatchBox(b, p, now)
  }

  /** updateBox: the ownership check, the destination room check, then the supplied columns
      written. The QR code is never among them. */
  function UpdateBox(st: State, boxId: Id, userId: Id, patch: BoxPatch, now: Time): (r: Result<(State, Box)>)
    requires Valid(st)
    ensures !OwnsBox(st, boxId, userId) ==> r == Err(BoxNotFound)
    ensures OwnsBox(st, boxId, userId) ==>
      (r.Ok? <==> CheckDestination(st, userId, patch.destination_room_id).None? && patch.destination_room_id != Some(""))
    ensures r.Err? ==> r.error in {BoxNotFound, DestinationRoomNotFound, ForeignKeyViolation}
    ensures r.Ok? ==> var (st', out) := r.value;
      && OwnsBox(st, boxId, userId)
      && Valid(st')
      && PatchedAt(st.boxes, st'.boxes, boxId, patch, now)
      && out == PatchBox(OwnedBox(st, boxId, userId).value, patch, now)
      && out.qr_code == OwnedBox(st, boxId, userId).value.qr_code
      && out in st'.boxes
      && OnlyBoxes(st, st')
  {
    match GetBoxById(st, boxId, userId)
    case Err(e) => Err(e)
    case Ok(v) =>
      match CheckDestination(st, userId, patch.destination_room_id)
      case Some(e) => Err(e)
      case None =>
        if patch.destination_room_id == Some("") then Err(ForeignKeyViolation)
        else
          assert v.row == OwnedBox(st, boxId, userId).value;
          CheckedDestinationExists(st, userId, patch.destination_room_id);
          Ok(PatchRows(st, v.row, patch, now))
  }

  /** Only the boxes table changed. */
  predicate OnlyBoxes(st: State, st': State) {
    st'.moves == st.moves && st'.tasks == st.tasks && st'.rooms == st.rooms && st'.items == st.items
  }

  /** `after` is `before` with the box `boxId` patched and every other row as it was. */
  predicate PatchedAt(before: seq<Box>, after: seq<Box>, boxId: Id, patch: BoxPatch, now: Time) {
    && |after| == |before|
    && forall i :: 0 <= i < |before| ==>
         after[i] == if before[i].id == boxId then PatchBox(before[i], patch, now) else before[i]
  }

  function PatchRows(st: State, b0: Box, patch: BoxPatch, now: Time): (r: (State, Box))
    requires Valid(st) && b0 in st.boxes && RefOk(st.rooms, RoomKey, patch.destination_room_id)
    ensures Valid(r.0)
    ensures PatchedAt(st.boxes, r.0.boxes, b0.id, patch, now)
    ensures r.1 == PatchBox(b0, patch, now) && r.1.qr_code == b0.qr_code && r.1 in r.0.boxes
    ensures OnlyBoxes(st, r.0)
  {
    assert forall b :: b in st.boxes ==> RefOk(st.rooms, RoomKey, Patcher(patch, now)(b).destination_room_id);
    Rewrite(st, b0, Patcher(patch, now))
  }

  /** deleteBox: the ownership check, then the row goes and the items it held are unboxed
      (ON DELETE SET NULL). */
  function DeleteBox(st: State, boxId: Id, userId: Id): (r: Result<State>)
    requires Valid(st)
    ensures r.Ok? <==> OwnsBox(st, boxId, userId)
    ensures r.Err? ==> r.error == BoxNotFound
    ensures r.Ok? ==> var st' := r.value;
      && Valid(st')
      && !HasId(st'.boxes, BoxKey, boxId)
      && (forall b :: b in st'.boxes <==> b in st.boxes && b.id != boxId)
      && |st'.items| == |st.items|
      && (forall i :: 0 <= i < |st.items| ==>
            st'.items[i] == if st.items[i].box_id == Some(boxId) then st.items[i].(box_id := None) else st.items[i])
      && st'.moves == st.moves && st'.tasks == st.tasks && st'.rooms == st.rooms
  {
    match GetBoxById(st, boxId, userId)
    case Err(e) => Err(e)
    case Ok(_) =>
      RemoveBoxValid(st, boxId);
      WithoutHasId(st.boxes, BoxKey, boxId, boxId);
      Ok(RemoveBox(st, boxId))
  }

  // ---------------------------------------------------------------- milestones

  /** The three packing milestones, each a flag with the time it was last set. */
  datatype Milestone = Packed | Loaded | Delivered

  function Reached(b: Box, m: Milestone): bool {
    match m
    case Packed => b.is_packed
    case Loaded => b.is_loaded
    case Delivered => b.is_delivered
  }

  function StampOf(b: Box, m: Milestone): Option<Time> {
    match m
    case Packed => b.packed_at
    case Loaded => b.loaded_at
    case Delivered => b.delivered_at
  }

  /** The box with its milestones and update time blanked: what marking never touches. */
  function Unmarked(b: Box): Box {
    b.(is_packed := false, is_loaded := false, is_delivered := false,
       packed_at := None, loaded_at := None, delivered_at := None, updated_at := 0)
  }

  /** The row a mark writes: its own flag, its own time, and the update time. */
  function MarkRow(b: Box, m: Milestone, now: Time): (r: Box)
    ensures Reached(r, m) && StampOf(r, m) == Some(now) && r.updated_at == now
    ensures forall m' :: m' != m ==> Reached(r, m') == Reached(b, m') && StampOf(r, m') == StampOf(b, m')
    ensures Unmarked(r) == Unmarked(b)
  {
    match m
    case Packed => b.(is_packed := true, packed_at := Some(now), updated_at := now)
    case Loaded => b.(is_loaded := true, loaded_at := Some(now), updated_at := now)
    case Delivered => b.(is_delivered := true, delivered_at := Some(now), updated_at := now)
  }

  function Marker(m: Milestone, now: Time): Box -> Box {
    (b: Box) => MarkRow(b, m, now)
  }

  /** markBoxAsPacked / markBoxAsLoaded / markBoxAsDelivered: after the ownership check, one
      milestone is set whatever the others are. */
  function MarkBox(st: State, boxId: Id, userId: Id, m: Milestone, now: Time): (r: Result<(State, Box)>)
    requires Valid(st)
    ensures r.Ok? <==> OwnsBox(st, boxId, userId)
    ensures r.Err? ==> r.error == BoxNotFound
    ensures r.Ok? ==> var (st', out) := r.value;
      && OwnsBox(st, boxId, userId)
      && Valid(st')
      && MarkedAt(st.boxes, st'.boxes, boxId, m, now)
      && out == MarkRow(OwnedBox(st, boxId, userId).value, m, now)
      && out in st'.boxes
      && OnlyBoxes(st, st')
  {
    match GetBoxById(st, boxId, userId)
    case Err(e) => Err(e)
    case Ok(v) =>
      assert v.row == OwnedBox(st, boxId, userId).value;
      Ok(MarkRows(st, v.row, m, now))
  }

  /** `after` is `before` with milestone `m` set on the box `boxId` and every other row as
      it was. */
  predicate MarkedAt(before: seq<Box>, after: seq<Box>, boxId: Id, m: Milestone, now: Time) {
    && |after| == |before|
    && forall i :: 0 <= i < |before| ==>
         after[i] == if before[i].id == boxId then MarkRow(before[i], m, now) else before[i]
  }

  /** The write of a mark once the box is found: its milestone set, every other row as it
      was. */
  function MarkRows(st: State, b0: Box, m: Milestone, now: Time): (r: (State, Box))
    requires Valid(st) && b0 in st.boxes
    ensures Valid(r.0)
    ensures MarkedAt(st.boxes, r.0.boxes, b0.id, m, now)
    ensures r.1 == MarkRow(b0, m, now) && r.1 in r.0.boxes
    ensures OnlyBoxes(st, r.0)
  {
    Rewrite(st, b0, Marker(m, now))
  }

  function MarkBoxAsPacked(st: State, boxId: Id, userId: Id, now: Time): Result<(State, Box)>
    requires Valid(st)
  {
    MarkBox(st, boxId, userId, Packed, now)
  }

  function MarkBoxAsLoaded(st: State, boxId: Id, userId: Id, now: Time): Result<(State, Box)>
    requires Valid(st)
  {
    MarkBox(st, boxId, userId, Loaded, now)
  }

  function MarkBoxAsDelivered(st: State, boxId: Id, userId: Id, now: Time): Result<(State, Box)>
    requires Valid(st)
  {
    MarkBox(st, boxId, userId, Delivered, now)
  }

  /** With unique keys, a box is the only row with its id. */
  lemma SameBoxKey(boxes: seq<Box>, a: Box, c: Box)
    requires UniqueIds(boxes, BoxKey) && a in boxes && c in boxes && a.id == c.id
    ensures a == c
  {
    var i :| 0 <= i < |boxes| && boxes[i] == a;
    var j :| 0 <= j < |boxes| && boxes[j] == c;
    assert BoxKey(boxes[i]) == BoxKey(boxes[j]);
  }

  /** Marking a box whose milestone is already set at that instant rewrites nothing. */
  lemma MarkedStays(boxes: seq<Box>, b1: Box, m: Milestone, now: Time)
    requires UniqueIds(boxes, BoxKey) && b1 in boxes && MarkRow(b1, m, now) == b1
    ensures UpdateWhere(boxes, BoxKey, b1.id, Marker(m, now)) == boxes
  {
    var boxes2 := UpdateWhere(boxes, BoxKey, b1.id, Marker(m, now));
    forall i | 0 <= i < |boxes|
      ensures boxes2[i] == boxes[i]
    {
      if boxes[i].id == b1.id {
        SameBoxKey(boxes, boxes[i], b1);
      }
    }
  }

  /** Marking the same milestone again at the same instant changes nothing more and answers
      the same row. */
  lemma MarkIdempotent(st: State, boxId: Id, userId: Id, m: Milestone, now: Time)
    requires Valid(st) && MarkBox(st, boxId, userId, m, now).Ok?
    ensures var (st1, out1) := MarkBox(st, boxId, userId, m, now).value;
      MarkBox(st1, boxId, userId, m, now) == Ok((st1, out1))
  {
    var (st1, out1) := MarkBox(st, boxId, userId, m, now).value;
    assert OwnsBox(st1, boxId, userId) by {
      var i :| 0 <= i < |st1.boxes| && st1.boxes[i] == out1;
      assert OwnsMove(st1, out1.move_id, userId);
    }
    var c := OwnedBox(st1, boxId, userId).value;
    SameBoxKey(st1.boxes, c, out1);
    MarkedStays(st1.boxes, out1, m, now);
  }

  /** Milestones are independent: marking two of them in either order reaches the same
      milestones, and differs at most in the update time. */
  lemma MarksCommute(b: Box, m1: Milestone, t1: Time, m2: Milestone, t2: Time)
    requires m1 != m2
    ensures var x := MarkRow(MarkRow(b, m1, t1), m2, t2);
      var y := MarkRow(MarkRow(b, m2, t2), m1, t1);
      && (forall m :: Reached(x, m) == Reached(y, m) && StampOf(x, m) == StampOf(y, m))
      && Unmarked(x) == Unmarked(y)
  {
  }

  // ---------------------------------------------------------------- contents

  /** An item in a box: the row, its parsed properties and `rooms.name as room_name`. */
  datatype ContentView = ContentView(row: Item, properties: Option<Json.Props>, room_name: Option<string>)

  function InBox(boxId: Id): Item -> bool {
    (x: Item) => x.box_id == Some(boxId)
  }

  /** ORDER BY items.name. */
  function ByName(x: Item): Key {
    [Asc(Str(x.name))]
  }

  /** The table rows behind a list of views. */
  function ContentRows(vs: seq<ContentView>): seq<Item> {
    MapRowsTo(vs, (v: ContentView) => v.row)
  }

  /** The `.map` that parses every row's properties; any text that does not parse throws. */
  function ContentsOf(st: State, rows: seq<Item>): (r: Result<seq<ContentView>>)
    ensures r.Ok? <==> ItemService.AllReadable(rows)
    ensures r.Err? ==> r.error == InvalidJson
    ensures r.Ok? ==> ContentRows(r.value) == rows
    ensures r.Ok? ==> forall i :: 0 <= i < |rows| ==>
      && ItemService.ReadProps(rows[i].properties) == Ok(r.value[i].properties)
      && r.value[i].room_name == ItemService.RoomNameOf(st, rows[i])
  {
    if !ItemService.AllReadable(rows) then Err(InvalidJson)
    else
      var vs := seq(|rows|, i requires 0 <= i < |rows| =>
        ContentView(rows[i], ItemService.ReadProps(rows[i].properties).value, ItemService.RoomNameOf(st, rows[i])));
      assert ContentRows(vs) == rows;
      Ok(vs)
  }

  /** The rows of a sort of table rows are table rows. */
  lemma SortedFromTable(st: State, boxId: Id)
    ensures ItemService.PropsReadable(st.items) ==> ItemService.AllReadable(SortBy(Filter(st.items, InBox(boxId)), ByName))
  {
    var rows := SortBy(Filter(st.items, InBox(boxId)), ByName);
    forall i | 0 <= i < |rows|
      ensures rows[i] in st.items
    {
      assert rows[i] in multiset(rows);
    }
  }

  /** getBoxContents: after the ownership check, every item whose `box_id` is the box,
      whatever move it belongs to, by name. */
  function GetBoxContents(st: State, boxId: Id, userId: Id): (r: Result<seq<ContentView>>)
    ensures !OwnsBox(st, boxId, userId) ==> r == Err(BoxNotFound)
    ensures OwnsBox(st, boxId, userId) && ItemService.PropsReadable(st.items) ==> r.Ok?
    ensures r.Err? ==> r.error == BoxNotFound || r.error == InvalidJson
    ensures r.Ok? ==> forall x :: multiset(ContentRows(r.value))[x] == if x.box_id == Some(boxId) then multiset(st.items)[x] else 0
    ensures r.Ok? ==> SortedBy(ContentRows(r.value), ByName)
    ensures r.Ok? ==> forall i :: 0 <= i < |r.value| ==>
      ItemService.ReadProps(r.value[i].row.properties) == Ok(r.value[i].properties)
  {
    match GetBoxById(st, boxId, userId)
    case Err(e) => Err(e)
    case Ok(_) =>
      SortedFromTable(st, boxId);
      ContentsOf(st, SortBy(Filter(st.items, InBox(boxId)), ByName))
  }

  // ---------------------------------------------------------------- aggregates

  function InMove(moveId: Id): Box -> bool {
    (b: Box) => b.move_id == moveId
  }

  function MoveBoxes(st: State, moveId: Id): seq<Box> {
    Filter(st.boxes, InMove(moveId))
  }

  predicate IsPacked(b: Box) { b.is_packed }
  predicate IsLoaded(b: Box) { b.is_loaded }
  predicate IsDelivered(b: Box) { b.is_delivered }

  datatype BoxStats = BoxStats(total_boxes: nat, packed_boxes: nat, loaded_boxes: nat, delivered_boxes: nat)

  /** getBoxStats: the three milestone counts over the owned move's boxes. */
  function GetBoxStats(st: State, moveId: Id, userId: Id): (r: Result<BoxStats>)
    ensures r.Ok? <==> OwnsMove(st, moveId, userId)
    ensures r.Err? ==> r.error == MoveNotFound
    ensures r.Ok? ==> var s := r.value;
      && s.total_boxes == |MoveBoxes(st, moveId)|
      && s.packed_boxes == Count(MoveBoxes(st, moveId), IsPacked)
      && s.loaded_boxes == Count(MoveBoxes(st, moveId), IsLoaded)
      && s.delivered_boxes == Count(MoveBoxes(st, moveId), IsDelivered)
      && s.packed_boxes <= s.total_boxes && s.loaded_boxes <= s.total_boxes && s.delivered_boxes <= s.total_boxes
  {
    if !OwnsMove(st, moveId, userId) then Err(MoveNotFound)
    else
      var boxes := MoveBoxes(st, moveId);
      Ok(BoxStats(|boxes|, Count(boxes, IsPacked), Count(boxes, IsLoaded), Count(boxes, IsDelivered)))
  }

  /** The milestone counts are not a partition: one box can be counted in all three. */
  lemma MilestoneCountsOverlap()
    ensures var b := Box("b", "m", "Books", None, None, DefaultBoxType, None, true, true, true, Some(1), Some(2), Some(3), 0, 3);
      var here := Location("", "", "", "", "", None);
      var st := State([Move("m", "u", here, here, "", DefaultMoveStatus, None, None, 0, 0)], [], [], [], [b]);
      var r := GetBoxStats(st, "m", "u");
      r.Ok? && r.value.total_boxes == 1 && r.value.packed_boxes + r.value.loaded_boxes + r.value.delivered_boxes == 3
  {
    var b := Box("b", "m", "Books", None, None, DefaultBoxType, None, true, true, true, Some(1), Some(2), Some(3), 0, 3);
    var here := Location("", "", "", "", "", None);
    var st := State([Move("m", "u", here, here, "", DefaultMoveStatus, None, None, 0, 0)], [], [], [], [b]);
    assert st.moves[0].id == "m" && st.moves[0].user_id == "u";
    assert [b][1..] == [];
    assert MoveBoxes(st, "m") == [b];
    assert Filter([b], IsPacked) == [b];
    assert Filter([b], IsLoaded) == [b];
    assert Filter([b], IsDelivered) == [b];
  }

  /** How many of the three milestones a box has reached. */
  function Milestones(b: Box): nat {
    (if b.is_packed then 1 else 0) + (if b.is_loaded then 1 else 0) + (if b.is_delivered then 1 else 0)
  }

  predicate AnyMilestone(b: Box) { b.is_packed || b.is_loaded || b.is_delivered }

  /** Over any list of boxes, the three milestone counts together are at least the number of
      boxes with some milestone, and equal to it exactly when no box has two or more. */
  lemma {:induction false} MilestoneCountsSum(bs: seq<Box>)
    ensures Count(bs, IsPacked) + Count(bs, IsLoaded) + Count(bs, IsDelivered) >= Count(bs, AnyMilestone)
    ensures Count(bs, IsPacked) + Count(bs, IsLoaded) + Count(bs, IsDelivered) == Count(bs, AnyMilestone)
      <==> forall i :: 0 <= i < |bs| ==> Milestones(bs[i]) <= 1
  {
    if |bs| > 0 {
      var rest := bs[1..];
      MilestoneCountsSum(rest);
      assert forall i :: 1 <= i < |bs| ==> bs[i] == rest[i - 1];
      assert (forall i :: 0 <= i < |bs| ==> Milestones(bs[i]) <= 1)
        <==> Milestones(bs[0]) <= 1 && forall i :: 0 <= i < |rest| ==> Milestones(rest[i]) <= 1;
    }
  }

  /** For every state: when the milestone counts of the statistics add up to more than the
      total, some box of the move has reached two or more milestones; and they add up to the
      number of boxes with a milestone exactly when no box of the move has two. */
  lemma MilestoneCountsExceedTotal(st: State, moveId: Id, userId: Id)
    ensures var r := GetBoxStats(st, moveId, userId);
      r.Ok? && r.value.packed_boxes + r.value.loaded_boxes + r.value.delivered_boxes > r.value.total_boxes ==>
        exists b :: b in MoveBoxes(st, moveId) && Milestones(b) >= 2
    ensures var r := GetBoxStats(st, moveId, userId);
      r.Ok? ==>
        (r.value.packed_boxes + r.value.loaded_boxes + r.value.delivered_boxes == Count(MoveBoxes(st, moveId), AnyMilestone)
         <==> forall b :: b in MoveBoxes(st, moveId) ==> Milestones(b) <= 1)
  {
    var bs := MoveBoxes(st, moveId);
    MilestoneCountsSum(bs);
    assert (forall b :: b in bs ==> Milestones(b) <= 1) <==> (forall i :: 0 <= i < |bs| ==> Milestones(bs[i]) <= 1);
  }

  /** `box_type` as the GROUP BY key. */
  function TypeKey(b: Box): Datum {
    Str(b.box_type)
  }

  function NoValue(b: Box): int { 0 }

  /** getBoxesByType: the owned move's boxes grouped by type, in type order, with the number
      of boxes per type. */
  function GetBoxesByType(st: State, moveId: Id, userId: Id): (r: Result<seq<Group>>)
    ensures r.Ok? <==> OwnsMove(st, moveId, userId)
    ensures r.Err? ==> r.error == MoveNotFound
    ensures r.Ok? ==> var g := r.value;
      && StrictlyOrdered(g)
      && (forall i :: 0 <= i < |g| ==> g[i].count > 0)
      && (forall k :: CountOf(g, k) == CountKey(MoveBoxes(st, moveId), TypeKey, k))
      && SumCounts(g) == |MoveBoxes(st, moveId)|
  {
    if !OwnsMove(st, moveId, userId) then Err(MoveNotFound)
    else Ok(GroupBy(MoveBoxes(st, moveId), TypeKey, NoValue))
  }

  /** The type groups add up to the box count of the statistics. */
  lemma TypesMatchStats(st: State, moveId: Id, userId: Id)
    requires OwnsMove(st, moveId, userId)
    ensures SumCounts(GetBoxesByType(st, moveId, userId).value) == GetBoxStats(st, moveId, userId).value.total_boxes
  {
  }

  // ---------------------------------------------------------------- QR codes

  /** The code a box's row shows, if it has a truthy one. */
  predicate HasCode(b: Box) {
    Given(b.qr_code)
  }

  function SetCode(code: string): Box -> Box {
    (b: Box) => b.(qr_code := Some(code))
  }

  /** generateQRCode: after the ownership check, the box's code if it has one; otherwise a
      code minted from the fresh token is stored (without touching the update time). */
  function GenerateQrCode(st: State, boxId: Id, userId: Id, token: string): (r: Result<(State, string)>)
    requires Valid(st) && CodeFree(st.boxes, QrCode(token))
    ensures r.Ok? <==> OwnsBox(st, boxId, userId)
    ensures r.Err? ==> r.error == BoxNotFound
    ensures r.Ok? ==> var (st', code) := r.value; var b0 := OwnedBox(st, boxId, userId).value;
      && Valid(st')
      && (HasCode(b0) ==> st' == st && Some(code) == b0.qr_code)
      && (!HasCode(b0) ==> code == "BOX-" + token && CodedAt(st.boxes, st'.boxes, boxId, code))
      && b0.(qr_code := Some(code)) in st'.boxes
      && OnlyBoxes(st, st')
  {
    match GetBoxById(st, boxId, userId)
    case Err(e) => Err(e)
    case Ok(v) =>
      var b0 := v.row;
      assert b0 == OwnedBox(st, boxId, userId).value;
      if HasCode(b0) then
        assert b0.(qr_code := Some(b0.qr_code.value)) == b0;
        Ok((st, b0.qr_code.value))
      else
        var code := QrCode(token);
        Ok((IssueCode(st, b0, code), code))
  }

  /** `after` is `before` with `code` stored on the box `boxId` and every other row as it was. */
  predicate CodedAt(before: seq<Box>, after: seq<Box>, boxId: Id, code: string) {
    && |after| == |before|
    && forall i :: 0 <= i < |before| ==>
         after[i] == if before[i].id == boxId then before[i].(qr_code := Some(code)) else before[i]
  }

  /** The write of generateQRCode for a box without a code. */
  function IssueCode(st: State, b0: Box, code: string): (r: State)
    requires Valid(st) && b0 in st.boxes && CodeFree(st.boxes, code)
    ensures Valid(r)
    ensures CodedAt(st.boxes, r.boxes, b0.id, code)
    ensures b0.(qr_code := Some(code)) in r.boxes
    ensures OnlyBoxes(st, r)
  {
    var boxes := UpdateWhere(st.boxes, BoxKey, b0.id, SetCode(code));
    assert Valid(st.(boxes := boxes)) by {
      CodeIssueValid(st, b0, code);
    }
    assert SetCode(code)(b0) in boxes;
    st.(boxes := boxes)
  }

  /** Storing an unused code on one box keeps every code unique. */
  lemma CodeIssueValid(st: State, b0: Box, code: string)
    requires Valid(st) && b0 in st.boxes && CodeFree(st.boxes, code)
    ensures Valid(st.(boxes := UpdateWhere(st.boxes, BoxKey, b0.id, SetCode(code))))
  {
    var boxes := UpdateWhere(st.boxes, BoxKey, b0.id, SetCode(code));
    forall c | c in boxes
      ensures HasId(st.moves, MoveKey, c.move_id) && RefOk(st.rooms, RoomKey, c.destination_room_id)
      ensures (c.id == b0.id && c.qr_code == Some(code)) || (c in st.boxes && c.id != b0.id)
    {
      if c !in st.boxes || c.id == b0.id {
        var b :| b in st.boxes && b.id == b0.id && c == SetCode(code)(b);
      }
    }
    assert QrCodesUnique(boxes);
  }

  /** Once a box has a code, asking again returns the same code and changes nothing,
      whatever token is offered. */
  lemma QrCodeStable(st: State, boxId: Id, userId: Id, token: string, token2: string)
    requires Valid(st) && CodeFree(st.boxes, QrCode(token)) && GenerateQrCode(st, boxId, userId, token).Ok?
    ensures var (st1, code) := GenerateQrCode(st, boxId, userId, token).value;
      CodeFree(st1.boxes, QrCode(token2)) ==> GenerateQrCode(st1, boxId, userId, token2) == Ok((st1, code))
  {
    var (st1, code) := GenerateQrCode(st, boxId, userId, token).value;
    var b0 := OwnedBox(st, boxId, userId).value;
    var b1 := b0.(qr_code := Some(code));
    assert OwnsBox(st1, boxId, userId) by {
      var i :| 0 <= i < |st1.boxes| && st1.boxes[i] == b1;
      assert OwnsMove(st1, b1.move_id, userId);
    }
    if CodeFree(st1.boxes, QrCode(token2)) {
      var c := OwnedBox(st1, boxId, userId).value;
      SameBoxKey(st1.boxes, c, b1);
      assert HasCode(c);
    }
  }
}
