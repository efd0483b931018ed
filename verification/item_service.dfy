/** The item service: the inventory of a move. Every operation first checks that the move,
    or the item's move, belongs to the requesting user. A room or box an item is assigned
    to need only belong to the same user; only `moveItemToBox` insists on the same move. */
module ItemService {
  import opened Wrappers
  import opened Tables
  import opened Schema
  import opened Query
  import opened Text
  import opened Json
  import opened Cascade
  import opened Ownership

  /** A create request; `None` is a field the request leaves out. */
  datatype NewItem = NewItem(
    room_id: Option<Id>,
    box_id: Option<Id>,
    name: string,
    description: Option<string>,
    photo_url: Option<string>,
    estimated_value: Option<Cents>,
    properties: Option<Props>,
    condition: Option<string>,
    category: Option<string>,
    is_fragile: Option<bool>,
    requires_special_handling: Option<bool>)

  /** An update request; a field left out of the request is not written. */
  datatype ItemPatch = ItemPatch(
    room_id: Option<Id>,
    box_id: Option<Id>,
    name: Option<string>,
    description: Option<string>,
    photo_url: Option<string>,
    estimated_value: Option<Cents>,
    properties: Option<Props>,
    condition: Option<string>,
    category: Option<string>,
    is_fragile: Option<bool>,
    requires_special_handling: Option<bool>)

  /** An item as a write hands it back: the row, with its properties parsed. */
  datatype ItemOut = ItemOut(row: Item, properties: Option<Props>)

  /** An item as a read hands it back: also the room name and box label LEFT JOINed to it. */
  datatype ItemView = ItemView(row: Item, properties: Option<Props>, room_name: Option<string>, box_label: Option<string>)

  /** A request's properties, as a JavaScript object parsed from a request body: no key twice. */
  predicate PropsOk(p: Option<Props>) {
    p.Some? ==> DistinctKeys(p.value)
  }

  // ---------------------------------------------------------------- the properties column

  /** What the properties column receives: the JSON text of the object, NULL for none. */
  function StoreProps(p: Option<Props>): Option<string> {
    if p.Some? then Some(Encode(p.value)) else None
  }

  /** The parse on the way out: a NULL or empty text reads as no properties; other text is
      parsed, and text that does not parse makes the call throw. */
  function ReadProps(text: Option<string>): (r: Result<Option<Props>>)
    ensures !Given(text) ==> r == Ok(None)
    ensures r.Err? ==> r.error == InvalidJson
  {
    if !Given(text) then Ok(None)
    else
      match Decode(text.value)
      case None => Err(InvalidJson)
      case Some(p) => Ok(Some(p))
  }

  /** What is stored reads back as what was supplied. */
  lemma PropsRoundTrip(p: Option<Props>)
    requires PropsOk(p)
    ensures ReadProps(StoreProps(p)) == Ok(p)
  {
    if p.Some? {
      DecodeEncode(p.value);
    }
  }

  /** Every stored properties text parses, so no read throws. */
  ghost predicate PropsReadable(items: seq<Item>) {
    forall x :: x in items ==> ReadProps(x.properties).Ok?
  }

  // ---------------------------------------------------------------- references

  /** The reference checks of create and update: a given room id must name a room, and a
      given box id a box, in some move of the user. An empty id is falsy and not checked. */
  function CheckRefs(st: State, userId: Id, roomId: Option<Id>, boxId: Option<Id>): (r: Option<Failure>)
    ensures r.None? <==> (Given(roomId) ==> OwnsRoom(st, roomId.value, userId)) && (Given(boxId) ==> OwnsBox(st, boxId.value, userId))
    ensures Given(roomId) && !OwnsRoom(st, roomId.value, userId) ==> r == Some(RoomNotFound)
    ensures r.Some? ==> r.value == RoomNotFound || r.value == BoxNotFound
  {
    if Given(roomId) && !OwnsRoom(st, roomId.value, userId) then Some(RoomNotFound)
    else if Given(boxId) && !OwnsBox(st, boxId.value, userId) then Some(BoxNotFound)
    else None
  }

  /** The store's foreign-key check on `room_id` and `box_id`: NULL, or an existing row. */
  function RefsExist(st: State, roomId: Option<Id>, boxId: Option<Id>): (r: bool)
    ensures r <==> RefOk(st.rooms, RoomKey, roomId) && RefOk(st.boxes, BoxKey, boxId)
  {
    && (roomId.None? || IndexOf(st.rooms, RoomKey, roomId.value).Some?)
    && (boxId.None? || IndexOf(st.boxes, BoxKey, boxId.value).Some?)
  }

  /** An owned reference exists, so the store's check only ever refuses an empty id. */
  lemma OwnedRefsExist(st: State, userId: Id, roomId: Option<Id>, boxId: Option<Id>)
    requires CheckRefs(st, userId, roomId, boxId).None?
    requires roomId.Some? ==> roomId.value != ""
    requires boxId.Some? ==> boxId.value != ""
    ensures RefsExist(st, roomId, boxId)
  {
    if roomId.Some? {
      var i :| 0 <= i < |st.rooms| && st.rooms[i].id == roomId.value && OwnsMove(st, st.rooms[i].move_id, userId);
      assert RoomKey(st.rooms[i]) == roomId.value;
    }
    if boxId.Some? {
      var i :| 0 <= i < |st.boxes| && st.boxes[i].id == boxId.value && OwnsMove(st, st.boxes[i].move_id, userId);
      assert BoxKey(st.boxes[i]) == boxId.value;
    }
  }

  // ---------------------------------------------------------------- create

  /** The row an insert stores; `|| false` makes a missing flag false. */
  function NewRow(moveId: Id, data: NewItem, freshId: Id, now: Time): Item {
    Item(freshId, moveId, data.room_id, data.box_id, data.name, data.description, data.photo_url,
         data.estimated_value, StoreProps(data.properties), data.condition, data.category,
         data.is_fragile == Some(true), data.requires_special_handling == Some(true), now, now)
  }

  lemma AppendItemValid(st: State, x: Item)
    requires Valid(st) && !HasId(st.items, ItemKey, x.id)
    requires HasId(st.moves, MoveKey, x.move_id)
    requires RefOk(st.rooms, RoomKey, x.room_id) && RefOk(st.boxes, BoxKey, x.box_id)
    ensures Valid(st.(items := st.items + [x]))
  {
    AppendRow(st.items, x, ItemKey);
    assert forall y :: y in st.items + [x] ==> y in st.items || y == x;
  }

  lemma OwnedMoveExists(st: State, moveId: Id, userId: Id)
    requires OwnsMove(st, moveId, userId)
    ensures HasId(st.moves, MoveKey, moveId)
  {
    var i :| 0 <= i < |st.moves| && st.moves[i].id == moveId && st.moves[i].user_id == userId;
    assert MoveKey(st.moves[i]) == moveId;
  }

  /** createItem: the ownership checks, then the insert, then the properties parsed back. */
  function CreateItem(st: State, moveId: Id, userId: Id, data: NewItem, freshId: Id, now: Time): (r: Result<(State, ItemOut)>)
    requires Valid(st) && !HasId(st.items, ItemKey, freshId) && PropsOk(data.properties)
    ensures !OwnsMove(st, moveId, userId) ==> r == Err(MoveNotFound)
    ensures OwnsMove(st, moveId, userId) ==> (r.Err? <==>
      CheckRefs(st, userId, data.room_id, data.box_id).Some? || !RefsExist(st, data.room_id, data.box_id))
    ensures OwnsMove(st, moveId, userId) && CheckRefs(st, userId, data.room_id, data.box_id).Some? ==>
      r == Err(CheckRefs(st, userId, data.room_id, data.box_id).value)
    ensures r.Err? ==> r.error in {MoveNotFound, RoomNotFound, BoxNotFound, ForeignKeyViolation}
    ensures r.Ok? ==> var (st', out) := r.value;
      && Valid(st')
      && st'.items == st.items + [out.row]
      && OwnsItem(st', freshId, userId)
      && out.row.id == freshId && out.row.move_id == moveId
      && out.row.room_id == data.room_id && out.row.box_id == data.box_id
      && out.row.name == data.name && out.row.description == data.description
      && out.row.photo_url == data.photo_url && out.row.estimated_value == data.estimated_value
      && out.row.condition == data.condition && out.row.category == data.category
      && out.row.is_fragile == (data.is_fragile == Some(true))
      && out.row.requires_special_handling == (data.requires_special_handling == Some(true))
      && out.row.created_at == now && out.row.updated_at == now
      && out.properties == data.properties
      && st'.moves == st.moves && st'.tasks == st.tasks && st'.rooms == st.rooms && st'.boxes == st.boxes
  {
    if !OwnsMove(st, moveId, userId) then Err(MoveNotFound)
    else match CheckRefs(st, userId, data.room_id, data.box_id)
    case Some(e) => Err(e)
    case None =>
      if !RefsExist(st, data.room_id, data.box_id) then Err(ForeignKeyViolation)
      else
        var x := NewRow(moveId, data, freshId, now);
        OwnedMoveExists(st, moveId, userId);
        AppendItemValid(st, x);
        PropsRoundTrip(data.properties);
        var st' := st.(items := st.items + [x]);
        var i :| 0 <= i < |st.moves| && st.moves[i].id == moveId && st.moves[i].user_id == userId;
        assert st'.items[|st.items|] == x;
        assert OwnsMove(st', moveId, userId);
        Ok((st', ItemOut(x, data.properties)))
  }

  // ---------------------------------------------------------------- reads

  /** `rooms.name as room_name` of the LEFT JOIN: NULL without a matching room. */
  function RoomNameOf(st: State, x: Item): Option<string> {
    if x.room_id.None? then None
    else match Lookup(st.rooms, RoomKey, x.room_id.value)
      case None => None
      case Some(room) => Some(room.name)
  }

  /** `boxes.label as box_label` of the LEFT JOIN. */
  function BoxLabelOf(st: State, x: Item): Option<string> {
    if x.box_id.None? then None
    else match Lookup(st.boxes, BoxKey, x.box_id.value)
      case None => None
      case Some(b) => Some(b.label_text)
  }

  /** A row of a read, joined and with its properties parsed. */
  predicate ViewsRow(st: State, v: ItemView, x: Item) {
    && v.row == x
    && ReadProps(x.properties) == Ok(v.properties)
    && v.room_name == RoomNameOf(st, x)
    && v.box_label == BoxLabelOf(st, x)
  }

  function ViewOf(st: State, x: Item): (r: Result<ItemView>)
    ensures r.Ok? <==> ReadProps(x.properties).Ok?
    ensures r.Ok? ==> ViewsRow(st, r.value, x)
    ensures r.Err? ==> r.error == InvalidJson
  {
    match ReadProps(x.properties)
    case Err(e) => Err(e)
    case Ok(p) => Ok(ItemView(x, p, RoomNameOf(st, x), BoxLabelOf(st, x)))
  }

  /** The user's item with that id (items JOIN moves). */
  function OwnedItem(st: State, itemId: Id, userId: Id): (r: Option<Item>)
    ensures r.Some? <==> OwnsItem(st, itemId, userId)
    ensures r.Some? ==> r.value in st.items && r.value.id == itemId && OwnsMove(st, r.value.move_id, userId)
    ensures r.Some? && UniqueIds(st.items, ItemKey) ==> forall x :: x in st.items && x.id == itemId ==> x == r.value
  {
    var r := Find(st.items, (x: Item) => x.id == itemId && OwnsMove(st, x.move_id, userId));
    assert r.Some? ==> forall x :: x in st.items && x.id == itemId && UniqueIds(st.items, ItemKey) ==> x == r.value by {
      if r.Some? {
        forall x | x in st.items && x.id == itemId && UniqueIds(st.items, ItemKey)
          ensures x == r.value
        {
          var i :| 0 <= i < |st.items| && st.items[i] == x;
          var j :| 0 <= j < |st.items| && st.items[j] == r.value;
          assert ItemKey(st.items[i]) == ItemKey(st.items[j]);
        }
      }
    }
    r
  }

  /** getItemById: the item, when its move belongs to the user, joined and parsed. */
  function GetItemById(st: State, itemId: Id, userId: Id): (r: Result<ItemView>)
    ensures !OwnsItem(st, itemId, userId) ==> r == Err(ItemNotFound)
    ensures OwnsItem(st, itemId, userId) && PropsReadable(st.items) ==> r.Ok?
    ensures r.Err? ==> r.error == ItemNotFound || r.error == InvalidJson
    ensures r.Ok? ==> var x := r.value.row;
      && x in st.items && x.id == itemId && OwnsMove(st, x.move_id, userId)
      && ViewsRow(st, r.value, x)
  {
    match OwnedItem(st, itemId, userId)
    case None => Err(ItemNotFound)
    case Some(x) => ViewOf(st, x)
  }

  // ---------------------------------------------------------------- listing

  /** The query-string filters and sort of a listing; an absent or empty value does not apply. */
  datatype ItemFilters = ItemFilters(
    room_id: Option<Id>,
    box_id: Option<Id>,
    category: Option<string>,
    condition: Option<string>,
    is_fragile: Option<bool>,
    search: Option<string>,
    sort_by: Option<string>,
    sort_order: Option<string>)

  const NoItemFilters := ItemFilters(None, None, None, None, None, None, None, None)

  /** `ilike '%s%'` on the name or the description; a NULL description never matches. */
  predicate ItemSearchHits(x: Item, s: string) {
    ContainsIgnoringCase(x.name, s) || (x.description.Some? && ContainsIgnoringCase(x.description.value, s))
  }

  /** The WHERE clause a listing adds for the filters that apply. */
  predicate ItemMatches(f: ItemFilters, x: Item) {
    && (Given(f.room_id) ==> x.room_id == f.room_id)
    && (Given(f.box_id) ==> x.box_id == f.box_id)
    && (Given(f.category) ==> x.category == f.category)
    && (Given(f.condition) ==> x.condition == f.condition)
    && (f.is_fragile.Some? ==> x.is_fragile == f.is_fragile.value)
    && (Given(f.search) ==> ItemSearchHits(x, f.search.value))
  }

  /** The same conditions, with the search stated over the substring relation. */
  ghost predicate ItemSelected(f: ItemFilters, x: Item) {
    && (Given(f.room_id) ==> x.room_id == f.room_id)
    && (Given(f.box_id) ==> x.box_id == f.box_id)
    && (Given(f.category) ==> x.category == f.category)
    && (Given(f.condition) ==> x.condition == f.condition)
    && (f.is_fragile.Some? ==> x.is_fragile == f.is_fragile.value)
    && (Given(f.search) ==>
          || Occurs(LowerStr(f.search.value), LowerStr(x.name))
          || (x.description.Some? && Occurs(LowerStr(f.search.value), LowerStr(x.description.value))))
  }

  function Listed(moveId: Id, f: ItemFilters): Item -> bool {
    (x: Item) => x.move_id == moveId && ItemMatches(f, x)
  }

  /** The value of column `col` of the items table, or `None` when there is no such column. */
  function ItemColumn(col: string, x: Item): Option<Datum> {
    if col == "id" then Some(Str(x.id))
    else if col == "move_id" then Some(Str(x.move_id))
    else if col == "room_id" then Some(OptStr(x.room_id))
    else if col == "box_id" then Some(OptStr(x.box_id))
    else if col == "name" then Some(Str(x.name))
    else if col == "description" then Some(OptStr(x.description))
    else if col == "photo_url" then Some(OptStr(x.photo_url))
    else if col == "estimated_value" then Some(OptNum(x.estimated_value))
    else if col == "properties" then Some(OptStr(x.properties))
    else if col == "condition" then Some(OptStr(x.condition))
    else if col == "category" then Some(OptStr(x.category))
    else if col == "is_fragile" then Some(Flag(x.is_fragile))
    else if col == "requires_special_handling" then Some(Flag(x.requires_special_handling))
    else if col == "created_at" then Some(Num(x.created_at))
    else if col == "updated_at" then Some(Num(x.updated_at))
    else None
  }

  predicate IsItemColumn(col: string) {
    col in ["id", "move_id", "room_id", "box_id", "name", "description", "photo_url", "estimated_value",
            "properties", "condition", "category", "is_fragile", "requires_special_handling",
            "created_at", "updated_at"]
  }

  /** Every column name is answered, and only those. */
  lemma ItemColumnDefined(col: string, x: Item)
    ensures ItemColumn(col, x).Some? <==> IsItemColumn(col)
  {
  }

  /** `sort_by || 'name'`. */
  function ItemSortColumn(f: ItemFilters): string {
    if Given(f.sort_by) then f.sort_by.value else "name"
  }

  /** ORDER BY items.<sort column> <direction>. */
  function ItemOrder(f: ItemFilters): Item -> Key {
    (x: Item) =>
      var d := ItemColumn(ItemSortColumn(f), x).GetOr(Null);
      [if Descending(f.sort_order) then Desc(d) else Asc(d)]
  }

  /** The table rows behind a list of views. */
  function Rows(vs: seq<ItemView>): seq<Item> {
    MapRowsTo(vs, (v: ItemView) => v.row)
  }

  /** Whether every row's properties parse. */
  predicate AllReadable(rows: seq<Item>) {
    forall i :: 0 <= i < |rows| ==> ReadProps(rows[i].properties).Ok?
  }

  /** The `.map` that parses every row's properties; any text that does not parse throws. */
  function ViewAll(st: State, rows: seq<Item>): (r: Result<seq<ItemView>>)
    ensures r.Ok? <==> AllReadable(rows)
    ensures r.Err? ==> r.error == InvalidJson
    ensures r.Ok? ==> Rows(r.value) == rows && forall i :: 0 <= i < |rows| ==> ViewsRow(st, r.value[i], rows[i])
  {
    if !AllReadable(rows) then Err(InvalidJson)
    else
      var vs := seq(|rows|, i requires 0 <= i < |rows| =>
        ItemView(rows[i], ReadProps(rows[i].properties).value, RoomNameOf(st, rows[i]), BoxLabelOf(st, rows[i])));
      assert Rows(vs) == rows;
      Ok(vs)
  }

  lemma MatchesIsSelected(f: ItemFilters, x: Item)
    ensures ItemMatches(f, x) <==> ItemSelected(f, x)
  {
  }

  /** The rows of a listing: the move's items the filters select, in the requested order.
      They are rows of the table, so they parse when the table's do. */
  function ListItems(st: State, moveId: Id, f: ItemFilters): (r: seq<Item>)
    ensures forall x :: multiset(r)[x] == if x.move_id == moveId && ItemSelected(f, x) then multiset(st.items)[x] else 0
    ensures SortedBy(r, ItemOrder(f))
    ensures PropsReadable(st.items) ==> AllReadable(r)
  {
    var r := SortBy(Filter(st.items, Listed(moveId, f)), ItemOrder(f));
    assert forall x :: Listed(moveId, f)(x) <==> x.move_id == moveId && ItemSelected(f, x) by {
      forall x ensures Listed(moveId, f)(x) <==> x.move_id == moveId && ItemSelected(f, x) {
        MatchesIsSelected(f, x);
      }
    }
    assert forall i :: 0 <= i < |r| ==> r[i] in st.items by {
      forall i | 0 <= i < |r|
        ensures r[i] in st.items
      {
        assert r[i] in multiset(r);
      }
    }
    r
  }

  /** getItemsByMove: the owned move's items that pass every filter given, in the requested
      order, each joined and parsed. */
  function GetItemsByMove(st: State, moveId: Id, userId: Id, f: ItemFilters): (r: Result<seq<ItemView>>)
    ensures !OwnsMove(st, moveId, userId) ==> r == Err(MoveNotFound)
    ensures OwnsMove(st, moveId, userId) && !IsItemColumn(ItemSortColumn(f)) ==> r == Err(UnknownColumn)
    ensures OwnsMove(st, moveId, userId) && IsItemColumn(ItemSortColumn(f)) && PropsReadable(st.items) ==> r.Ok?
    ensures r.Err? ==> r.error in {MoveNotFound, UnknownColumn, InvalidJson}
    ensures r.Ok? ==> forall x :: multiset(Rows(r.value))[x] == if x.move_id == moveId && ItemSelected(f, x) then multiset(st.items)[x] else 0
    ensures r.Ok? ==> SortedBy(Rows(r.value), ItemOrder(f))
    ensures r.Ok? ==> forall i :: 0 <= i < |r.value| ==> ViewsRow(st, r.value[i], r.value[i].row)
  {
    if !OwnsMove(st, moveId, userId) then Err(MoveNotFound)
    else if !IsItemColumn(ItemSortColumn(f)) then Err(UnknownColumn)
    else ViewAll(st, ListItems(st, moveId, f))
  }

  // ---------------------------------------------------------------- writes

  /** The columns an update writes: the supplied fields (the properties as JSON text) and the
      update time. */
  function PatchItem(x: Item, p: ItemPatch, now: Time): Item {
    x.(room_id := if p.room_id.Some? then p.room_id else x.room_id,
       box_id := if p.box_id.Some? then p.box_id else x.box_id,
       name := p.name.GetOr(x.name),
       description := if p.description.Some? then p.description else x.description,
       photo_url := if p.photo_url.Some? then p.photo_url else x.photo_url,
       estimated_value := if p.estimated_value.Some? then p.estimated_value else x.estimated_value,
       properties := if p.properties.Some? then StoreProps(p.properties) else x.properties,
       condition := if p.condition.Some? then p.condition else x.condition,
       category := if p.category.Some? then p.category else x.category,
       is_fragile := p.is_fragile.GetOr(x.is_fragile),
       requires_special_handling := p.requires_special_handling.GetOr(x.requires_special_handling),
       updated_at := now)
  }

  function Patcher(p: ItemPatch, now: Time): Item -> Item {
    (x: Item) => PatchItem(x, p, now)
  }

  /** Rewriting one item keeps the schema valid when the references it writes exist. */
  lemma ItemUpdateValid(st: State, itemId: Id, f: Item -> Item)
    requires Valid(st)
    requires forall x :: f(x).id == x.id && f(x).move_id == x.move_id
    requires forall x :: x in st.items ==> RefOk(st.rooms, RoomKey, f(x).room_id) && RefOk(st.boxes, BoxKey, f(x).box_id)
    ensures Valid(st.(items := UpdateWhere(st.items, ItemKey, itemId, f)))
  {
    var items := UpdateWhere(st.items, ItemKey, itemId, f);
    forall y | y in items
      ensures HasId(st.moves, MoveKey, y.move_id)
      ensures RefOk(st.rooms, RoomKey, y.room_id) && RefOk(st.boxes, BoxKey, y.box_id)
    {
      if !(y in st.items) {
        var x :| x in st.items && x.id == itemId && y == f(x);
      }
    }
  }

  lemma PatchRefsOk(st: State, p: ItemPatch, now: Time)
    requires Valid(st) && RefsExist(st, p.room_id, p.box_id)
    ensures forall x :: x in st.items ==>
      RefOk(st.rooms, RoomKey, Patcher(p, now)(x).room_id) && RefOk(st.boxes, BoxKey, Patcher(p, now)(x).box_id)
  {
  }

  /** updateItem: the ownership checks, then the supplied columns written, then the row read
      back with its properties parsed. */
  function UpdateItem(st: State, itemId: Id, userId: Id, patch: ItemPatch, now: Time): (r: Result<(State, ItemOut)>)
    requires Valid(st) && PropsOk(patch.properties)
    ensures !OwnsItem(st, itemId, userId) ==> r == Err(ItemNotFound)
    ensures OwnsItem(st, itemId, userId) && PropsReadable(st.items) ==>
      (r.Ok? <==> CheckRefs(st, userId, patch.room_id, patch.box_id).None? && RefsExist(st, patch.room_id, patch.box_id))
    ensures r.Err? ==> r.error in {ItemNotFound, InvalidJson, RoomNotFound, BoxNotFound, ForeignKeyViolation}
    ensures r.Ok? ==> var (st', out) := r.value;
      && Valid(st')
      && OwnsItem(st, itemId, userId)
      && CheckRefs(st, userId, patch.room_id, patch.box_id).None?
      && PatchedAt(st.items, st'.items, itemId, patch, now)
      && (exists x0 :: x0 in st.items && x0.id == itemId && out.row == PatchItem(x0, patch, now))
      && out.row in st'.items
      && ReadProps(out.row.properties) == Ok(out.properties)
      && (patch.properties.Some? ==> out.properties == patch.properties)
      && OnlyItems(st, st')
  {
    match GetItemById(st, itemId, userId)
    case Err(e) => Err(e)
    case Ok(v) =>
      match CheckRefs(st, userId, patch.room_id, patch.box_id)
      case Some(e) => Err(e)
      case None =>
        if !RefsExist(st, patch.room_id, patch.box_id) then Err(ForeignKeyViolation)
        else
          var x := PatchItem(v.row, patch, now);
          PropsRoundTrip(patch.properties);
          match ReadProps(x.properties)
          case Err(e) => Err(e)
          case Ok(p) => Ok((PatchRows(st, v.row, patch, now), ItemOut(x, p)))
  }

  /** `after` is `before` with the item `itemId` patched and every other row as it was. */
  predicate PatchedAt(before: seq<Item>, after: seq<Item>, itemId: Id, patch: ItemPatch, now: Time) {
    && |after| == |before|
    && forall i :: 0 <= i < |before| ==>
         after[i] == if before[i].id == itemId then PatchItem(before[i], patch, now) else before[i]
  }

  /** The write of updateItem once the checks pass. */
  function PatchRows(st: State, x0: Item, patch: ItemPatch, now: Time): (r: State)
    requires Valid(st) && x0 in st.items && RefsExist(st, patch.room_id, patch.box_id)
    ensures Valid(r)
    ensures PatchedAt(st.items, r.items, x0.id, patch, now)
    ensures PatchItem(x0, patch, now) in r.items
    ensures OnlyItems(st, r)
  {
    var f := Patcher(patch, now);
    var items := UpdateWhere(st.items, ItemKey, x0.id, f);
    assert Valid(st.(items := items)) by {
      PatchRefsOk(st, patch, now);
      ItemUpdateValid(st, x0.id, f);
    }
    assert f(x0) in items;
    st.(items := items)
  }

  /** deleteItem: the ownership check, then the row goes (nothing refers to items). */
  function DeleteItem(st: State, itemId: Id, userId: Id): (r: Result<State>)
    requires Valid(st)
    ensures !OwnsItem(st, itemId, userId) ==> r == Err(ItemNotFound)
    ensures OwnsItem(st, itemId, userId) && PropsReadable(st.items) ==> r.Ok?
    ensures r.Err? ==> r.error == ItemNotFound || r.error == InvalidJson
    ensures r.Ok? ==> var st' := r.value;
      && Valid(st')
      && !HasId(st'.items, ItemKey, itemId)
      && (forall x :: x in st'.items <==> x in st.items && x.id != itemId)
      && st'.moves == st.moves && st'.tasks == st.tasks && st'.rooms == st.rooms && st'.boxes == st.boxes
  {
    match GetItemById(st, itemId, userId)
    case Err(e) => Err(e)
    case Ok(_) =>
      RemoveItemValid(st, itemId);
      WithoutHasId(st.items, ItemKey, itemId, itemId);
      Ok(RemoveItem(st, itemId))
  }

  /** Only the items table changed. */
  predicate OnlyItems(st: State, st': State) {
    st'.moves == st.moves && st'.tasks == st.tasks && st'.rooms == st.rooms && st'.boxes == st.boxes
  }

  /** `x` with its box set to `box` at time `now`: all that moving an item between boxes
      writes. */
  function Boxed(x: Item, box: Option<Id>, now: Time): Item {
    x.(box_id := box, updated_at := now)
  }

  /** `after` is `before` with the item `itemId` put in `box` and every other row as it was. */
  predicate BoxSetAt(before: seq<Item>, after: seq<Item>, itemId: Id, box: Option<Id>, now: Time) {
    && |after| == |before|
    && forall i :: 0 <= i < |before| ==>
         after[i] == if before[i].id == itemId then Boxed(before[i], box, now) else before[i]
  }

  /** The write of moveItemToBox and removeItemFromBox once the checks pass. */
  function SetBox(st: State, x0: Item, box: Option<Id>, now: Time): (r: State)
    requires Valid(st) && x0 in st.items && RefOk(st.boxes, BoxKey, box)
    ensures Valid(r)
    ensures BoxSetAt(st.items, r.items, x0.id, box, now)
    ensures Boxed(x0, box, now) in r.items
    ensures OnlyItems(st, r)
  {
    var f := (x: Item) => Boxed(x, box, now);
    var items := UpdateWhere(st.items, ItemKey, x0.id, f);
    assert Valid(st.(items := items)) by {
      ItemUpdateValid(st, x0.id, f);
    }
    assert f(x0) in items;
    st.(items := items)
  }

  /** The item and the box are in the same move. */
  ghost predicate SameMove(st: State, itemId: Id, boxId: Id) {
    exists x, b :: x in st.items && b in st.boxes && x.id == itemId && b.id == boxId && x.move_id == b.move_id
  }

  /** The box half of moveItemToBox, for an item row already found. */
  function PlaceInBox(st: State, x: Item, props: Option<Props>, boxId: Id, userId: Id, now: Time): (r: Result<(State, ItemOut)>)
    requires Valid(st) && x in st.items
    ensures !OwnsBox(st, boxId, userId) ==> r == Err(BoxNotFound)
    ensures OwnsBox(st, boxId, userId) ==> (r.Ok? <==> SameMove(st, x.id, boxId))
    ensures r.Err? ==> r.error == BoxNotFound || r.error == BoxInOtherMove
    ensures r.Ok? ==> var (st', out) := r.value;
      && Valid(st')
      && SameMove(st, x.id, boxId)
      && BoxSetAt(st.items, st'.items, x.id, Some(boxId), now)
      && out == ItemOut(Boxed(x, Some(boxId), now), props)
      && OnlyItems(st, st')
  {
    match OwnedBox(st, boxId, userId)
    case None => Err(BoxNotFound)
    case Some(b) =>
      OwnedItemUnique(st, x.id, x);
      OwnedBoxUnique(st, boxId, b);
      if b.move_id != x.move_id then Err(BoxInOtherMove)
      else
        assert HasId(st.boxes, BoxKey, boxId) by {
          var i :| 0 <= i < |st.boxes| && st.boxes[i] == b;
        }
        Ok((SetBox(st, x, Some(boxId), now), ItemOut(Boxed(x, Some(boxId), now), props)))
  }

  /** moveItemToBox: the item and the box must both be the user's, and in the same move;
      then only `box_id` and the update time change. */
  function MoveItemToBox(st: State, itemId: Id, boxId: Id, userId: Id, now: Time): (r: Result<(State, ItemOut)>)
    requires Valid(st)
    ensures !OwnsItem(st, itemId, userId) ==> r == Err(ItemNotFound)
    ensures OwnsItem(st, itemId, userId) && PropsReadable(st.items) && !OwnsBox(st, boxId, userId) ==> r == Err(BoxNotFound)
    ensures OwnsItem(st, itemId, userId) && PropsReadable(st.items) && OwnsBox(st, boxId, userId) ==>
      (r.Ok? <==> SameMove(st, itemId, boxId))
    ensures r.Err? ==> r.error in {ItemNotFound, InvalidJson, BoxNotFound, BoxInOtherMove}
    ensures r.Ok? ==> var (st', out) := r.value;
      && Valid(st')
      && SameMove(st, itemId, boxId)
      && BoxSetAt(st.items, st'.items, itemId, Some(boxId), now)
      && (exists x0 :: x0 in st.items && x0.id == itemId && out.row == Boxed(x0, Some(boxId), now))
      && ReadProps(out.row.properties) == Ok(out.properties)
      && OnlyItems(st, st')
  {
    match GetItemById(st, itemId, userId)
    case Err(e) => Err(e)
    case Ok(v) => PlaceInBox(st, v.row, v.properties, boxId, userId, now)
  }

  /** With unique keys, the owned item is the only row with its id. */
  lemma OwnedItemUnique(st: State, itemId: Id, x: Item)
    requires UniqueIds(st.items, ItemKey) && x in st.items && x.id == itemId
    ensures forall y :: y in st.items && y.id == itemId ==> y == x
  {
    forall y | y in st.items && y.id == itemId
      ensures y == x
    {
      var i :| 0 <= i < |st.items| && st.items[i] == x;
      var j :| 0 <= j < |st.items| && st.items[j] == y;
      assert ItemKey(st.items[i]) == ItemKey(st.items[j]);
    }
  }

  lemma OwnedBoxUnique(st: State, boxId: Id, b: Box)
    requires UniqueIds(st.boxes, BoxKey) && b in st.boxes && b.id == boxId
    ensures forall c :: c in st.boxes && c.id == boxId ==> c == b
  {
    forall c | c in st.boxes && c.id == boxId
      ensures c == b
    {
      var i :| 0 <= i < |st.boxes| && st.boxes[i] == b;
      var j :| 0 <= j < |st.boxes| && st.boxes[j] == c;
      assert BoxKey(st.boxes[i]) == BoxKey(st.boxes[j]);
    }
  }

  /** removeItemFromBox: after the ownership check, `box_id` becomes NULL; nothing else but
      the update time changes. */
  function RemoveItemFromBox(st: State, itemId: Id, userId: Id, now: Time): (r: Result<(State, ItemOut)>)
    requires Valid(st)
    ensures !OwnsItem(st, itemId, userId) ==> r == Err(ItemNotFound)
    ensures OwnsItem(st, itemId, userId) && PropsReadable(st.items) ==> r.Ok?
    ensures r.Err? ==> r.error == ItemNotFound || r.error == InvalidJson
    ensures r.Ok? ==> var (st', out) := r.value;
      && Valid(st')
      && BoxSetAt(st.items, st'.items, itemId, None, now)
      && (exists x0 :: x0 in st.items && x0.id == itemId && out.row == Boxed(x0, None, now))
      && out.row in st'.items
      && ReadProps(out.row.properties) == Ok(out.properties)
      && OnlyItems(st, st')
  {
    match GetItemById(st, itemId, userId)
    case Err(e) => Err(e)
    case Ok(v) => Ok((SetBox(st, v.row, None, now), ItemOut(Boxed(v.row, None, now), v.properties)))
  }

  /** Taking an item out of its box a second time, at the same instant, changes nothing more
      and answers the same row. */
  lemma RemoveItemFromBoxIdempotent(st: State, itemId: Id, userId: Id, now: Time)
    requires Valid(st) && RemoveItemFromBox(st, itemId, userId, now).Ok?
    ensures var (st1, out1) := RemoveItemFromBox(st, itemId, userId, now).value;
      RemoveItemFromBox(st1, itemId, userId, now) == Ok((st1, out1))
  {
    var (st1, out1) := RemoveItemFromBox(st, itemId, userId, now).value;
    var x0 := OwnedItem(st, itemId, userId).value;
    var x1 := Boxed(x0, None, now);
    assert OwnedItem(st1, itemId, userId) == Some(x1) by {
      assert x1 in st1.items;
    }
    var r2 := RemoveItemFromBox(st1, itemId, userId, now);
    assert r2.Ok?;
    assert r2.value.0.items == st1.items by {
      BoxSetTwice(st.items, st1.items, r2.value.0.items, itemId, None, now);
    }
  }

  /** Setting the same box at the same time twice is setting it once. */
  lemma BoxSetTwice(before: seq<Item>, mid: seq<Item>, after: seq<Item>, itemId: Id, box: Option<Id>, now: Time)
    requires BoxSetAt(before, mid, itemId, box, now) && BoxSetAt(mid, after, itemId, box, now)
    ensures after == mid
  {
    assert forall i :: 0 <= i < |mid| ==> after[i] == mid[i];
  }

  // ---------------------------------------------------------------- aggregates

  /** The move's items (`WHERE move_id = ?`). */
  function InMove(moveId: Id): Item -> bool {
    (x: Item) => x.move_id == moveId
  }

  function MoveItems(st: State, moveId: Id): seq<Item> {
    Filter(st.items, InMove(moveId))
  }

  predicate IsPacked(x: Item) { x.box_id.Some? }
  predicate IsFragile(x: Item) { x.is_fragile }
  predicate NeedsHandling(x: Item) { x.requires_special_handling }
  predicate IsValued(x: Item) { x.estimated_value.Some? }

  /** The statistics row. `AVG(estimated_value)` is carried as the pair it is computed from:
      the sum over the valued items and how many of them there are. */
  datatype ItemStats = ItemStats(
    total_items: nat,
    packed_items: nat,
    fragile_items: nat,
    special_handling_items: nat,
    total_value: Cents,
    valued_items: nat)

  /** Every conditional count is a count of some of the rows. */
  function ItemStatsOf(rows: seq<Item>): (s: ItemStats)
    ensures s.total_items == |rows|
    ensures s.packed_items <= s.total_items && s.fragile_items <= s.total_items
    ensures s.special_handling_items <= s.total_items && s.valued_items <= s.total_items
  {
    ItemStats(|rows|, Count(rows, IsPacked), Count(rows, IsFragile), Count(rows, NeedsHandling),
              Sum(rows, ValueOf), Count(rows, IsValued))
  }

  /** getItemStats: counts and the value total over the owned move's items. */
  function GetItemStats(st: State, moveId: Id, userId: Id): (r: Result<ItemStats>)
    ensures r.Ok? <==> OwnsMove(st, moveId, userId)
    ensures r.Err? ==> r.error == MoveNotFound
    ensures r.Ok? ==> var s := r.value;
      && s.total_items == |MoveItems(st, moveId)|
      && s.total_items == Count(st.items, InMove(moveId))
      && s.packed_items == Count(MoveItems(st, moveId), IsPacked)
      && s.fragile_items == Count(MoveItems(st, moveId), IsFragile)
      && s.special_handling_items == Count(MoveItems(st, moveId), NeedsHandling)
      && s.valued_items == Count(MoveItems(st, moveId), IsValued)
      && s.total_value == Sum(MoveItems(st, moveId), ValueOf)
      && s.packed_items <= s.total_items && s.fragile_items <= s.total_items
      && s.special_handling_items <= s.total_items && s.valued_items <= s.total_items
  {
    if !OwnsMove(st, moveId, userId) then Err(MoveNotFound)
    else Ok(ItemStatsOf(MoveItems(st, moveId)))
  }

  /** Packed and unpacked items make up the whole move. */
  lemma PackedPartition(st: State, moveId: Id, userId: Id)
    requires OwnsMove(st, moveId, userId)
    ensures var s := GetItemStats(st, moveId, userId).value;
      s.packed_items + Count(MoveItems(st, moveId), (x: Item) => x.box_id.None?) == s.total_items
  {
    CountPartition(MoveItems(st, moveId), IsPacked, (x: Item) => x.box_id.None?);
    CountAll(MoveItems(st, moveId), (x: Item) => true);
  }

  /** The statistics count the same items the unfiltered listing returns. */
  lemma StatsMatchListing(st: State, moveId: Id, userId: Id)
    requires OwnsMove(st, moveId, userId) && PropsReadable(st.items)
    ensures GetItemsByMove(st, moveId, userId, NoItemFilters).Ok?
    ensures var rows := Rows(GetItemsByMove(st, moveId, userId, NoItemFilters).value);
      var s := GetItemStats(st, moveId, userId).value;
      && |rows| == s.total_items
      && Count(rows, IsPacked) == s.packed_items
      && Count(rows, IsFragile) == s.fragile_items
      && Count(rows, NeedsHandling) == s.special_handling_items
  {
    var rows := Rows(GetItemsByMove(st, moveId, userId, NoItemFilters).value);
    var all := MoveItems(st, moveId);
    assert multiset(rows) == multiset(all) by {
      UnfilteredListing(st, moveId, userId);
    }
    assert |rows| == |all| by {
      assert |rows| == |multiset(rows)| == |multiset(all)| == |all|;
    }
    CountPermutation(rows, all, IsPacked);
    CountPermutation(rows, all, IsFragile);
    CountPermutation(rows, all, NeedsHandling);
  }

  /** A listing without filters holds exactly the move's items. */
  lemma UnfilteredListing(st: State, moveId: Id, userId: Id)
    requires OwnsMove(st, moveId, userId) && PropsReadable(st.items)
    ensures GetItemsByMove(st, moveId, userId, NoItemFilters).Ok?
    ensures multiset(Rows(GetItemsByMove(st, moveId, userId, NoItemFilters).value)) == multiset(MoveItems(st, moveId))
  {
    var rows := ListItems(st, moveId, NoItemFilters);
    var all := MoveItems(st, moveId);
    assert multiset(rows) == multiset(all) by {
      forall x
        ensures multiset(rows)[x] == multiset(all)[x]
      {
        assert ItemSelected(NoItemFilters, x);
      }
    }
    assert Rows(GetItemsByMove(st, moveId, userId, NoItemFilters).value) == rows;
  }

  /** `category` as the GROUP BY key (NULL is its own group, sorted last). */
  function CategoryKey(x: Item): Datum {
    OptStr(x.category)
  }

  /** getItemsByCategory: the owned move's items grouped by category, in category order, with
      the number of items and their value total per group. */
  function GetItemsByCategory(st: State, moveId: Id, userId: Id): (r: Result<seq<Group>>)
    ensures r.Ok? <==> OwnsMove(st, moveId, userId)
    ensures r.Err? ==> r.error == MoveNotFound
    ensures r.Ok? ==> var g := r.value;
      && StrictlyOrdered(g)
      && (forall i :: 0 <= i < |g| ==> g[i].count > 0)
      && (forall k :: CountOf(g, k) == CountKey(MoveItems(st, moveId), CategoryKey, k))
      && (forall k :: TotalOf(g, k) == SumKey(MoveItems(st, moveId), CategoryKey, ValueOf, k))
      && SumCounts(g) == |MoveItems(st, moveId)|
      && SumTotals(g) == SumValues(MoveItems(st, moveId), ValueOf)
  {
    if !OwnsMove(st, moveId, userId) then Err(MoveNotFound)
    else Ok(GroupBy(MoveItems(st, moveId), CategoryKey, ValueOf))
  }

  /** Summing from the front and summing from the back agree. */
  lemma {:induction false} SumValuesIsSum(rows: seq<Item>)
    ensures SumValues(rows, ValueOf) == Sum(rows, ValueOf)
    decreases |rows|
  {
    if |rows| > 0 {
      SumValuesIsSum(rows[1..]);
      if |rows| > 1 {
        SumValuesIsSum(rows[..|rows| - 1]);
        SumValuesIsSum(rows[1..][..|rows[1..]| - 1]);
        assert rows[1..][..|rows[1..]| - 1] == rows[..|rows| - 1][1..];
      }
    }
  }

  /** The category groups add up to the statistics row: every item is in exactly one group. */
  lemma CategoriesMatchStats(st: State, moveId: Id, userId: Id)
    requires OwnsMove(st, moveId, userId)
    ensures var g := GetItemsByCategory(st, moveId, userId).value;
      var s := GetItemStats(st, moveId, userId).value;
      SumCounts(g) == s.total_items && SumTotals(g) == s.total_value
  {
    SumValuesIsSum(MoveItems(st, moveId));
  }
}
