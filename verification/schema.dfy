/** The five tables the migrations create, their column defaults and widths, and the
    integrity constraints (primary keys, foreign keys, the unique QR code) that every
    database state satisfies. Money is in integer cents (the decimal(10,2) column);
    timestamps are plain integers supplied by a clock parameter. */
module Schema {
  import opened Wrappers
  import opened Tables

  type Time = int

  /** An amount of money in cents. */
  type Cents = int

  /** A point on the map; JavaScript numbers, kept here as exact reals. */
  datatype Coordinates = Coordinates(lat: real, lng: real)

  /** One end of a move; stored as a JSON column, the optional coordinates included. */
  datatype Location = Location(address: string, city: string, state: string, zipCode: string, country: string,
                               coordinates: Option<Coordinates>)

  datatype Move = Move(
    id: Id,
    user_id: Id,
    start_location: Location,
    end_location: Location,
    move_date: string,
    status: string,
    household_size: Option<int>,
    inventory_size_estimate: Option<string>,
    created_at: Time,
    updated_at: Time)

  datatype Task = Task(
    id: Id,
    move_id: Id,
    name: string,
    description: Option<string>,
    due_date: Option<string>,
    status: string,
    category: string,
    priority: int,
    order_index: int,
    created_at: Time,
    updated_at: Time)

  datatype Room = Room(
    id: Id,
    move_id: Id,
    name: string,
    description: Option<string>,
    created_at: Time,
    updated_at: Time)

  datatype Item = Item(
    id: Id,
    move_id: Id,
    room_id: Option<Id>,
    box_id: Option<Id>,
    name: string,
    description: Option<string>,
    photo_url: Option<string>,
    estimated_value: Option<Cents>,
    properties: Option<string>,   // JSON text
    condition: Option<string>,
    category: Option<string>,
    is_fragile: bool,
    requires_special_handling: bool,
    created_at: Time,
    updated_at: Time)

  datatype Box = Box(
    id: Id,
    move_id: Id,
    label_text: string,   // the `label` column (`label` is a Dafny keyword)
    qr_code: Option<string>,
    destination_room_id: Option<Id>,
    box_type: string,
    notes: Option<string>,
    is_packed: bool,
    is_loaded: bool,
    is_delivered: bool,
    packed_at: Option<Time>,
    loaded_at: Option<Time>,
    delivered_at: Option<Time>,
    created_at: Time,
    updated_at: Time)

  /** The whole database: one sequence of rows per table. */
  datatype State = State(moves: seq<Move>, tasks: seq<Task>, rooms: seq<Room>, items: seq<Item>, boxes: seq<Box>)

  // Primary keys.
  function MoveKey(m: Move): Id { m.id }
  function TaskKey(t: Task): Id { t.id }
  function RoomKey(r: Room): Id { r.id }
  function ItemKey(i: Item): Id { i.id }
  function BoxKey(b: Box): Id { b.id }

  // Column defaults.
  const DefaultMoveStatus := "planning"
  const DefaultTaskStatus := "pending"
  const DefaultPriority := 0
  const DefaultOrderIndex := 0
  const DefaultBoxType := "standard"

  // Column widths (varchar lengths); `string(col)` without a length is 255.
  const RoomNameWidth := 100
  const ItemNameWidth := 255
  const ItemPhotoUrlWidth := 500
  const ItemConditionWidth := 50
  const ItemCategoryWidth := 100
  const BoxLabelWidth := 100
  const BoxQrCodeWidth := 255
  const BoxTypeWidth := 50
  const TaskNameWidth := 255
  const TaskCategoryWidth := 255

  /** An item's value in SUM(estimated_value): NULL adds nothing. */
  function ValueOf(x: Item): Cents {
    x.estimated_value.GetOr(0)
  }

  /** A NULL reference, or one naming an existing row. */
  ghost predicate RefOk<T>(table: seq<T>, idOf: T -> Id, ref: Option<Id>) {
    ref.None? || HasId(table, idOf, ref.value)
  }

  /** Two boxes carrying the same QR code are the same box (NULLs do not clash). */
  ghost predicate QrCodesUnique(boxes: seq<Box>) {
    forall a, b :: a in boxes && b in boxes && a.qr_code.Some? && a.qr_code == b.qr_code ==> a.id == b.id
  }

  ghost predicate TasksValid(st: State) {
    && UniqueIds(st.tasks, TaskKey)
    && forall t :: t in st.tasks ==> HasId(st.moves, MoveKey, t.move_id)
  }

  ghost predicate RoomsValid(st: State) {
    && UniqueIds(st.rooms, RoomKey)
    && forall x :: x in st.rooms ==> HasId(st.moves, MoveKey, x.move_id)
  }

  ghost predicate BoxesValid(st: State) {
    && UniqueIds(st.boxes, BoxKey)
    && QrCodesUnique(st.boxes)
    && forall b :: b in st.boxes ==>
        HasId(st.moves, MoveKey, b.move_id) && RefOk(st.rooms, RoomKey, b.destination_room_id)
  }

  ghost predicate ItemsValid(st: State) {
    && UniqueIds(st.items, ItemKey)
    && forall x :: x in st.items ==>
        && HasId(st.moves, MoveKey, x.move_id)
        && RefOk(st.rooms, RoomKey, x.room_id)
        && RefOk(st.boxes, BoxKey, x.box_id)
  }

  /** The constraints the migrations declare: primary keys, the unique QR code, and every
      foreign key naming an existing row (the not-null columns are not optional here). */
  ghost predicate Valid(st: State) {
    && UniqueIds(st.moves, MoveKey)
    && TasksValid(st)
    && RoomsValid(st)
    && BoxesValid(st)
    && ItemsValid(st)
  }

  /** The empty database satisfies the constraints. */
  lemma EmptyValid()
    ensures Valid(State([], [], [], [], []))
  {
  }
}
