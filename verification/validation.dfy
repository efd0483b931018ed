/** The request validation the routes run before a service is called. Each rule set is a
    function from the request as received to the request as the service sees it, or `None`
    when a rule rejects it: `trim()` rewrites a field, every other rule only accepts or
    rejects. The format checks (`isUUID`, `isURL`, `isISO8601`) are left abstract. */
module Validation {
  import opened Wrappers
  import opened Text
  import opened Tables
  import opened Schema
  import opened Query
  import opened Ownership
  import TaskService
  import TaskBatch
  import TaskTemplates
  import MoveService
  import RoomService
  import ItemService
  import BoxService

  /** The format checkers the rules call. */
  datatype Formats = Formats(isUuid: string -> bool, isUrl: string -> bool, isIso8601: string -> bool)

  // ---------------------------------------------------------------- rule building blocks

  /** `.trim().isLength({ min: lo, max: hi })` on a required field. */
  predicate TrimmedIn(s: string, lo: nat, hi: nat) {
    lo <= |Trim(s)| <= hi
  }

  /** The same rule behind `.optional()`: an absent field passes. */
  predicate OptTrimmedIn(v: Option<string>, lo: nat, hi: nat) {
    v.Some? ==> TrimmedIn(v.value, lo, hi)
  }

  function TrimOpt(v: Option<string>): Option<string> {
    if v.Some? then Some(Trim(v.value)) else None
  }

  /** `.optional().isIn(options)`. */
  predicate OptIn(v: Option<string>, options: seq<string>) {
    v.Some? ==> v.value in options
  }

  /** `.optional()` followed by a format check. */
  predicate OptFormat(v: Option<string>, check: string -> bool) {
    v.Some? ==> check(v.value)
  }

  /** `.optional().isInt({ min: lo, max: hi })`; `hi` absent means no upper bound. */
  predicate OptIntIn(v: Option<int>, lo: int, hi: Option<int>) {
    v.Some? ==> lo <= v.value && (hi.Some? ==> v.value <= hi.value)
  }

  /** `.isArray({ min: 1 })` with a check on every element. */
  predicate NonEmptyAll(ids: seq<string>, check: string -> bool) {
    |ids| >= 1 && forall i :: 0 <= i < |ids| ==> check(ids[i])
  }

  lemma TrimOptIdempotent(v: Option<string>)
    ensures TrimOpt(TrimOpt(v)) == TrimOpt(v)
  {
    if v.Some? {
      TrimIdempotent(v.value);
    }
  }

  // ---------------------------------------------------------------- enumerations

  const TaskStatuses := [DefaultTaskStatus, TaskService.StatusInProgress, TaskService.StatusCompleted, TaskService.StatusCancelled]
  const MoveStatuses := ["planning", "in_progress", "completed", "cancelled"]
  const InventorySizes := ["small", "medium", "large", "extra_large"]
  const BulkOperations := [TaskBatch.OpComplete, TaskBatch.OpCancel, TaskBatch.OpDelete]
  const Conditions := ["new", "good", "fair", "poor"]
  const BoxTypes := ["standard", "fragile", "heavy", "clothing", "books", "kitchen", "bathroom", "other"]
  const ItemSortColumns := ["name", "category", "estimated_value", "created_at"]
  const BoxSortColumns := ["label", "box_type", "created_at", "packed_at", "loaded_at", "delivered_at"]
  const SortOrders := ["asc", "desc"]

  // ---------------------------------------------------------------- tasks

  predicate CreateTaskRules(fmt: Formats, req: TaskService.NewTask) {
    && TrimmedIn(req.name, 1, 255)
    && OptTrimmedIn(req.description, 0, 1000)
    && OptFormat(req.dueDate, fmt.isIso8601)
    && TrimmedIn(req.category, 1, 50)
    && OptIntIn(req.priority, 0, Some(10))
  }

  /** The create-task rule set. */
  function ValidateCreateTask(fmt: Formats, req: TaskService.NewTask): (r: Option<TaskService.NewTask>)
    ensures r.Some? <==> CreateTaskRules(fmt, req)
    ensures r.Some? ==> var v := r.value;
      && v.name == Trim(req.name) && v.category == Trim(req.category)
      && v.description == TrimOpt(req.description)
      && v.dueDate == req.dueDate && v.priority == req.priority
      && 1 <= |v.name| <= TaskNameWidth && 1 <= |v.category| <= 50 && |v.category| <= TaskCategoryWidth
      && (v.priority.Some? ==> 0 <= v.priority.value <= 10)
  {
    if CreateTaskRules(fmt, req) then
      Some(req.(name := Trim(req.name), description := TrimOpt(req.description), category := Trim(req.category)))
    else None
  }

  /** A request the create rules let through passes them again unchanged. */
  lemma CreateTaskIdempotent(fmt: Formats, req: TaskService.NewTask)
    requires ValidateCreateTask(fmt, req).Some?
    ensures ValidateCreateTask(fmt, ValidateCreateTask(fmt, req).value) == ValidateCreateTask(fmt, req)
  {
    TrimIdempotent(req.name);
    TrimIdempotent(req.category);
    TrimOptIdempotent(req.description);
  }

  predicate UpdateTaskRules(fmt: Formats, req: TaskService.TaskPatch) {
    && OptTrimmedIn(req.name, 1, 255)
    && OptTrimmedIn(req.description, 0, 1000)
    && OptFormat(req.dueDate, fmt.isIso8601)
    && OptIn(req.status, TaskStatuses)
    && OptTrimmedIn(req.category, 1, 50)
    && OptIntIn(req.priority, 0, Some(10))
    && OptIntIn(req.orderIndex, 0, None)
  }

  /** The update-task rule set: every field optional, a status only from the four. */
  function ValidateUpdateTask(fmt: Formats, req: TaskService.TaskPatch): (r: Option<TaskService.TaskPatch>)
    ensures r.Some? <==> UpdateTaskRules(fmt, req)
    ensures r.Some? ==> var v := r.value;
      && v.name == TrimOpt(req.name) && v.description == TrimOpt(req.description) && v.category == TrimOpt(req.category)
      && v.status == req.status && v.dueDate == req.dueDate && v.priority == req.priority && v.orderIndex == req.orderIndex
      && (v.name.Some? ==> 1 <= |v.name.value| <= TaskNameWidth)
      && (v.category.Some? ==> 1 <= |v.category.value| <= 50)
      && (v.status.Some? ==> v.status.value in TaskStatuses)
      && (v.priority.Some? ==> 0 <= v.priority.value <= 10)
      && (v.orderIndex.Some? ==> v.orderIndex.value >= 0)
  {
    if UpdateTaskRules(fmt, req) then
      Some(req.(name := TrimOpt(req.name), description := TrimOpt(req.description), category := TrimOpt(req.category)))
    else None
  }

  predicate TaskQueryRules(f: TaskService.TaskFilter) {
    && OptIn(f.status, TaskStatuses)
    && OptTrimmedIn(f.category, 1, 50)
    && OptTrimmedIn(f.search, 1, 100)
  }

  /** The task-listing query rules. A filter that gets through is non-blank, so it applies. */
  function ValidateTaskQuery(f: TaskService.TaskFilter): (r: Option<TaskService.TaskFilter>)
    ensures r.Some? <==> TaskQueryRules(f)
    ensures r.Some? ==> var v := r.value;
      && v.status == f.status && v.category == TrimOpt(f.category) && v.search == TrimOpt(f.search)
      && (v.status.Some? ==> v.status.value in TaskStatuses)
      && (v.category.Some? ==> Given(v.category))
      && (v.search.Some? ==> Given(v.search) && |v.search.value| <= 100)
  {
    if TaskQueryRules(f) then Some(f.(category := TrimOpt(f.category), search := TrimOpt(f.search))) else None
  }

  /** The reorder rules: a non-empty list of UUIDs. */
  function ValidateReorder(fmt: Formats, taskIds: seq<Id>): (r: Option<seq<Id>>)
    ensures r.Some? <==> NonEmptyAll(taskIds, fmt.isUuid)
    ensures r.Some? ==> r.value == taskIds && |r.value| >= 1
  {
    if NonEmptyAll(taskIds, fmt.isUuid) then Some(taskIds) else None
  }

  /** The reorder rules do not ask for distinct ids: a list naming one task twice gets
      through, and that task may end at either of its two positions. */
  lemma ValidatedReorderMayRepeat(fmt: Formats, t: Task, t': Task, moveId: Id, now: Time)
    requires fmt.isUuid(t.id) && t.move_id == moveId
    ensures ValidateReorder(fmt, [t.id, t.id]).Some? && !TaskBatch.Distinct([t.id, t.id])
    ensures TaskBatch.ReorderedTo(t, t', moveId, [t.id, t.id], now) ==> t'.order_index == 0 || t'.order_index == 1
    ensures TaskBatch.ReorderedTo(t, t.(order_index := 0, updated_at := now), moveId, [t.id, t.id], now)
    ensures TaskBatch.ReorderedTo(t, t.(order_index := 1, updated_at := now), moveId, [t.id, t.id], now)
  {
    assert [t.id, t.id][0] == [t.id, t.id][1];
  }

  /** The bulk rules: a non-empty list of UUIDs and one of the three operations, so every
      validated request is one whose ids are all counted as a success or a failure. */
  function ValidateBulk(fmt: Formats, taskIds: seq<Id>, op: string): (r: Option<(seq<Id>, string)>)
    ensures r.Some? <==> NonEmptyAll(taskIds, fmt.isUuid) && op in BulkOperations
    ensures r.Some? ==> r.value == (taskIds, op) && |taskIds| >= 1
    ensures r.Some? ==> op in {TaskBatch.OpDelete, TaskBatch.OpComplete, TaskBatch.OpCancel}
  {
    if NonEmptyAll(taskIds, fmt.isUuid) && op in BulkOperations then Some((taskIds, op)) else None
  }

  /** The template rules: a non-empty list (the elements are strings by type). */
  function ValidateTemplateIds(templateIds: seq<string>): (r: Option<seq<string>>)
    ensures r.Some? <==> |templateIds| >= 1
    ensures r.Some? ==> r.value == templateIds
  {
    if |templateIds| >= 1 then Some(templateIds) else None
  }

  /** The template rules do not check the ids against the catalogue: an accepted request
      selects a template exactly when it names one, and one naming none selects nothing, so
      `applyTaskTemplates` then creates no task and does not fail even for a missing move. */
  lemma ValidatedTemplateSelection(templateIds: seq<string>)
    requires ValidateTemplateIds(templateIds).Some?
    ensures TaskTemplates.Select(TaskTemplates.GetTaskTemplates(), templateIds) != []
      <==> exists t :: t in TaskTemplates.GetTaskTemplates() && t.id in templateIds
  {
    var sel := TaskTemplates.Select(TaskTemplates.GetTaskTemplates(), templateIds);
    if sel != [] {
      assert sel[0] in sel;
    }
  }

  /** An id longer than any catalogue id passes the rules and selects nothing. */
  lemma UnknownTemplateAccepted(id: string)
    requires |id| > 2
    ensures ValidateTemplateIds([id]).Some?
    ensures TaskTemplates.Select(TaskTemplates.GetTaskTemplates(), [id]) == []
  {
    var cat := TaskTemplates.GetTaskTemplates();
    var sel := TaskTemplates.Select(cat, [id]);
    if sel != [] {
      assert sel[0] in cat && sel[0].id == id;
      TaskTemplates.CatalogueIdsShort();
    }
  }

  // ---------------------------------------------------------------- moves

  predicate LocationFilled(l: Location) {
    l.address != "" && l.city != "" && l.state != "" && l.zipCode != "" && l.country != ""
  }

  predicate CreateMoveRules(fmt: Formats, req: MoveService.NewMove) {
    && LocationFilled(req.startLocation)
    && LocationFilled(req.endLocation)
    && fmt.isIso8601(req.moveDate)
    && OptIntIn(req.householdSize, 1, None)
    && OptIn(req.inventorySizeEstimate, InventorySizes)
  }

  /** The create-move rules: both addresses complete, a date, a positive household size. */
  function ValidateCreateMove(fmt: Formats, req: MoveService.NewMove): (r: Option<MoveService.NewMove>)
    ensures r.Some? <==> CreateMoveRules(fmt, req)
    ensures r.Some? ==> r.value == req
    ensures r.Some? ==>
      && req.startLocation.address != "" && req.endLocation.address != ""
      && (req.householdSize.Some? ==> req.householdSize.value >= 1)
      && (req.inventorySizeEstimate.Some? ==> req.inventorySizeEstimate.value in InventorySizes)
  {
    if CreateMoveRules(fmt, req) then Some(req) else None
  }

  /** The column values the move rules let through: a date, a known status, a positive
      household size and a listed size estimate. */
  predicate MoveFieldsAdmitted(fmt: Formats, m: Move) {
    && fmt.isIso8601(m.move_date)
    && m.status in MoveStatuses
    && OptIntIn(m.household_size, 1, None)
    && OptIn(m.inventory_size_estimate, InventorySizes)
  }

  predicate AllMovesAdmitted(fmt: Formats, st: State) {
    forall m :: m in st.moves ==> MoveFieldsAdmitted(fmt, m)
  }

  predicate AllAddressesFilled(st: State) {
    forall m :: m in st.moves ==> LocationFilled(m.start_location) && LocationFilled(m.end_location)
  }

  /** The create rules accept a request exactly when the move `createMove` stores from it has
      admitted fields and complete addresses, so creating validated moves keeps both facts
      true of every move. */
  lemma ValidatedCreateMoveKeepsRules(fmt: Formats, st: State, userId: Id, req: MoveService.NewMove, freshId: Id, now: Time)
    requires Valid(st) && !HasId(st.moves, MoveKey, freshId)
    ensures var m := MoveService.CreateMove(st, userId, req, freshId, now).1;
      ValidateCreateMove(fmt, req).Some? <==>
        MoveFieldsAdmitted(fmt, m) && LocationFilled(m.start_location) && LocationFilled(m.end_location)
    ensures var st' := MoveService.CreateMove(st, userId, req, freshId, now).0;
      ValidateCreateMove(fmt, req).Some? && AllMovesAdmitted(fmt, st) && AllAddressesFilled(st) ==>
        AllMovesAdmitted(fmt, st') && AllAddressesFilled(st')
  {
    var (st', m) := MoveService.CreateMove(st, userId, req, freshId, now);
    assert m.status == "planning";
    assert st'.moves == st.moves + [m];
  }

  predicate UpdateMoveRules(fmt: Formats, req: MoveService.MovePatch) {
    && OptFormat(req.moveDate, fmt.isIso8601)
    && OptIntIn(req.householdSize, 1, None)
    && OptIn(req.inventorySizeEstimate, InventorySizes)
  }

  /** The update-move rules. A replacement location only has to be an object: its fields are
      not checked, so an update may blank an address the create rules insisted on. */
  function ValidateUpdateMove(fmt: Formats, req: MoveService.MovePatch): (r: Option<MoveService.MovePatch>)
    ensures r.Some? <==> UpdateMoveRules(fmt, req)
    ensures r.Some? ==> r.value == req
    ensures r.Some? ==> (req.householdSize.Some? ==> req.householdSize.value >= 1)
  {
    if UpdateMoveRules(fmt, req) then Some(req) else None
  }

  /** Updating with a validated request keeps every move's fields admitted. */
  lemma ValidatedUpdateMoveKeepsRules(fmt: Formats, st: State, moveId: Id, userId: Id, req: MoveService.MovePatch)
    requires Valid(st)
    ensures var r := MoveService.UpdateMove(st, moveId, userId, req);
      ValidateUpdateMove(fmt, req).Some? && AllMovesAdmitted(fmt, st) && r.Ok? ==> AllMovesAdmitted(fmt, r.value.0)
  {
    var r := MoveService.UpdateMove(st, moveId, userId, req);
    if ValidateUpdateMove(fmt, req).Some? && AllMovesAdmitted(fmt, st) && r.Ok? && r.value.1.Some? {
      var f := (m: Move) => MoveService.PatchMove(m, req);
      var moves := MoveService.UpdateOwned(st.moves, moveId, userId, f);
      assert r.value.0.moves == moves;
      forall m | m in moves ensures MoveFieldsAdmitted(fmt, m) {
        var i :| 0 <= i < |moves| && moves[i] == m;
        assert st.moves[i] in st.moves;
      }
    }
  }

  /** The create-time guarantee of complete addresses does not survive an update: a blank
      start address gets through the update rules and is stored on the user's move. */
  lemma UpdateMayBlankAddress(fmt: Formats, st: State, moveId: Id, userId: Id)
    requires Valid(st) && OwnsMove(st, moveId, userId)
    ensures var blank := Location("", "", "", "", "", None);
      var req := MoveService.MovePatch(Some(blank), None, None, None, None);
      var r := MoveService.UpdateMove(st, moveId, userId, req);
      && ValidateUpdateMove(fmt, req).Some?
      && r.Ok? && r.value.1.Some? && r.value.1.value.start_location == blank
      && !AllAddressesFilled(r.value.0)
  {
    var blank := Location("", "", "", "", "", None);
    var req := MoveService.MovePatch(Some(blank), None, None, None, None);
    var r := MoveService.UpdateMove(st, moveId, userId, req);
    assert MoveService.SetsSomething(req);
    var m :| m in st.moves && MoveService.IsOwned(m, moveId, userId) && r.value.1.value == MoveService.PatchMove(m, req);
    assert r.value.1.value in r.value.0.moves;
  }

  /** The status rules: one of the four move statuses. */
  function ValidateMoveStatus(status: string): (r: Option<string>)
    ensures r.Some? <==> status in MoveStatuses
    ensures r.Some? ==> r.value == status && (status == DefaultMoveStatus || status in MoveStatuses[1..])
  {
    if status in MoveStatuses then Some(status) else None
  }

  /** On an owned move, the status rules accept exactly the statuses whose update keeps every
      move's fields admitted. */
  lemma ValidatedStatusKeepsRules(fmt: Formats, st: State, moveId: Id, userId: Id, status: string)
    requires Valid(st) && AllMovesAdmitted(fmt, st) && OwnsMove(st, moveId, userId)
    ensures ValidateMoveStatus(status).Some? <==>
      AllMovesAdmitted(fmt, MoveService.UpdateMoveStatus(st, moveId, userId, status).0)
  {
    var r := MoveService.UpdateMoveStatus(st, moveId, userId, status);
    assert r.1.value in r.0.moves;
    if status in MoveStatuses {
      var f := (m: Move) => m.(status := status);
      var moves := MoveService.UpdateOwned(st.moves, moveId, userId, f);
      assert r.0.moves == moves;
      forall m | m in moves ensures MoveFieldsAdmitted(fmt, m) {
        var i :| 0 <= i < |moves| && moves[i] == m;
        assert st.moves[i] in st.moves;
      }
    }
  }

  // ---------------------------------------------------------------- rooms

  /** The create-room rules: a trimmed name of 1 to 100 characters fits the name column. */
  function ValidateCreateRoom(req: RoomService.NewRoom): (r: Option<RoomService.NewRoom>)
    ensures r.Some? <==> TrimmedIn(req.name, 1, 100) && OptTrimmedIn(req.description, 0, 500)
    ensures r.Some? ==> var v := r.value;
      && v.name == Trim(req.name) && v.description == TrimOpt(req.description)
      && 1 <= |v.name| <= RoomNameWidth
      && (v.description.Some? ==> |v.description.value| <= 500)
  {
    if TrimmedIn(req.name, 1, 100) && OptTrimmedIn(req.description, 0, 500) then
      Some(RoomService.NewRoom(Trim(req.name), TrimOpt(req.description)))
    else None
  }

  /** The update-room rules: the same bounds, each field optional. */
  function ValidateUpdateRoom(req: RoomService.RoomPatch): (r: Option<RoomService.RoomPatch>)
    ensures r.Some? <==> OptTrimmedIn(req.name, 1, 100) && OptTrimmedIn(req.description, 0, 500)
    ensures r.Some? ==> var v := r.value;
      && v.name == TrimOpt(req.name) && v.description == TrimOpt(req.description)
      && (v.name.Some? ==> 1 <= |v.name.value| <= RoomNameWidth)
      && (v.description.Some? ==> |v.description.value| <= 500)
  {
    if OptTrimmedIn(req.name, 1, 100) && OptTrimmedIn(req.description, 0, 500) then
      Some(RoomService.RoomPatch(TrimOpt(req.name), TrimOpt(req.description)))
    else None
  }

  /** A validated room request validates again to itself. */
  lemma CreateRoomIdempotent(req: RoomService.NewRoom)
    requires ValidateCreateRoom(req).Some?
    ensures ValidateCreateRoom(ValidateCreateRoom(req).value) == ValidateCreateRoom(req)
  {
    TrimIdempotent(req.name);
    TrimOptIdempotent(req.description);
  }

  // ---------------------------------------------------------------- items

  predicate CreateItemRules(fmt: Formats, req: ItemService.NewItem) {
    && TrimmedIn(req.name, 1, 255)
    && OptTrimmedIn(req.description, 0, 1000)
    && OptFormat(req.room_id, fmt.isUuid)
    && OptFormat(req.box_id, fmt.isUuid)
    && OptFormat(req.photo_url, fmt.isUrl)
    && OptIn(req.condition, Conditions)
    && OptTrimmedIn(req.category, 0, 100)
  }

  /** The create-item rules: the name, condition and category then fit their columns. */
  function ValidateCreateItem(fmt: Formats, req: ItemService.NewItem): (r: Option<ItemService.NewItem>)
    ensures r.Some? <==> CreateItemRules(fmt, req)
    ensures r.Some? ==> var v := r.value;
      && v.name == Trim(req.name) && v.description == TrimOpt(req.description) && v.category == TrimOpt(req.category)
      && v.room_id == req.room_id && v.box_id == req.box_id && v.photo_url == req.photo_url
      && v.condition == req.condition && v.estimated_value == req.estimated_value && v.properties == req.properties
      && 1 <= |v.name| <= ItemNameWidth
      && (v.category.Some? ==> |v.category.value| <= ItemCategoryWidth)
      && (v.condition.Some? ==> v.condition.value in Conditions && |v.condition.value| <= ItemConditionWidth)
  {
    if CreateItemRules(fmt, req) then
      Some(req.(name := Trim(req.name), description := TrimOpt(req.description), category := TrimOpt(req.category)))
    else None
  }

  predicate UpdateItemRules(fmt: Formats, req: ItemService.ItemPatch) {
    && OptTrimmedIn(req.name, 1, 255)
    && OptTrimmedIn(req.description, 0, 1000)
    && OptFormat(req.room_id, fmt.isUuid)
    && OptFormat(req.box_id, fmt.isUuid)
    && OptFormat(req.photo_url, fmt.isUrl)
    && OptIn(req.condition, Conditions)
    && OptTrimmedIn(req.category, 0, 100)
  }

  /** The update-item rules: the create rules with every field optional. */
  function ValidateUpdateItem(fmt: Formats, req: ItemService.ItemPatch): (r: Option<ItemService.ItemPatch>)
    ensures r.Some? <==> UpdateItemRules(fmt, req)
    ensures r.Some? ==> var v := r.value;
      && v.name == TrimOpt(req.name) && v.description == TrimOpt(req.description) && v.category == TrimOpt(req.category)
      && v.room_id == req.room_id && v.box_id == req.box_id && v.condition == req.condition
      && (v.name.Some? ==> 1 <= |v.name.value| <= ItemNameWidth)
      && (v.category.Some? ==> |v.category.value| <= ItemCategoryWidth)
      && (v.condition.Some? ==> v.condition.value in Conditions)
  {
    if UpdateItemRules(fmt, req) then
      Some(req.(name := TrimOpt(req.name), description := TrimOpt(req.description), category := TrimOpt(req.category)))
    else None
  }

  predicate ItemQueryRules(fmt: Formats, f: ItemService.ItemFilters) {
    && OptFormat(f.room_id, fmt.isUuid)
    && OptFormat(f.box_id, fmt.isUuid)
    && OptTrimmedIn(f.category, 0, 100)
    && OptIn(f.condition, Conditions)
    && OptTrimmedIn(f.search, 0, 255)
    && OptIn(f.sort_by, ItemSortColumns)
    && OptIn(f.sort_order, SortOrders)
  }

  /** The item-listing query rules. */
  function ValidateItemQuery(fmt: Formats, f: ItemService.ItemFilters): (r: Option<ItemService.ItemFilters>)
    ensures r.Some? <==> ItemQueryRules(fmt, f)
    ensures r.Some? ==> var v := r.value;
      && v.category == TrimOpt(f.category) && v.search == TrimOpt(f.search)
      && v.room_id == f.room_id && v.box_id == f.box_id && v.condition == f.condition && v.is_fragile == f.is_fragile
      && v.sort_by == f.sort_by && v.sort_order == f.sort_order
      && (v.sort_by.Some? ==> v.sort_by.value in ItemSortColumns)
      && (v.sort_order.Some? ==> v.sort_order.value in SortOrders)
  {
    if ItemQueryRules(fmt, f) then Some(f.(category := TrimOpt(f.category), search := TrimOpt(f.search))) else None
  }

  /** A validated item listing names a real column, so an owned move's listing succeeds
      whenever the stored properties parse. */
  lemma ValidatedItemQueryLists(fmt: Formats, f: ItemService.ItemFilters, st: State, moveId: Id, userId: Id)
    requires ValidateItemQuery(fmt, f).Some?
    requires OwnsMove(st, moveId, userId) && ItemService.PropsReadable(st.items)
    ensures ItemService.GetItemsByMove(st, moveId, userId, ValidateItemQuery(fmt, f).value).Ok?
  {
    var v := ValidateItemQuery(fmt, f).value;
    assert ItemService.IsItemColumn(ItemService.ItemSortColumn(v));
  }

  /** The validated direction is the direction the listing sorts in. */
  lemma ValidatedSortOrder(order: Option<string>)
    requires order.Some? ==> order.value in SortOrders
    ensures Descending(order) <==> order == Some("desc")
  {
    if order.Some? {
      assert LowerStr("asc") == "asc";
      assert LowerStr("desc") == "desc";
    }
  }

  /** The move-to-box rule: the box id is a UUID. */
  function ValidateMoveToBox(fmt: Formats, boxId: Id): (r: Option<Id>)
    ensures r.Some? <==> fmt.isUuid(boxId)
    ensures r.Some? ==> r.value == boxId
  {
    if fmt.isUuid(boxId) then Some(boxId) else None
  }

  /** A box id that passes the rule is still checked by the service: for an owned, readable
      item the move succeeds exactly when the box is the user's and in the item's move, fails
      only with a box error otherwise, and then files the item under that box. */
  lemma ValidatedBoxIdChecked(fmt: Formats, st: State, itemId: Id, boxId: Id, userId: Id, now: Time)
    requires Valid(st) && OwnsItem(st, itemId, userId) && ItemService.PropsReadable(st.items)
    requires ValidateMoveToBox(fmt, boxId).Some?
    ensures var r := ItemService.MoveItemToBox(st, itemId, ValidateMoveToBox(fmt, boxId).value, userId, now);
      && (r.Ok? <==> OwnsBox(st, boxId, userId) && ItemService.SameMove(st, itemId, boxId))
      && (r.Err? ==> r.error == BoxNotFound || r.error == BoxInOtherMove)
      && (r.Ok? ==> exists x :: x in r.value.0.items && x.id == itemId && x.box_id == Some(boxId))
  {
    var r := ItemService.MoveItemToBox(st, itemId, boxId, userId, now);
    if r.Ok? {
      var x0 :| x0 in st.items && x0.id == itemId && r.value.1.row == ItemService.Boxed(x0, Some(boxId), now);
      var i :| 0 <= i < |st.items| && st.items[i] == x0;
      assert r.value.0.items[i] == r.value.1.row;
    }
  }

  // ---------------------------------------------------------------- boxes

  predicate CreateBoxRules(fmt: Formats, req: BoxService.NewBox) {
    && TrimmedIn(req.label_text, 1, 100)
    && OptFormat(req.destination_room_id, fmt.isUuid)
    && OptIn(req.box_type, BoxTypes)
    && OptTrimmedIn(req.notes, 0, 500)
  }

  /** The create-box rules. */
  function ValidateCreateBox(fmt: Formats, req: BoxService.NewBox): (r: Option<BoxService.NewBox>)
    ensures r.Some? <==> CreateBoxRules(fmt, req)
    ensures r.Some? ==> var v := r.value;
      && v.label_text == Trim(req.label_text) && v.notes == TrimOpt(req.notes)
      && v.destination_room_id == req.destination_room_id && v.box_type == req.box_type
      && 1 <= |v.label_text| <= BoxLabelWidth
      && (v.box_type.Some? ==> v.box_type.value in BoxTypes)
      && (v.notes.Some? ==> |v.notes.value| <= 500)
  {
    if CreateBoxRules(fmt, req) then
      Some(req.(label_text := Trim(req.label_text), notes := TrimOpt(req.notes)))
    else None
  }

  /** Every box type the rules accept, and the default, fit the type column. */
  lemma BoxTypesFit()
    ensures forall t :: t in BoxTypes ==> |t| <= BoxTypeWidth
    ensures DefaultBoxType in BoxTypes
  {
  }

  /** A box created from a validated request fits the label, type and QR code columns, given
      a token no longer than a UUID's 36 characters. */
  lemma CreatedBoxFits(fmt: Formats, req: BoxService.NewBox, st: State, moveId: Id, userId: Id, freshId: Id, token: string, now: Time)
    requires ValidateCreateBox(fmt, req).Some? && |token| <= 36
    requires Valid(st) && !HasId(st.boxes, BoxKey, freshId) && BoxService.CodeFree(st.boxes, BoxService.QrCode(token))
    ensures var r := BoxService.CreateBox(st, moveId, userId, ValidateCreateBox(fmt, req).value, freshId, token, now);
      r.Ok? ==> var b := r.value.1;
        |b.label_text| <= BoxLabelWidth && |b.box_type| <= BoxTypeWidth && |b.qr_code.value| <= BoxQrCodeWidth
  {
    BoxTypesFit();
  }

  predicate UpdateBoxRules(fmt: Formats, req: BoxService.BoxPatch) {
    && OptTrimmedIn(req.label_text, 1, 100)
    && OptFormat(req.destination_room_id, fmt.isUuid)
    && OptIn(req.box_type, BoxTypes)
    && OptTrimmedIn(req.notes, 0, 500)
  }

  /** The update-box rules. The three flags are plain booleans: any combination is accepted,
      so an update can mark a box delivered that was never packed. */
  function ValidateUpdateBox(fmt: Formats, req: BoxService.BoxPatch): (r: Option<BoxService.BoxPatch>)
    ensures r.Some? <==> UpdateBoxRules(fmt, req)
    ensures r.Some? ==> var v := r.value;
      && v.label_text == TrimOpt(req.label_text) && v.notes == TrimOpt(req.notes)
      && v.destination_room_id == req.destination_room_id && v.box_type == req.box_type
      && v.is_packed == req.is_packed && v.is_loaded == req.is_loaded && v.is_delivered == req.is_delivered
      && (v.label_text.Some? ==> 1 <= |v.label_text.value| <= BoxLabelWidth)
      && (v.box_type.Some? ==> v.box_type.value in BoxTypes)
  {
    if UpdateBoxRules(fmt, req) then
      Some(req.(label_text := TrimOpt(req.label_text), notes := TrimOpt(req.notes)))
    else None
  }

  /** The flags carry no ordering rule. */
  lemma FlagsUnordered(fmt: Formats)
    ensures ValidateUpdateBox(fmt, BoxService.BoxPatch(None, None, None, None, Some(false), Some(false), Some(true))).Some?
  {
  }

  predicate BoxQueryRules(fmt: Formats, f: BoxService.BoxFilters) {
    && OptIn(f.box_type, BoxTypes)
    && OptFormat(f.destination_room_id, fmt.isUuid)
    && OptTrimmedIn(f.search, 0, 255)
    && OptIn(f.sort_by, BoxSortColumns)
    && OptIn(f.sort_order, SortOrders)
  }

  /** The box-listing query rules. */
  function ValidateBoxQuery(fmt: Formats, f: BoxService.BoxFilters): (r: Option<BoxService.BoxFilters>)
    ensures r.Some? <==> BoxQueryRules(fmt, f)
    ensures r.Some? ==> var v := r.value;
      && v.search == TrimOpt(f.search)
      && v.box_type == f.box_type && v.destination_room_id == f.destination_room_id
      && v.is_packed == f.is_packed && v.is_loaded == f.is_loaded && v.is_delivered == f.is_delivered
      && v.sort_by == f.sort_by && v.sort_order == f.sort_order
      && (v.sort_by.Some? ==> v.sort_by.value in BoxSortColumns)
  {
    if BoxQueryRules(fmt, f) then Some(f.(search := TrimOpt(f.search))) else None
  }

  /** A validated box listing names a real column, so it fails only for a move that is not
      the user's. */
  lemma ValidatedBoxQueryLists(fmt: Formats, f: BoxService.BoxFilters, st: State, moveId: Id, userId: Id)
    requires ValidateBoxQuery(fmt, f).Some?
    ensures BoxService.GetBoxesByMove(st, moveId, userId, ValidateBoxQuery(fmt, f).value).Ok? <==> OwnsMove(st, moveId, userId)
  {
    var v := ValidateBoxQuery(fmt, f).value;
    assert BoxService.IsBoxColumn(BoxService.BoxSortColumn(v));
  }
}
