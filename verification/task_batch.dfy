/** The task operations that work through a list of ids: reordering a move's checklist and
    the bulk complete / cancel / delete. */
module TaskBatch {
  import opened Wrappers
  import opened Tables
  import opened Schema
  import opened Query
  import opened TaskService

  /** The ids are pairwise distinct. */
  predicate Distinct(ids: seq<Id>) {
    forall i, j :: 0 <= i < j < |ids| ==> ids[i] != ids[j]
  }

  /** The 0-based position of `id` in `ids`. */
  function PositionOf(ids: seq<Id>, id: Id): (r: Option<nat>)
    ensures r.None? <==> id !in ids
    ensures r.Some? ==> r.value < |ids| && ids[r.value] == id
    ensures r.Some? ==> forall k :: 0 <= k < r.value ==> ids[k] != id
  {
    if |ids| == 0 then None
    else if ids[0] == id then Some(0)
    else
      match PositionOf(ids[1..], id)
      case None => None
      case Some(k) => Some(k + 1)
  }

  /** With distinct ids, the position of an id is the index it sits at. */
  lemma PositionOfDistinct(ids: seq<Id>, k: nat)
    requires Distinct(ids) && k < |ids|
    ensures PositionOf(ids, ids[k]) == Some(k)
  {
  }

  /** `t'` is task `t` after the reorder statements for `ids` have run: a task of the move
      whose id is listed carries one of the positions its id occurs at, and the update time;
      every other task is untouched. The statements run concurrently, so for a repeated id
      any one of its positions may be the last written. */
  predicate ReorderedTo(t: Task, t': Task, moveId: Id, ids: seq<Id>, now: Time) {
    if t.move_id == moveId && t.id in ids then
      && 0 <= t'.order_index < |ids| && ids[t'.order_index] == t.id
      && t' == t.(order_index := t'.order_index, updated_at := now)
    else t' == t
  }

  /** The statement for position `i`: UPDATE tasks SET order_index = i WHERE id = ids[i] AND move_id = moveId. */
  function ReorderStep(t: Task, moveId: Id, id: Id, i: nat, now: Time): Task {
    if t.id == id && t.move_id == moveId then t.(order_index := i, updated_at := now) else t
  }

  /** Running the statement for position `i` after those for the earlier positions leaves a
      task as the first `i + 1` statements may leave it. */
  lemma ReorderStepExtends(t: Task, t1: Task, moveId: Id, ids: seq<Id>, i: nat, now: Time)
    requires i < |ids| && ReorderedTo(t, t1, moveId, ids[..i], now)
    ensures ReorderedTo(t, ReorderStep(t1, moveId, ids[i], i, now), moveId, ids[..i + 1], now)
  {
    var pre := ids[..i];
    var ext := ids[..i + 1];
    assert ext == pre + [ids[i]];
    if t.move_id == moveId && t.id == ids[i] {
      assert ext[i] == t.id;
    } else if t.move_id == moveId && t.id in pre {
      assert ext[t1.order_index] == pre[t1.order_index];
    }
  }

  /** With distinct ids the outcome is determined: a listed task takes the index its id sits at. */
  lemma ReorderedDistinct(t: Task, t': Task, moveId: Id, ids: seq<Id>, now: Time)
    requires Distinct(ids) && ReorderedTo(t, t', moveId, ids, now)
    requires t.move_id == moveId && t.id in ids
    ensures t' == t.(order_index := PositionOf(ids, t.id).value, updated_at := now)
  {
    PositionOfDistinct(ids, t'.order_index);
  }

  /** reorderTasks: run the per-position statements, then list the move's tasks. The model
      runs them in list order, which is one of the orders the concurrent statements can take. */
  method ReorderTasks(st: State, moveId: Id, taskIds: seq<Id>, now: Time) returns (st': State, listing: seq<Task>)
    requires Valid(st)
    ensures Valid(st')
    ensures |st'.tasks| == |st.tasks|
    ensures forall k :: 0 <= k < |st.tasks| ==> ReorderedTo(st.tasks[k], st'.tasks[k], moveId, taskIds, now)
    ensures st'.moves == st.moves && st'.rooms == st.rooms && st'.items == st.items && st'.boxes == st.boxes
    ensures forall t :: multiset(listing)[t] == if t.move_id == moveId then multiset(st'.tasks)[t] else 0
    ensures SortedBy(listing, ListOrder)
  {
    var tasks := st.tasks;
    for i := 0 to |taskIds|
      invariant |tasks| == |st.tasks|
      invariant forall k :: 0 <= k < |tasks| ==> ReorderedTo(st.tasks[k], tasks[k], moveId, taskIds[..i], now)
    {
      var id := taskIds[i];
      var before := tasks;
      tasks := MapRowsTo(tasks, (t: Task) => ReorderStep(t, moveId, id, i, now));
      forall k | 0 <= k < |tasks|
        ensures ReorderedTo(st.tasks[k], tasks[k], moveId, taskIds[..i + 1], now)
      {
        ReorderStepExtends(st.tasks[k], before[k], moveId, taskIds, i, now);
      }
    }
    assert taskIds[..|taskIds|] == taskIds;
    st' := st.(tasks := tasks);
    assert SameKeys(st.tasks, tasks, TaskKey);
    SameKeysAgree(st.tasks, tasks, TaskKey);
    forall t | t in tasks ensures HasId(st.moves, MoveKey, t.move_id) {
      var k :| 0 <= k < |tasks| && tasks[k] == t;
      assert st.tasks[k] in st.tasks;
    }
    listing := GetTasksByMoveId(st', moveId, NoFilter);
    assert forall t :: Selected(NoFilter, t);
  }

  /** After a reorder, the listing shows the submitted tasks in the submitted order: a task
      listed before another also comes before it in `taskIds`. */
  lemma ReorderListsInSubmittedOrder(st: State, st': State, moveId: Id, taskIds: seq<Id>, now: Time, listing: seq<Task>)
    requires Valid(st) && Distinct(taskIds)
    requires |st'.tasks| == |st.tasks|
    requires forall k :: 0 <= k < |st.tasks| ==> ReorderedTo(st.tasks[k], st'.tasks[k], moveId, taskIds, now)
    requires forall t :: multiset(listing)[t] == if t.move_id == moveId then multiset(st'.tasks)[t] else 0
    requires SortedBy(listing, ListOrder)
    ensures forall i, j :: 0 <= i < j < |listing| && listing[i].id in taskIds && listing[j].id in taskIds ==>
      PositionOf(taskIds, listing[i].id).value < PositionOf(taskIds, listing[j].id).value
    ensures forall t :: t in listing ==> t.move_id == moveId
    ensures forall t :: t in listing && t.id in taskIds ==> t.order_index == PositionOf(taskIds, t.id).value
  {
    assert UniqueIds(listing, TaskKey) by {
      assert SameKeys(st.tasks, st'.tasks, TaskKey);
      SameKeysAgree(st.tasks, st'.tasks, TaskKey);
      UniqueIdsSubMultiset(listing, st'.tasks, TaskKey);
    }
    assert forall t :: t in listing ==> t in st'.tasks && t.move_id == moveId by {
      forall t | t in listing
        ensures t in st'.tasks && t.move_id == moveId
      {
        assert t in multiset(listing);
      }
    }
    forall t | t in listing && t.id in taskIds
      ensures t.order_index == PositionOf(taskIds, t.id).value
    {
      ReorderedIndex(st, st', moveId, taskIds, now, t);
    }
    forall i, j | 0 <= i < j < |listing| && listing[i].id in taskIds && listing[j].id in taskIds
      ensures PositionOf(taskIds, listing[i].id).value < PositionOf(taskIds, listing[j].id).value
    {
      assert listing[i] in listing && listing[j] in listing;
      ListedBefore(listing, taskIds, i, j);
    }
  }

  /** Two listed tasks carrying their submitted positions come in the submitted order. */
  lemma ListedBefore(listing: seq<Task>, taskIds: seq<Id>, i: nat, j: nat)
    requires SortedBy(listing, ListOrder) && UniqueIds(listing, TaskKey)
    requires i < j < |listing| && listing[i].id in taskIds && listing[j].id in taskIds
    requires listing[i].order_index == PositionOf(taskIds, listing[i].id).value
    requires listing[j].order_index == PositionOf(taskIds, listing[j].id).value
    ensures PositionOf(taskIds, listing[i].id).value < PositionOf(taskIds, listing[j].id).value
  {
    KeyLeqHead(ListOrder(listing[i]), ListOrder(listing[j]));
    assert TaskKey(listing[i]) != TaskKey(listing[j]);
  }

  /** A listed task of the move in the reordered table carries its submitted position. */
  lemma ReorderedIndex(st: State, st': State, moveId: Id, taskIds: seq<Id>, now: Time, t: Task)
    requires Distinct(taskIds) && |st'.tasks| == |st.tasks|
    requires forall k :: 0 <= k < |st.tasks| ==> ReorderedTo(st.tasks[k], st'.tasks[k], moveId, taskIds, now)
    requires t in st'.tasks && t.move_id == moveId && t.id in taskIds
    ensures t.order_index == PositionOf(taskIds, t.id).value
  {
    var k :| 0 <= k < |st'.tasks| && st'.tasks[k] == t;
    assert ReorderedTo(st.tasks[k], t, moveId, taskIds, now);
    ReorderedDistinct(st.tasks[k], t, moveId, taskIds, now);
  }

  const OpDelete := "delete"
  const OpComplete := "complete"
  const OpCancel := "cancel"

  /** The listed ids that name an existing task, each once. */
  ghost function ExistingIds(st: State, ids: seq<Id>): set<Id> {
    set id | id in ids && HasId(st.tasks, TaskKey, id)
  }

  /** How many entries of `ids` name an existing task; a repeated id counts each time. */
  function Found(st: State, ids: seq<Id>): (n: nat)
    ensures n <= |ids|
  {
    if ids == [] then 0
    else Found(st, ids[..|ids| - 1]) + (if IndexOf(st.tasks, TaskKey, ids[|ids| - 1]).Some? then 1 else 0)
  }

  /** A task after its status has been set to `status` if its id is listed. */
  function Marked(t: Task, ids: seq<Id>, status: string, now: Time): Task {
    if t.id in ids then t.(status := status, updated_at := now) else t
  }

  /** One delete of the bulk loop, after the deletes for `done`: the task goes, and it counts
      as a success exactly when it existed at the start and was not listed before. */
  method DeleteOne(st: State, cur: State, done: seq<Id>, id: Id) returns (next: State, deleted: bool)
    requires Valid(cur)
    requires forall t :: t in cur.tasks <==> t in st.tasks && t.id !in done
    requires cur.moves == st.moves && cur.rooms == st.rooms && cur.items == st.items && cur.boxes == st.boxes
    ensures Valid(next)
    ensures deleted <==> HasId(st.tasks, TaskKey, id) && id !in done
    ensures forall t :: t in next.tasks <==> t in st.tasks && t.id !in done + [id]
    ensures |ExistingIds(st, done + [id])| == |ExistingIds(st, done)| + (if deleted then 1 else 0)
    ensures next.moves == st.moves && next.rooms == st.rooms && next.items == st.items && next.boxes == st.boxes
  {
    HasIdMember(cur.tasks, TaskKey, id);
    HasIdMember(st.tasks, TaskKey, id);
    next, deleted := DeleteTask(cur, id).0, DeleteTask(cur, id).1;
    if HasId(st.tasks, TaskKey, id) && id in done {
      assert ExistingIds(st, done + [id]) == ExistingIds(st, done);
    } else if HasId(st.tasks, TaskKey, id) {
      assert ExistingIds(st, done + [id]) == ExistingIds(st, done) + {id};
    } else {
      assert ExistingIds(st, done + [id]) == ExistingIds(st, done);
    }
  }

  /** The bulk delete: delete each listed task in turn; a delete that finds no row (an unknown
      id, or one listed twice) counts as a failure. */
  method BulkDelete(st: State, taskIds: seq<Id>) returns (st': State, success: nat, failed: nat)
    requires Valid(st)
    ensures Valid(st')
    ensures success + failed == |taskIds|
    ensures success == |ExistingIds(st, taskIds)|
    ensures forall t :: t in st'.tasks <==> t in st.tasks && t.id !in taskIds
    ensures st'.moves == st.moves && st'.rooms == st.rooms && st'.items == st.items && st'.boxes == st.boxes
  {
    st' := st;
    success := 0;
    failed := 0;
    for i := 0 to |taskIds|
      invariant Valid(st')
      invariant success + failed == i
      invariant success == |ExistingIds(st, taskIds[..i])|
      invariant forall t :: t in st'.tasks <==> t in st.tasks && t.id !in taskIds[..i]
      invariant st'.moves == st.moves && st'.rooms == st.rooms && st'.items == st.items && st'.boxes == st.boxes
    {
      var id := taskIds[i];
      assert taskIds[..i + 1] == taskIds[..i] + [id];
      var next, deleted := DeleteOne(st, st', taskIds[..i], id);
      if deleted {
        success := success + 1;
      } else {
        failed := failed + 1;
      }
      st' := next;
    }
    assert taskIds[..|taskIds|] == taskIds;
  }

  /** One status update of the bulk loop, after the updates for `done`. */
  method SetStatusOne(st: State, cur: State, done: seq<Id>, id: Id, status: string, now: Time) returns (next: State, updated: bool)
    requires Valid(cur)
    requires |cur.tasks| == |st.tasks|
    requires forall k :: 0 <= k < |st.tasks| ==> cur.tasks[k] == Marked(st.tasks[k], done, status, now)
    requires cur.moves == st.moves && cur.rooms == st.rooms && cur.items == st.items && cur.boxes == st.boxes
    ensures Valid(next)
    ensures updated <==> HasId(st.tasks, TaskKey, id)
    ensures Found(st, done + [id]) == Found(st, done) + (if updated then 1 else 0)
    ensures |next.tasks| == |st.tasks|
    ensures forall k :: 0 <= k < |st.tasks| ==> next.tasks[k] == Marked(st.tasks[k], done + [id], status, now)
    ensures next.moves == st.moves && next.rooms == st.rooms && next.items == st.items && next.boxes == st.boxes
  {
    assert SameKeys(st.tasks, cur.tasks, TaskKey);
    SameKeysAgree(st.tasks, cur.tasks, TaskKey);
    assert (done + [id])[..|done|] == done;
    var r := UpdateTask(cur, id, TaskPatch(None, None, None, Some(status), None, None, None), now);
    next, updated := r.0, r.1.Some?;
  }

  /** The bulk complete / cancel: set each listed task's status in turn; an id with no task
      counts as a failure. */
  method BulkSetStatus(st: State, taskIds: seq<Id>, status: string, now: Time) returns (st': State, success: nat, failed: nat)
    requires Valid(st)
    ensures Valid(st')
    ensures success + failed == |taskIds|
    ensures success == Found(st, taskIds)
    ensures |st'.tasks| == |st.tasks|
    ensures forall k :: 0 <= k < |st.tasks| ==> st'.tasks[k] == Marked(st.tasks[k], taskIds, status, now)
    ensures st'.moves == st.moves && st'.rooms == st.rooms && st'.items == st.items && st'.boxes == st.boxes
  {
    st' := st;
    success := 0;
    failed := 0;
    for i := 0 to |taskIds|
      invariant Valid(st')
      invariant success + failed == i
      invariant success == Found(st, taskIds[..i])
      invariant |st'.tasks| == |st.tasks|
      invariant forall k :: 0 <= k < |st.tasks| ==> st'.tasks[k] == Marked(st.tasks[k], taskIds[..i], status, now)
      invariant st'.moves == st.moves && st'.rooms == st.rooms && st'.items == st.items && st'.boxes == st.boxes
    {
      var id := taskIds[i];
      assert taskIds[..i + 1] == taskIds[..i] + [id];
      var next, updated := SetStatusOne(st, st', taskIds[..i], id, status, now);
      if updated {
        success := success + 1;
      } else {
        failed := failed + 1;
      }
      st' := next;
    }
    assert taskIds[..|taskIds|] == taskIds;
  }

  /** bulkTaskOperation: the operation named by `op` over every listed id. Each id counts as a
      success or a failure; an operation name outside the three does nothing and counts
      neither. */
  method BulkTaskOperation(st: State, taskIds: seq<Id>, op: string, now: Time) returns (st': State, success: nat, failed: nat)
    requires Valid(st)
    ensures Valid(st')
    ensures op in {OpDelete, OpComplete, OpCancel} ==> success + failed == |taskIds|
    ensures op !in {OpDelete, OpComplete, OpCancel} ==> st' == st && success == 0 && failed == 0
    ensures op == OpDelete ==> success == |ExistingIds(st, taskIds)|
    ensures op == OpDelete ==> forall t :: t in st'.tasks <==> t in st.tasks && t.id !in taskIds
    ensures op == OpComplete || op == OpCancel ==> success == Found(st, taskIds)
    ensures op == OpComplete ==> forall k :: 0 <= k < |st.tasks| ==>
      |st'.tasks| == |st.tasks| && st'.tasks[k] == Marked(st.tasks[k], taskIds, StatusCompleted, now)
    ensures op == OpCancel ==> forall k :: 0 <= k < |st.tasks| ==>
      |st'.tasks| == |st.tasks| && st'.tasks[k] == Marked(st.tasks[k], taskIds, StatusCancelled, now)
    ensures st'.moves == st.moves && st'.rooms == st.rooms && st'.items == st.items && st'.boxes == st.boxes
  {
    if op == OpDelete {
      st', success, failed := BulkDelete(st, taskIds);
    } else if op == OpComplete {
      st', success, failed := BulkSetStatus(st, taskIds, StatusCompleted, now);
    } else if op == OpCancel {
      st', success, failed := BulkSetStatus(st, taskIds, StatusCancelled, now);
    } else {
      st', success, failed := st, 0, 0;
    }
  }
}
