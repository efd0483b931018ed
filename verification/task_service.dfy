/** The task service: a move's checklist. Tasks are addressed by id alone — update, delete
    and bulk operations do not check which move or user a task belongs to. */
module TaskService {
  import opened Wrappers
  import opened Tables
  import opened Schema
  import opened Query
  import opened Text
  import opened Cascade

  /** A create request; `None` is a field the request leaves out. */
  datatype NewTask = NewTask(
    name: string,
    description: Option<string>,
    dueDate: Option<string>,
    category: string,
    priority: Option<int>)

  /** An update request; `None` is a field the request leaves out. */
  datatype TaskPatch = TaskPatch(
    name: Option<string>,
    description: Option<string>,
    dueDate: Option<string>,
    status: Option<string>,
    category: Option<string>,
    priority: Option<int>,
    orderIndex: Option<int>)

  /** The optional filters of a listing; an absent or empty filter does not apply. */
  datatype TaskFilter = TaskFilter(status: Option<string>, category: Option<string>, search: Option<string>)

  const NoFilter := TaskFilter(None, None, None)

  const StatusInProgress := "in_progress"
  const StatusCompleted := "completed"
  const StatusCancelled := "cancelled"

  /** The tasks of one move. */
  function TasksOf(tasks: seq<Task>, moveId: Id): (r: seq<Task>)
    ensures forall t :: multiset(r)[t] == if t.move_id == moveId then multiset(tasks)[t] else 0
    ensures forall t :: t in r <==> t in tasks && t.move_id == moveId
  {
    Filter(tasks, (t: Task) => t.move_id == moveId)
  }

  /** MAX(order_index), NULL on no rows. */
  function MaxOrderIndex(tasks: seq<Task>): (r: Option<int>)
    ensures r.None? <==> |tasks| == 0
    ensures r.Some? ==> forall t :: t in tasks ==> t.order_index <= r.value
    ensures r.Some? ==> exists t :: t in tasks && t.order_index == r.value
  {
    if |tasks| == 0 then None
    else
      var rest := MaxOrderIndex(tasks[1..]);
      assert tasks == [tasks[0]] + tasks[1..];
      if rest.None? || rest.value < tasks[0].order_index then Some(tasks[0].order_index) else rest
  }

  /** getNextOrderIndex: one past the move's largest order index, or 1 for a move without tasks
      (a largest index of 0 also gives 1, as `max || 0` does). */
  function NextOrderIndex(tasks: seq<Task>, moveId: Id): (n: int)
    ensures forall t :: t in tasks && t.move_id == moveId ==> t.order_index < n
    ensures (exists t :: t in tasks && t.move_id == moveId) ==>
      exists t :: t in tasks && t.move_id == moveId && t.order_index == n - 1
    ensures (forall t :: t in tasks ==> t.move_id != moveId) ==> n == 1
    ensures (forall t :: t in tasks && t.move_id == moveId ==> t.order_index >= 0) ==> n >= 1
  {
    var mine := TasksOf(tasks, moveId);
    assert (exists t :: t in tasks && t.move_id == moveId) ==> |mine| > 0 by {
      if exists t :: t in tasks && t.move_id == moveId {
        var t :| t in tasks && t.move_id == moveId;
        assert t in mine;
      }
    }
    MaxOrderIndex(mine).GetOr(0) + 1
  }

  /** Inserting a task of an existing move under a fresh key keeps the schema valid. */
  lemma AppendTaskValid(st: State, t: Task)
    requires Valid(st) && HasId(st.moves, MoveKey, t.move_id) && !HasId(st.tasks, TaskKey, t.id)
    ensures Valid(st.(tasks := st.tasks + [t]))
  {
    AppendRow(st.tasks, t, TaskKey);
    assert forall u :: u in st.tasks + [t] ==> u in st.tasks || u == t;
  }

  /** createTask: append a pending task to the move's checklist. The only failure is the
      store's foreign-key check on `move_id`; no ownership is checked. */
  function CreateTask(st: State, moveId: Id, data: NewTask, freshId: Id, now: Time): (r: Result<(State, Task)>)
    requires Valid(st) && !HasId(st.tasks, TaskKey, freshId)
    ensures r.Err? <==> !HasId(st.moves, MoveKey, moveId)
    ensures r.Err? ==> r.error == ForeignKeyViolation
    ensures r.Ok? ==> var (st', t) := r.value;
      && Valid(st')
      && t.id == freshId && t.move_id == moveId && t.status == DefaultTaskStatus
      && t.name == data.name && t.description == data.description && t.due_date == data.dueDate
      && t.category == data.category
      && t.priority == (if data.priority.Some? then data.priority.value else DefaultPriority)
      && t.created_at == now && t.updated_at == now
      && t.order_index == NextOrderIndex(st.tasks, moveId)
      && (forall u :: u in st.tasks && u.move_id == moveId ==> u.order_index < t.order_index)
      && (forall u :: u in st'.tasks <==> u in st.tasks || u == t)
      && st'.tasks == st.tasks + [t]
      && st'.moves == st.moves && st'.rooms == st.rooms && st'.items == st.items && st'.boxes == st.boxes
  {
    if IndexOf(st.moves, MoveKey, moveId).None? then Err(ForeignKeyViolation)
    else
      var t := Task(freshId, moveId, data.name, data.description, data.dueDate, DefaultTaskStatus, data.category,
                    data.priority.GetOr(DefaultPriority), NextOrderIndex(st.tasks, moveId), now, now);
      assert Valid(st.(tasks := st.tasks + [t])) by {
        AppendTaskValid(st, t);
      }
      assert forall u :: u in st.tasks + [t] <==> u in st.tasks || u == t;
      Ok((st.(tasks := st.tasks + [t]), t))
  }

  /** Two creates in a row on the same move give strictly increasing order indices. */
  lemma CreateTwiceIncreases(st: State, moveId: Id, a: NewTask, b: NewTask, id1: Id, id2: Id, now1: Time, now2: Time)
    requires Valid(st) && HasId(st.moves, MoveKey, moveId)
    requires id1 != id2 && !HasId(st.tasks, TaskKey, id1) && !HasId(st.tasks, TaskKey, id2)
    ensures var r1 := CreateTask(st, moveId, a, id1, now1);
      && r1.Ok?
      && !HasId(r1.value.0.tasks, TaskKey, id2)
      && var r2 := CreateTask(r1.value.0, moveId, b, id2, now2);
      && r2.Ok?
      && r1.value.1.order_index < r2.value.1.order_index
  {
    var (st1, t1) := CreateTask(st, moveId, a, id1, now1).value;
    AppendRow(st.tasks, t1, TaskKey);
    assert t1 in st1.tasks;
  }

  /** The ORDER BY of a listing: order_index ascending, then priority descending, then
      creation time ascending. */
  function ListOrder(t: Task): Key {
    [Asc(Num(t.order_index)), Desc(Num(t.priority)), Asc(Num(t.created_at))]
  }

  /** `ilike '%s%'` on the name or the description; a NULL description never matches. */
  predicate SearchHits(t: Task, s: string) {
    ContainsIgnoringCase(t.name, s) || (t.description.Some? && ContainsIgnoringCase(t.description.value, s))
  }

  /** Every filter that applies holds for `t`, stated over the substring relation. */
  ghost predicate Selected(f: TaskFilter, t: Task) {
    && (Given(f.status) ==> t.status == f.status.value)
    && (Given(f.category) ==> t.category == f.category.value)
    && (Given(f.search) ==>
          || Occurs(LowerStr(f.search.value), LowerStr(t.name))
          || (t.description.Some? && Occurs(LowerStr(f.search.value), LowerStr(t.description.value))))
  }

  /** The WHERE clause a listing runs. */
  predicate Matches(f: TaskFilter, t: Task) {
    && (Given(f.status) ==> t.status == f.status.value)
    && (Given(f.category) ==> t.category == f.category.value)
    && (Given(f.search) ==> SearchHits(t, f.search.value))
  }

  /** getTasksByMoveId: the move's tasks that pass every filter given, in list order. */
  function GetTasksByMoveId(st: State, moveId: Id, f: TaskFilter): (r: seq<Task>)
    ensures forall t :: multiset(r)[t] == if t.move_id == moveId && Selected(f, t) then multiset(st.tasks)[t] else 0
    ensures SortedBy(r, ListOrder)
  {
    assert forall t :: Matches(f, t) <==> Selected(f, t);
    SortBy(Filter(st.tasks, (t: Task) => t.move_id == moveId && Matches(f, t)), ListOrder)
  }

  /** Without filters a listing is a permutation of the move's tasks. */
  lemma ListAllIsPermutation(st: State, moveId: Id)
    ensures multiset(GetTasksByMoveId(st, moveId, NoFilter)) == multiset(TasksOf(st.tasks, moveId))
  {
    var r := GetTasksByMoveId(st, moveId, NoFilter);
    assert forall t :: Selected(NoFilter, t);
    assert forall t :: multiset(r)[t] == multiset(TasksOf(st.tasks, moveId))[t];
  }

  /** The unfiltered listing has as many tasks, and as many satisfying any condition, as the move. */
  lemma ListingCounts(st: State, moveId: Id, p: Task -> bool)
    ensures |GetTasksByMoveId(st, moveId, NoFilter)| == |TasksOf(st.tasks, moveId)|
    ensures Count(GetTasksByMoveId(st, moveId, NoFilter), p) == Count(TasksOf(st.tasks, moveId), p)
  {
    var tasks := GetTasksByMoveId(st, moveId, NoFilter);
    var mine := TasksOf(st.tasks, moveId);
    ListAllIsPermutation(st, moveId);
    assert |multiset(tasks)| == |tasks| && |multiset(mine)| == |mine|;
    CountPermutation(tasks, mine, p);
  }

  /** getTaskById: the task with that id, whichever move it is in. */
  function GetTaskById(st: State, taskId: Id): (r: Option<Task>)
    ensures r.Some? <==> HasId(st.tasks, TaskKey, taskId)
    ensures r.Some? ==> r.value in st.tasks && r.value.id == taskId
  {
    Lookup(st.tasks, TaskKey, taskId)
  }

  /** The columns an update writes: the supplied fields and the update time. */
  function PatchTask(t: Task, p: TaskPatch, now: Time): Task {
    t.(name := p.name.GetOr(t.name),
       description := if p.description.Some? then p.description else t.description,
       due_date := if p.dueDate.Some? then p.dueDate else t.due_date,
       status := p.status.GetOr(t.status),
       category := p.category.GetOr(t.category),
       priority := p.priority.GetOr(t.priority),
       order_index := p.orderIndex.GetOr(t.order_index),
       updated_at := now)
  }

  /** Rewriting tasks without touching their keys or moves keeps the schema valid. */
  lemma TaskUpdateValid(st: State, taskId: Id, f: Task -> Task)
    requires Valid(st)
    requires forall t :: f(t).id == t.id && f(t).move_id == t.move_id
    ensures Valid(st.(tasks := UpdateWhere(st.tasks, TaskKey, taskId, f)))
  {
    var tasks := UpdateWhere(st.tasks, TaskKey, taskId, f);
    forall u | u in tasks ensures HasId(st.moves, MoveKey, u.move_id) {
      if !(u in st.tasks) {
        var t :| t in st.tasks && t.id == taskId && u == f(t);
      }
    }
  }

  /** updateTask: set the supplied fields and `updated_at` on the task with that id; `None`
      when there is none. */
  function UpdateTask(st: State, taskId: Id, patch: TaskPatch, now: Time): (r: (State, Option<Task>))
    requires Valid(st)
    ensures Valid(r.0)
    ensures r.1.Some? <==> HasId(st.tasks, TaskKey, taskId)
    ensures r.1.None? ==> r.0 == st
    ensures r.1.Some? ==> var t := r.1.value;
      && t in r.0.tasks && t.id == taskId && t.updated_at == now
      && (patch.status.Some? ==> t.status == patch.status.value)
      && (patch.orderIndex.Some? ==> t.order_index == patch.orderIndex.value)
      && (patch.priority.Some? ==> t.priority == patch.priority.value)
      && exists t0 :: t0 in st.tasks && t0.id == taskId && t == PatchTask(t0, patch, now)
    ensures forall u :: u in st.tasks && u.id != taskId ==> u in r.0.tasks
    ensures |r.0.tasks| == |st.tasks|
    ensures forall k :: 0 <= k < |st.tasks| ==>
      r.0.tasks[k] == if st.tasks[k].id == taskId then PatchTask(st.tasks[k], patch, now) else st.tasks[k]
    ensures r.0.moves == st.moves && r.0.rooms == st.rooms && r.0.items == st.items && r.0.boxes == st.boxes
  {
    match GetTaskById(st, taskId)
    case None =>
      assert forall k :: 0 <= k < |st.tasks| ==> st.tasks[k].id != taskId;
      (st, None)
    case Some(t0) =>
      var f := (t: Task) => PatchTask(t, patch, now);
      TaskUpdateValid(st, taskId, f);
      (st.(tasks := UpdateWhere(st.tasks, TaskKey, taskId, f)), Some(PatchTask(t0, patch, now)))
  }

  /** deleteTask: `true` iff a task with that id existed; it is gone afterwards. */
  function DeleteTask(st: State, taskId: Id): (r: (State, bool))
    requires Valid(st)
    ensures Valid(r.0)
    ensures r.1 <==> HasId(st.tasks, TaskKey, taskId)
    ensures !HasId(r.0.tasks, TaskKey, taskId)
    ensures forall u :: u in r.0.tasks <==> u in st.tasks && u.id != taskId
    ensures r.1 ==> |r.0.tasks| == |st.tasks| - 1
    ensures !r.1 ==> r.0 == st
    ensures r.0.moves == st.moves && r.0.rooms == st.rooms && r.0.items == st.items && r.0.boxes == st.boxes
  {
    RemoveTaskValid(st, taskId);
    WithoutHasId(st.tasks, TaskKey, taskId, taskId);
    (RemoveTask(st, taskId), IndexOf(st.tasks, TaskKey, taskId).Some?)
  }

  /** `rate` is 0 for an empty whole, otherwise the whole number nearest to
      100 * part / whole, halves rounded up. */
  predicate NearestPercent(part: nat, whole: nat, rate: nat) {
    && (whole == 0 ==> rate == 0)
    && (whole > 0 ==> 2 * whole * rate <= 200 * part + whole < 2 * whole * (rate + 1))
  }

  /** 0 for no tasks, otherwise Math.round(completed / total * 100) in integers (round half up). */
  function CompletionRate(completed: nat, total: nat): (rate: nat)
    ensures NearestPercent(completed, total, rate)
    ensures completed <= total ==> rate <= 100
    ensures total > 0 && completed == 0 ==> rate == 0
    ensures total > 0 && completed == total ==> rate == 100
  {
    if total == 0 then 0
    else
      var n := 200 * completed + total;
      var d := 2 * total;
      DivBounds(n, d);
      var q := n / d;
      assert completed <= total ==> q <= 100 by {
        if completed <= total && q > 100 {
          MulMonotonic(101, q, d);
        }
      }
      assert completed == 0 ==> q == 0 by {
        if completed == 0 && q > 0 {
          MulMonotonic(1, q, d);
        }
      }
      assert completed == total ==> q == 100 by {
        if completed == total {
          DivUnique(n, d, 100);
        }
      }
      q
  }

  /** Multiplying by a positive number keeps order. */
  lemma MulMonotonic(a: int, b: int, d: int)
    requires a <= b && d > 0
    ensures a * d <= b * d
  {
  }

  lemma DivBounds(n: int, d: int)
    requires n >= 0 && d > 0
    ensures n / d >= 0
    ensures d * (n / d) <= n < d * (n / d + 1)
  {
    assert n == d * (n / d) + n % d;
  }

  lemma DivUnique(n: int, d: int, q: int)
    requires n >= 0 && d > 0 && d * q <= n < d * (q + 1)
    ensures n / d == q
  {
    DivBounds(n, d);
    if n / d < q {
      MulMonotonic(n / d + 1, q, d);
    } else if n / d > q {
      MulMonotonic(q + 1, n / d, d);
    }
  }

  datatype TaskStats = TaskStats(total: nat, pending: nat, inProgress: nat, completed: nat, cancelled: nat, completionRate: nat)

  function HasStatus(s: string): Task -> bool {
    (t: Task) => t.status == s
  }

  /** The figures over one list of tasks. */
  function StatsOf(tasks: seq<Task>): (r: TaskStats)
    ensures r.total == |tasks|
    ensures r.pending == Count(tasks, HasStatus(DefaultTaskStatus))
    ensures r.inProgress == Count(tasks, HasStatus(StatusInProgress))
    ensures r.completed == Count(tasks, HasStatus(StatusCompleted))
    ensures r.cancelled == Count(tasks, HasStatus(StatusCancelled))
    ensures NearestPercent(r.completed, r.total, r.completionRate)
    ensures r.completionRate <= 100
  {
    var total := |tasks|;
    var completed := Count(tasks, HasStatus(StatusCompleted));
    TaskStats(
      total,
      Count(tasks, HasStatus(DefaultTaskStatus)),
      Count(tasks, HasStatus(StatusInProgress)),
      completed,
      Count(tasks, HasStatus(StatusCancelled)),
      CompletionRate(completed, total))
  }

  /** getTaskStats: status counts over the move's tasks and the rounded completion percentage. */
  function GetTaskStats(st: State, moveId: Id): (r: TaskStats)
    ensures r.total == |TasksOf(st.tasks, moveId)|
    ensures r.pending == Count(TasksOf(st.tasks, moveId), HasStatus(DefaultTaskStatus))
    ensures r.inProgress == Count(TasksOf(st.tasks, moveId), HasStatus(StatusInProgress))
    ensures r.completed == Count(TasksOf(st.tasks, moveId), HasStatus(StatusCompleted))
    ensures r.cancelled == Count(TasksOf(st.tasks, moveId), HasStatus(StatusCancelled))
    ensures r.pending <= r.total && r.inProgress <= r.total && r.completed <= r.total && r.cancelled <= r.total
    ensures NearestPercent(r.completed, r.total, r.completionRate)
    ensures r.completionRate <= 100
  {
    ListingCounts(st, moveId, HasStatus(DefaultTaskStatus));
    ListingCounts(st, moveId, HasStatus(StatusInProgress));
    ListingCounts(st, moveId, HasStatus(StatusCompleted));
    ListingCounts(st, moveId, HasStatus(StatusCancelled));
    StatsOf(GetTasksByMoveId(st, moveId, NoFilter))
  }

  /** A task in one of the four statuses the routes accept. */
  function KnownStatus(): Task -> bool {
    (t: Task) => t.status in {DefaultTaskStatus, StatusInProgress, StatusCompleted, StatusCancelled}
  }

  /** The four status counts never exceed the total together, and add up to it exactly when
      every task of the move carries one of the four statuses. */
  lemma {:induction false} StatusCountsPartition(st: State, moveId: Id)
    ensures var r := GetTaskStats(st, moveId);
      r.pending + r.inProgress + r.completed + r.cancelled <= r.total
    ensures (forall t :: t in st.tasks && t.move_id == moveId ==> KnownStatus()(t)) ==>
      var r := GetTaskStats(st, moveId);
      r.pending + r.inProgress + r.completed + r.cancelled == r.total
  {
    var mine := TasksOf(st.tasks, moveId);
    var early := (t: Task) => t.status == DefaultTaskStatus || t.status == StatusInProgress;
    var late := (t: Task) => t.status == StatusCompleted || t.status == StatusCancelled;
    CountDisjointUnion(mine, HasStatus(DefaultTaskStatus), HasStatus(StatusInProgress), early);
    CountDisjointUnion(mine, HasStatus(StatusCompleted), HasStatus(StatusCancelled), late);
    CountDisjointUnion(mine, early, late, KnownStatus());
    CountMonotonic(mine, KnownStatus(), (t: Task) => true);
    CountAll(mine, (t: Task) => true);
    if forall t :: t in st.tasks && t.move_id == moveId ==> KnownStatus()(t) {
      CountAll(mine, KnownStatus());
    }
  }
}
