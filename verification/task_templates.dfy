/** The fixed catalogue of checklist templates and `applyTaskTemplates`, which turns the
    templates a request names into ordinary tasks of a move. */
module TaskTemplates {
  import opened Wrappers
  import opened Seqs
  import opened Tables
  import opened Schema
  import opened TaskService
  import opened TaskBatch

  datatype Template = Template(
    id: string,
    name: string,
    description: string,
    category: string,
    priority: int,
    orderIndex: int,
    isDefault: bool)

  /** The ten default templates, in the order the service lists them. */
  const Catalogue: seq<Template> := [
    Template("1", "Change Address", "Update your address with all relevant services and organizations", "Administrative", 5, 1, true),
    Template("2", "Book Moving Company", "Research and book a reliable moving company", "Logistics", 5, 2, true),
    Template("3", "Pack Kitchen", "Pack all kitchen items and appliances", "Packing", 3, 3, true),
    Template("4", "Pack Living Room", "Pack living room furniture and decorations", "Packing", 3, 4, true),
    Template("5", "Pack Bedroom", "Pack bedroom furniture and personal items", "Packing", 3, 5, true),
    Template("6", "Transfer Utilities", "Set up utilities at new location and cancel old ones", "Administrative", 4, 6, true),
    Template("7", "Update Insurance", "Update home and auto insurance policies", "Administrative", 4, 7, true),
    Template("8", "Clean Old Home", "Deep clean the old home before moving out", "Cleaning", 2, 8, true),
    Template("9", "Unpack Essentials", "Unpack essential items first in the new home", "Unpacking", 4, 9, true),
    Template("10", "Set Up New Home", "Arrange furniture and set up the new home", "Unpacking", 3, 10, true)
  ]

  /** Templates listed in strictly increasing `orderIndex`. */
  predicate InCatalogueOrder(ts: seq<Template>) {
    forall j, k :: 0 <= j < k < |ts| ==> ts[j].orderIndex < ts[k].orderIndex
  }

  predicate DistinctTemplateIds(ts: seq<Template>) {
    forall j, k :: 0 <= j < k < |ts| ==> ts[j].id != ts[k].id
  }

  /** A template's fields as the create route would accept them: a name of 1 to 255
      characters, a category of 1 to 50, a priority from 0 to 10. */
  predicate Acceptable(t: Template) {
    && 1 <= |t.name| <= TaskNameWidth
    && 1 <= |t.category| <= 50
    && 0 <= t.priority <= 10
  }

  /** getTaskTemplates: the catalogue, numbered 1 to 10 in order, every template a default one
      with distinct ids and fields the create route accepts. */
  function GetTaskTemplates(): (r: seq<Template>)
    ensures |r| == 10
    ensures forall k :: 0 <= k < |r| ==> r[k].orderIndex == k + 1 && r[k].isDefault && Acceptable(r[k])
    ensures InCatalogueOrder(r) && DistinctTemplateIds(r)
  {
    CatalogueNumbered();
    CatalogueAcceptable();
    CatalogueIdsDistinct();
    Catalogue
  }

  lemma CatalogueNumbered()
    ensures |Catalogue| == 10
    ensures forall k :: 0 <= k < |Catalogue| ==> Catalogue[k].orderIndex == k + 1
  {
  }

  lemma CatalogueAcceptable()
    ensures forall k :: 0 <= k < |Catalogue| ==> Catalogue[k].isDefault && Acceptable(Catalogue[k])
  {
  }

  lemma CatalogueIdsDistinct()
    ensures DistinctTemplateIds(Catalogue)
  {
  }

  /** The catalogue's ids are the numbers 1 to 10 written out, so none is longer than two characters. */
  lemma CatalogueIdsShort()
    ensures forall k :: 0 <= k < |GetTaskTemplates()| ==> |GetTaskTemplates()[k].id| <= 2
  {
  }

  /** The templates of `ts` whose id is requested, in the order of `ts`: the
      `templates.filter(t => templateIds.includes(t.id))` of the service. */
  function Select(ts: seq<Template>, ids: seq<string>): (r: seq<Template>)
    ensures |r| <= |ts|
    ensures forall t :: t in r <==> t in ts && t.id in ids
  {
    if ts == [] then []
    else if ts[0].id in ids then [ts[0]] + Select(ts[1..], ids)
    else Select(ts[1..], ids)
  }

  /** Every selected template sits further down `ts` than the head of `ts`. */
  lemma SelectFromTail(ts: seq<Template>, ids: seq<string>, k: nat)
    requires ts != [] && k < |Select(ts[1..], ids)|
    ensures exists m :: 1 <= m < |ts| && Select(ts[1..], ids)[k] == ts[m]
  {
    var t := Select(ts[1..], ids)[k];
    assert t in ts[1..];
    var m :| 0 <= m < |ts[1..]| && ts[1..][m] == t;
    assert ts[m + 1] == t;
  }

  /** The selection keeps the order of `ts`. */
  lemma {:induction false} SelectKeepsOrder(ts: seq<Template>, ids: seq<string>)
    requires InCatalogueOrder(ts)
    ensures InCatalogueOrder(Select(ts, ids))
  {
    if ts != [] {
      assert InCatalogueOrder(ts[1..]);
      SelectKeepsOrder(ts[1..], ids);
      var rest := Select(ts[1..], ids);
      forall k | 0 <= k < |rest|
        ensures ts[0].orderIndex < rest[k].orderIndex
      {
        SelectFromTail(ts, ids, k);
      }
    }
  }

  /** The selection of templates with distinct ids has distinct ids. */
  lemma {:induction false} SelectKeepsDistinct(ts: seq<Template>, ids: seq<string>)
    requires DistinctTemplateIds(ts)
    ensures DistinctTemplateIds(Select(ts, ids))
  {
    if ts != [] {
      assert DistinctTemplateIds(ts[1..]);
      SelectKeepsDistinct(ts[1..], ids);
      var rest := Select(ts[1..], ids);
      forall k | 0 <= k < |rest|
        ensures ts[0].id != rest[k].id
      {
        SelectFromTail(ts, ids, k);
      }
    }
  }

  /** Only which ids are requested matters: repeating an id, or reordering the request,
      selects the same templates. */
  lemma {:induction false} SelectSameRequest(ts: seq<Template>, a: seq<string>, b: seq<string>)
    requires forall x :: x in a <==> x in b
    ensures Select(ts, a) == Select(ts, b)
  {
    if ts != [] {
      SelectSameRequest(ts[1..], a, b);
    }
  }

  /** Each requested catalogue template is selected exactly once, however often its id is
      listed; an id naming no template selects nothing. */
  lemma SelectOncePerTemplate(ids: seq<string>)
    ensures var sel := Select(Catalogue, ids);
      && (forall t :: t in sel <==> t in Catalogue && t.id in ids)
      && DistinctTemplateIds(sel)
      && InCatalogueOrder(sel)
      && (forall x :: x in ids && (forall t :: t in Catalogue ==> t.id != x) ==> forall t :: t in sel ==> t.id != x)
  {
    var cat := GetTaskTemplates();
    SelectKeepsOrder(cat, ids);
    SelectKeepsDistinct(cat, ids);
  }

  /** The create request a template turns into: no due date, priority always given. */
  function Request(t: Template): NewTask {
    NewTask(t.name, Some(t.description), None, t.category, Some(t.priority))
  }

  /** The task `createTask` makes from template `t`. */
  predicate MadeFrom(task: Task, t: Template, id: Id, moveId: Id, now: Time) {
    && task.id == id && task.move_id == moveId && task.status == DefaultTaskStatus
    && task.name == t.name && task.description == Some(t.description) && task.due_date == None
    && task.category == t.category && task.priority == t.priority
    && task.created_at == now && task.updated_at == now
  }

  /** No id of `ids` names a task of `tasks`. */
  ghost predicate AllFresh(tasks: seq<Task>, ids: seq<Id>) {
    forall k :: 0 <= k < |ids| ==> !HasId(tasks, TaskKey, ids[k])
  }

  /** The created tasks so far: made from the selection in order, with increasing indices
      above every earlier task of the move. */
  predicate MadeInOrder(created: seq<Task>, sel: seq<Template>, freshIds: seq<Id>, moveId: Id, now: Time, before: seq<Task>)
    requires |created| <= |sel| && |created| <= |freshIds|
  {
    && (forall j :: 0 <= j < |created| ==> MadeFrom(created[j], sel[j], freshIds[j], moveId, now))
    && (forall j, k :: 0 <= j < k < |created| ==> created[j].order_index < created[k].order_index)
    && (forall u, j :: u in before && u.move_id == moveId && 0 <= j < |created| ==> u.order_index < created[j].order_index)
  }

  /** The next fresh id is not taken by the tasks already present or created. */
  lemma NextIdFresh(before: seq<Task>, created: seq<Task>, freshIds: seq<Id>)
    requires |created| < |freshIds| && Distinct(freshIds) && AllFresh(before, freshIds)
    requires forall j :: 0 <= j < |created| ==> created[j].id == freshIds[j]
    ensures !HasId(before + created, TaskKey, freshIds[|created|])
  {
    var id := freshIds[|created|];
    HasIdMember(before + created, TaskKey, id);
    HasIdMember(before, TaskKey, id);
    forall u | u in created
      ensures u.id != id
    {
      var j :| 0 <= j < |created| && created[j] == u;
    }
  }

  /** Appending a task made from the next template, above every earlier task of the move,
      keeps the created tasks in order. */
  lemma MadeInOrderSnoc(created: seq<Task>, t: Task, sel: seq<Template>, freshIds: seq<Id>, moveId: Id, now: Time, before: seq<Task>)
    requires |created| < |sel| && |created| < |freshIds|
    requires MadeInOrder(created, sel, freshIds, moveId, now, before)
    requires MadeFrom(t, sel[|created|], freshIds[|created|], moveId, now)
    requires forall u :: u in before + created && u.move_id == moveId ==> u.order_index < t.order_index
    ensures MadeInOrder(created + [t], sel, freshIds, moveId, now, before)
  {
    var c := created + [t];
    forall j | 0 <= j < |created|
      ensures created[j].order_index < t.order_index
    {
      assert created[j] in before + created;
    }
    assert forall j :: 0 <= j < |created| ==> c[j] == created[j];
  }

  /** One template of the loop: create its task on top of `cur`. */
  method CreateOne(st: State, cur: State, created: seq<Task>, sel: seq<Template>, freshIds: seq<Id>, moveId: Id, now: Time)
    returns (r: Result<(State, Task)>)
    requires Valid(cur) && cur.moves == st.moves && cur.tasks == st.tasks + created
    requires |created| < |sel| && |sel| <= |freshIds| && Distinct(freshIds) && AllFresh(st.tasks, freshIds)
    requires forall j :: 0 <= j < |created| ==> created[j].id == freshIds[j]
    requires MadeInOrder(created, sel, freshIds, moveId, now, st.tasks)
    ensures r.Err? <==> !HasId(st.moves, MoveKey, moveId)
    ensures r.Err? ==> r.error == ForeignKeyViolation
    ensures r.Ok? ==> var (next, t) := r.value;
      && Valid(next) && next.moves == st.moves && next.tasks == st.tasks + (created + [t])
      && t.id == freshIds[|created|]
      && next.rooms == cur.rooms && next.items == cur.items && next.boxes == cur.boxes
      && MadeInOrder(created + [t], sel, freshIds, moveId, now, st.tasks)
  {
    var i := |created|;
    assert !HasId(cur.tasks, TaskKey, freshIds[i]) by {
      NextIdFresh(st.tasks, created, freshIds);
    }
    var res := CreateTask(cur, moveId, Request(sel[i]), freshIds[i], now);
    if res.Err? {
      return Err(res.error);
    }
    var (next, t) := res.value;
    assert MadeInOrder(created + [t], sel, freshIds, moveId, now, st.tasks) by {
      assert MadeFrom(t, sel[i], freshIds[i], moveId, now);
      MadeInOrderSnoc(created, t, sel, freshIds, moveId, now, st.tasks);
    }
    assert next.tasks == st.tasks + (created + [t]) by {
      Concat3(st.tasks, created, [t]);
    }
    r := Ok((next, t));
  }

  /** applyTaskTemplates: one `createTask` per selected template, in catalogue order. The
      first create fails when the move does not exist, so the call fails exactly when some
      template is selected and the move is missing; nothing is selected, nothing is created. */
  method ApplyTaskTemplates(st: State, moveId: Id, templateIds: seq<string>, freshIds: seq<Id>, now: Time)
    returns (r: Result<(State, seq<Task>)>)
    requires Valid(st)
    requires |freshIds| >= |Catalogue| && Distinct(freshIds) && AllFresh(st.tasks, freshIds)
    ensures r.Err? <==> Select(Catalogue, templateIds) != [] && !HasId(st.moves, MoveKey, moveId)
    ensures r.Err? ==> r.error == ForeignKeyViolation
    ensures r.Ok? ==> var (st', tasks) := r.value;
      && Valid(st')
      && |tasks| == |Select(Catalogue, templateIds)|
      && st'.tasks == st.tasks + tasks
      && MadeInOrder(tasks, Select(Catalogue, templateIds), freshIds, moveId, now, st.tasks)
      && st'.moves == st.moves && st'.rooms == st.rooms && st'.items == st.items && st'.boxes == st.boxes
  {
    r := CreateAll(st, moveId, Select(GetTaskTemplates(), templateIds), freshIds, now);
  }

  /** The loop of applyTaskTemplates over the selected templates. */
  method CreateAll(st: State, moveId: Id, sel: seq<Template>, freshIds: seq<Id>, now: Time)
    returns (r: Result<(State, seq<Task>)>)
    requires Valid(st)
    requires |freshIds| >= |sel| && Distinct(freshIds) && AllFresh(st.tasks, freshIds)
    ensures r.Err? <==> sel != [] && !HasId(st.moves, MoveKey, moveId)
    ensures r.Err? ==> r.error == ForeignKeyViolation
    ensures r.Ok? ==> var (st', tasks) := r.value;
      && Valid(st')
      && |tasks| == |sel|
      && st'.tasks == st.tasks + tasks
      && MadeInOrder(tasks, sel, freshIds, moveId, now, st.tasks)
      && st'.moves == st.moves && st'.rooms == st.rooms && st'.items == st.items && st'.boxes == st.boxes
  {
    var cur := st;
    var created: seq<Task> := [];
    assert cur.tasks == st.tasks + created;
    for i := 0 to |sel|
      invariant Valid(cur) && cur.moves == st.moves && cur.tasks == st.tasks + created
      invariant cur.rooms == st.rooms && cur.items == st.items && cur.boxes == st.boxes
      invariant |created| == i
      invariant forall j :: 0 <= j < i ==> created[j].id == freshIds[j]
      invariant MadeInOrder(created, sel, freshIds, moveId, now, st.tasks)
      invariant i > 0 ==> HasId(st.moves, MoveKey, moveId)
    {
      var res := CreateOne(st, cur, created, sel, freshIds, moveId, now);
      if res.Err? {
        return Err(res.error);
      }
      cur := res.value.0;
      created := created + [res.value.1];
    }
    return Ok((cur, created));
  }
}
