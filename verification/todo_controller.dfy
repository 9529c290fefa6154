/** The actions of TodoApi/Controller/TodoController.cs, as functions of the store's
    current contents. The list action filters and sorts; the item actions check their
    arguments, call the store, and choose a status. A mutating action returns the
    status together with the contents the store holds afterwards, as the repository
    methods specify them. */
module TodoController {
  import opened Wrappers
  import opened Seqs
  import opened Text
  import opened TodoItems
  import opened TodoLists
  import opened Ordering
  import opened TodoQuery

  /** The `{ data, count }` body of a successful list request. */
  datatype ListResponse = ListResponse(data: seq<TodoItem>, count: int)

  /** The statuses the item actions return. */
  datatype ActionResult =
    | Ok(item: TodoItem)
    | NotFound
    | BadRequest
    | NoContent
    | CreatedAt(id: Guid, value: TodoItem)

  /** An action's status and the store contents after it. */
  datatype Outcome = Outcome(result: ActionResult, store: seq<TodoItem>)

  /** `GET /api/todo`: the matching items, sorted as the query asks, and their count. */
  function GetAll(items: seq<TodoItem>, q: ListQuery): (r: ListResponse)
    ensures r.count == |r.data|
    ensures multiset(r.data) == multiset(Where(items, Matching(q)))
  {
    FilteredIsConjunction(items, q);
    var data := SortBy(SelectedOrder(q), Filtered(items, q));
    ListResponse(data, |data|)
  }

  /** An item is listed exactly when it is stored and passes every supplied filter, and
      it is listed as often as it is stored. */
  lemma GetAllContents(items: seq<TodoItem>, q: ListQuery, t: TodoItem)
    ensures t in GetAll(items, q).data <==> t in items && Matches(q, t)
    ensures multiset(GetAll(items, q).data)[t] == if Matches(q, t) then multiset(items)[t] else 0
  {
    WhereMultiset(items, Matching(q), t);
    assert t in GetAll(items, q).data <==> t in multiset(GetAll(items, q).data);
  }

  /** The count is the number of matching items, not the number stored. */
  lemma GetAllCount(items: seq<TodoItem>, q: ListQuery)
    ensures GetAll(items, q).count == |Where(items, Matching(q))| <= |items|
  {
    var r := GetAll(items, q);
    assert |multiset(r.data)| == |multiset(Where(items, Matching(q)))|;
  }

  /** The list is sorted on the selected key in the selected direction. */
  lemma GetAllSorted(items: seq<TodoItem>, q: ListQuery)
    ensures Sorted(SelectedOrder(q), GetAll(items, q).data)
  {
    SortBySorted(SelectedOrder(q), Filtered(items, q));
  }

  /** Items with equal keys keep their relative input order. */
  lemma GetAllStable(items: seq<TodoItem>, q: ListQuery, pivot: TodoItem)
    ensures Where(GetAll(items, q).data, KeyClass(SelectedOrder(q).key, pivot)) ==
            Where(Where(items, Matching(q)), KeyClass(SelectedOrder(q).key, pivot))
  {
    FilteredIsConjunction(items, q);
    SortByStable(SelectedOrder(q), Filtered(items, q), pivot);
  }

  /** The list is the only sorted arrangement of the matching items that keeps equal-key
      items in input order. */
  lemma GetAllIsTheStableSort(items: seq<TodoItem>, q: ListQuery, r: seq<TodoItem>)
    requires Sorted(SelectedOrder(q), r)
    requires forall pivot :: Where(r, KeyClass(SelectedOrder(q).key, pivot)) ==
                             Where(Where(items, Matching(q)), KeyClass(SelectedOrder(q).key, pivot))
    ensures r == GetAll(items, q).data
  {
    FilteredIsConjunction(items, q);
    StableSortUnique(SelectedOrder(q), Filtered(items, q), r);
  }

  /** Once either due-date bound is supplied, only items with a due date are listed, and
      their due dates lie within the supplied bounds, both inclusive. */
  lemma DueBoundsExcludeUndated(items: seq<TodoItem>, q: ListQuery, t: TodoItem)
    requires q.dueFrom.Some? || q.dueTo.Some?
    requires t in GetAll(items, q).data
    ensures t.dueDate.Some?
    ensures q.dueFrom.Some? ==> q.dueFrom.value <= t.dueDate.value
    ensures q.dueTo.Some? ==> t.dueDate.value <= q.dueTo.value
  {
    GetAllContents(items, q, t);
  }

  /** The creation-time bounds never exclude an item for lack of a value: a stored item
      whose creation time lies within them is listed when no other filter is given. */
  lemma CreatedBoundsKeepInRange(items: seq<TodoItem>, q: ListQuery, t: TodoItem)
    requires q.isCompleted == None && q.dueFrom == None && q.dueTo == None && q.title == None
    requires t in items
    requires q.createdFrom.Some? ==> q.createdFrom.value <= t.createdAt
    requires q.createdTo.Some? ==> t.createdAt <= q.createdTo.value
    ensures t in GetAll(items, q).data
  {
    GetAllContents(items, q, t);
  }

  /** A blank title parameter lists the same as no title parameter. */
  lemma BlankTitleFiltersNothing(items: seq<TodoItem>, q: ListQuery)
    requires IsNullOrWhiteSpace(q.title)
    ensures GetAll(items, q) == GetAll(items, q.(title := None))
  {
    FilteredIsConjunction(items, q);
    FilteredIsConjunction(items, q.(title := None));
    BlankTitleSameMatches(items, q);
    assert SelectedOrder(q) == SelectedOrder(q.(title := None));
  }

  lemma BlankTitleSameMatches(items: seq<TodoItem>, q: ListQuery)
    requires IsNullOrWhiteSpace(q.title)
    ensures Where(items, Matching(q)) == Where(items, Matching(q.(title := None)))
  {
    WhereExtensional(items, Matching(q), Matching(q.(title := None)));
  }

  /** Sorting by completion ascending lists every open item before every completed one. */
  lemma CompletionAscendingOpenFirst(items: seq<TodoItem>, q: ListQuery)
    requires SelectedOrder(q) == SortOrder(ByCompletion, false)
    ensures forall i, j :: 0 <= i < j < |GetAll(items, q).data| && GetAll(items, q).data[i].isCompleted ==>
      GetAll(items, q).data[j].isCompleted
  {
    GetAllSorted(items, q);
  }

  /** `GET /api/todo/{id}`: the stored item, or `NotFound` when no item has the id. */
  function Get(items: seq<TodoItem>, id: Guid): (r: ActionResult)
    ensures r == NotFound <==> forall t :: t in items ==> t.id != id
    ensures r.Ok? ==> r.item in items && r.item.id == id
    ensures r.Ok? ==> exists k :: 0 <= k < |items| && items[k] == r.item &&
                                  forall j :: 0 <= j < k ==> items[j].id != id
    ensures r.Ok? || r == NotFound
  {
    match FirstWithId(items, id)
    case None => NotFound
    case Some(t) => Ok(t)
  }

  /** `POST /api/todo`: the item is appended whatever its title, and `CreatedAt` names it. */
  function Create(items: seq<TodoItem>, todo: TodoItem): (r: Outcome)
    ensures r.result == CreatedAt(todo.id, todo)
    ensures |r.store| == |items| + 1 && r.store[..|items|] == items && r.store[|items|] == todo
  {
    Outcome(CreatedAt(todo.id, todo), items + [todo])
  }

  /** `PUT /api/todo/{id}`: `BadRequest` and an untouched store when the path id differs
      from the body's; otherwise the store's update and `NoContent`, whether or not the
      id is stored. */
  function Update(items: seq<TodoItem>, id: Guid, todo: TodoItem): (r: Outcome)
    ensures id != todo.id ==> r == Outcome(BadRequest, items)
    ensures id == todo.id ==> r.result == NoContent && r.store == Replaced(items, todo)
    ensures id == todo.id ==> |r.store| == |items|
    ensures (forall t :: t in items ==> t.id != id) ==> r.store == items
  {
    if id != todo.id then Outcome(BadRequest, items)
    else Outcome(NoContent, Replaced(items, todo))
  }

  /** `DELETE /api/todo/{id}`: the store's delete and `NoContent`, whether or not the id
      is stored. */
  function Delete(items: seq<TodoItem>, id: Guid): (r: Outcome)
    ensures r.result == NoContent && r.store == Without(items, id)
    ensures forall t :: t in r.store ==> t in items && t.id != id
  {
    Outcome(NoContent, Without(items, id))
  }

  /** A created item with a fresh id is what `Get` then returns, even when its title
      breaks the declared constraint (the title is not validated on this path). */
  lemma CreateThenGet(items: seq<TodoItem>, todo: TodoItem)
    requires forall t :: t in items ==> t.id != todo.id
    ensures Create(items, todo).result.CreatedAt?
    ensures Get(Create(items, todo).store, todo.id) == Ok(todo)
  {
    GetAfterAddFresh(items, todo);
  }

  /** A default item, whose title is empty, is still created. */
  lemma CreateAcceptsInvalidTitle(items: seq<TodoItem>, id: Guid, now: Ticks)
    ensures !ValidTitle(NewTodoItem(id, now).title)
    ensures Create(items, NewTodoItem(id, now)).result == CreatedAt(id, NewTodoItem(id, now))
  {
    NewTodoItemHasInvalidTitle(id, now);
  }

  /** After a successful update of a stored id, `Get` returns the new item. */
  lemma UpdateThenGet(items: seq<TodoItem>, todo: TodoItem)
    requires exists t :: t in items && t.id == todo.id
    ensures Update(items, todo.id, todo).result == NoContent
    ensures Get(Update(items, todo.id, todo).store, todo.id) == Ok(todo)
  {
    GetAfterReplace(items, todo);
  }

  /** After a delete, `Get` finds nothing; a second delete still returns `NoContent`
      and changes nothing. */
  lemma DeleteTwice(items: seq<TodoItem>, id: Guid)
    ensures Get(Delete(items, id).store, id) == NotFound
    ensures Delete(Delete(items, id).store, id) == Outcome(NoContent, Delete(items, id).store)
  {
    GetAfterDelete(items, id);
    DeleteIdempotent(items, id);
  }
}
