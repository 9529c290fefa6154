/** The list edits shared by both file-backed repositories, as functions of the loaded
    list: `FindIndex` and `FirstOrDefault` by identifier, the in-place replacement of
    `Update`, the filtering of `Delete`, and the completion-flag edit of the status
    setters. */
module TodoLists {
  import opened Wrappers
  import opened Seqs
  import opened TodoItems

  /** `List.FindIndex(t => t.Id == id)`: the index of the first item with identifier
      `id`, or -1 when there is none. */
  function FindIndex(s: seq<TodoItem>, id: Guid): (r: int)
    ensures -1 <= r < |s|
    ensures r == -1 <==> forall j :: 0 <= j < |s| ==> s[j].id != id
    ensures r >= 0 ==> s[r].id == id && forall j :: 0 <= j < r ==> s[j].id != id
  {
    if s == [] then -1
    else if s[0].id == id then 0
    else
      var k := FindIndex(s[1..], id);
      if k == -1 then -1 else k + 1
  }

  /** `FirstOrDefault(t => t.Id == id)`: the first item with identifier `id`, if any. */
  function FirstWithId(s: seq<TodoItem>, id: Guid): (r: Option<TodoItem>)
    ensures r == None <==> forall t :: t in s ==> t.id != id
    ensures r.Some? ==> exists k :: 0 <= k < |s| && s[k] == r.value && r.value.id == id &&
                                    forall j :: 0 <= j < k ==> s[j].id != id
  {
    var i := FindIndex(s, id);
    if i < 0 then None else Some(s[i])
  }

  /** No two items share an identifier (the store's intended invariant, which nothing
      in the repositories enforces). */
  predicate UniqueIds(s: seq<TodoItem>) {
    forall i, j :: 0 <= i < j < |s| ==> s[i].id != s[j].id
  }

  /** `todos[index] = todo` at the first index whose item has `todo`'s identifier; the
      list is unchanged when there is no such index. */
  function Replaced(s: seq<TodoItem>, todo: TodoItem): (r: seq<TodoItem>)
    ensures |r| == |s|
    ensures FindIndex(s, todo.id) == -1 ==> r == s
    ensures FindIndex(s, todo.id) >= 0 ==> r[FindIndex(s, todo.id)] == todo
    ensures forall j :: 0 <= j < |s| && j != FindIndex(s, todo.id) ==> r[j] == s[j]
  {
    var i := FindIndex(s, todo.id);
    if i < 0 then s else s[i := todo]
  }

  /** The `Delete` filter's predicate: the item carries another identifier. */
  function OtherThan(id: Guid): TodoItem -> bool {
    (t: TodoItem) => t.id != id
  }

  /** `Where(t => t.Id != id).ToList()`: the list without the items carrying `id`. */
  function Without(s: seq<TodoItem>, id: Guid): (r: seq<TodoItem>)
    ensures |r| <= |s|
    ensures forall t :: t in r ==> t in s && t.id != id
  {
    Where(s, OtherThan(id))
  }

  /** `todos[index].IsCompleted = done` at the first index with identifier `id`; every
      other field and every other item is kept, and nothing changes when `id` is absent. */
  function SetCompletion(s: seq<TodoItem>, id: Guid, done: bool): (r: seq<TodoItem>)
    ensures |r| == |s|
    ensures FindIndex(s, id) == -1 ==> r == s
    ensures FindIndex(s, id) >= 0 ==> r[FindIndex(s, id)] == s[FindIndex(s, id)].(isCompleted := done)
    ensures forall j :: 0 <= j < |s| && j != FindIndex(s, id) ==> r[j] == s[j]
  {
    var i := FindIndex(s, id);
    if i < 0 then s else s[i := s[i].(isCompleted := done)]
  }

  // ----- Lookups after appending -----

  lemma FindIndexAppend(s: seq<TodoItem>, t: TodoItem, id: Guid)
    ensures FindIndex(s + [t], id) ==
      if FindIndex(s, id) >= 0 then FindIndex(s, id)
      else if t.id == id then |s| else -1
  {
    if FindIndex(s, id) >= 0 {
      FindIndexAppendFound(s, t, id);
    } else {
      FindIndexAppendMissing(s, t, id);
    }
  }

  lemma FindIndexAppendFound(s: seq<TodoItem>, t: TodoItem, id: Guid)
    requires FindIndex(s, id) >= 0
    ensures FindIndex(s + [t], id) == FindIndex(s, id)
  {
    var i := FindIndex(s, id);
    assert (s + [t])[i] == s[i];
    assert forall j :: 0 <= j < i ==> (s + [t])[j] == s[j];
  }

  lemma FindIndexAppendMissing(s: seq<TodoItem>, t: TodoItem, id: Guid)
    requires FindIndex(s, id) == -1
    ensures FindIndex(s + [t], id) == if t.id == id then |s| else -1
  {
    assert (s + [t])[|s|] == t;
    assert forall j :: 0 <= j < |s| ==> (s + [t])[j] == s[j];
  }

  /** Adding an item whose identifier is not yet stored makes it the one `Get` finds. */
  lemma GetAfterAddFresh(s: seq<TodoItem>, t: TodoItem)
    requires forall u :: u in s ==> u.id != t.id
    ensures FirstWithId(s + [t], t.id) == Some(t)
  {
    FindIndexAppend(s, t, t.id);
  }

  /** Adding an item whose identifier is already stored leaves `Get` finding the
      earlier item: the appended duplicate is shadowed. */
  lemma GetAfterAddDuplicate(s: seq<TodoItem>, t: TodoItem, id: Guid)
    requires exists u :: u in s && u.id == id
    ensures FirstWithId(s + [t], id) == FirstWithId(s, id)
  {
    FindIndexAppend(s, t, id);
  }

  /** Appending keeps identifiers unique exactly when the new identifier is absent. */
  lemma AddKeepsUniqueIds(s: seq<TodoItem>, t: TodoItem)
    ensures UniqueIds(s + [t]) <==> UniqueIds(s) && FindIndex(s, t.id) == -1
  {
    var r := s + [t];
    assert forall j :: 0 <= j < |s| ==> r[j] == s[j];
    assert r[|s|] == t;
  }

  lemma UniqueIdsTail(s: seq<TodoItem>)
    requires UniqueIds(s) && |s| > 0
    ensures UniqueIds(s[1..])
  {
  }

  lemma UniqueIdsHeadAbsent(s: seq<TodoItem>)
    requires UniqueIds(s) && |s| > 0
    ensures forall t :: t in s[1..] ==> t.id != s[0].id
  {
    forall t | t in s[1..] ensures t.id != s[0].id {
      var j :| 0 <= j < |s| - 1 && s[1..][j] == t;
      assert s[j + 1] == t;
    }
  }

  // ----- Update -----

  /** After replacing an existing item, `Get` on its identifier yields the replacement. */
  lemma GetAfterReplace(s: seq<TodoItem>, todo: TodoItem)
    requires FindIndex(s, todo.id) >= 0
    ensures FirstWithId(Replaced(s, todo), todo.id) == Some(todo)
  {
    var i := FindIndex(s, todo.id);
    var r := Replaced(s, todo);
    assert forall j :: 0 <= j < i ==> r[j] == s[j];
    assert FindIndex(r, todo.id) == i;
  }

  /** Replacing by identifier keeps identifiers unique: the replacement carries the
      identifier of the item it replaces. */
  lemma ReplaceKeepsUniqueIds(s: seq<TodoItem>, todo: TodoItem)
    requires UniqueIds(s)
    ensures UniqueIds(Replaced(s, todo))
  {
    var r := Replaced(s, todo);
    assert forall j :: 0 <= j < |s| ==> r[j].id == s[j].id;
  }

  // ----- Delete -----

  /** An item survives deletion exactly when it was stored and carries another
      identifier, and it survives as many times as it was stored. */
  lemma WithoutContents(s: seq<TodoItem>, id: Guid, t: TodoItem)
    ensures t in Without(s, id) <==> t in s && t.id != id
    ensures multiset(Without(s, id))[t] == if t.id != id then multiset(s)[t] else 0
  {
    WhereMultiset(s, OtherThan(id), t);
  }

  /** After deletion no item carries the identifier, so `Get` finds nothing. */
  lemma GetAfterDelete(s: seq<TodoItem>, id: Guid)
    ensures FirstWithId(Without(s, id), id) == None
  {
  }

  /** Deletion keeps the survivors in their relative order: it commutes with
      concatenation. */
  lemma DeleteKeepsOrder(a: seq<TodoItem>, b: seq<TodoItem>, id: Guid)
    ensures Without(a + b, id) == Without(a, id) + Without(b, id)
  {
    WhereAppend(a, b, OtherThan(id));
  }

  /** Deleting twice is deleting once. */
  lemma DeleteIdempotent(s: seq<TodoItem>, id: Guid)
    ensures Without(Without(s, id), id) == Without(s, id)
  {
    var r := Without(s, id);
    assert forall i :: 0 <= i < |r| ==> r[i] in r;
    WhereAll(r, OtherThan(id));
  }

  /** Deleting an absent identifier leaves the list as it was. */
  lemma DeleteAbsent(s: seq<TodoItem>, id: Guid)
    requires forall t :: t in s ==> t.id != id
    ensures Without(s, id) == s
  {
    assert forall i :: 0 <= i < |s| ==> s[i] in s;
    WhereAll(s, OtherThan(id));
  }

  /** With unique identifiers, deleting a stored identifier removes exactly the one
      item at its index and closes the gap. */
  lemma DeleteUniqueRemovesOne(s: seq<TodoItem>, id: Guid)
    requires UniqueIds(s) && FindIndex(s, id) >= 0
    ensures Without(s, id) == s[..FindIndex(s, id)] + s[FindIndex(s, id) + 1..]
  {
    WithoutSingleOccurrence(s, id, FindIndex(s, id));
  }

  lemma {:induction false} WithoutSingleOccurrence(s: seq<TodoItem>, id: Guid, k: nat)
    requires k < |s| && s[k].id == id
    requires forall j :: 0 <= j < |s| && j != k ==> s[j].id != id
    ensures Without(s, id) == s[..k] + s[k + 1..]
  {
    var tail := s[1..];
    forall j | 0 <= j < |tail| && j != k - 1 ensures tail[j].id != id {
      assert tail[j] == s[j + 1];
    }
    if k == 0 {
      DeleteAbsent(tail, id);
    } else {
      WithoutSingleOccurrence(tail, id, k - 1);
      WithoutKeptHead(s, id, k);
    }
  }

  /** The inductive step: an item before the deleted one stays at the front. */
  lemma WithoutKeptHead(s: seq<TodoItem>, id: Guid, k: nat)
    requires 0 < k < |s| && s[0].id != id
    requires Without(s[1..], id) == s[1..][..k - 1] + s[1..][k..]
    ensures Without(s, id) == s[..k] + s[k + 1..]
  {
    assert s[1..][..k - 1] == s[1..k] && s[1..][k..] == s[k + 1..];
    assert s[..k] == [s[0]] + s[1..k];
  }

  /** Deletion keeps identifiers unique. */
  lemma {:induction false} DeleteKeepsUniqueIds(s: seq<TodoItem>, id: Guid)
    requires UniqueIds(s)
    ensures UniqueIds(Without(s, id))
  {
    if s != [] {
      var tail := s[1..];
      UniqueIdsTail(s);
      DeleteKeepsUniqueIds(tail, id);
      assert Without(s, id) == (if s[0].id != id then [s[0]] else []) + Without(tail, id);
      if s[0].id != id {
        UniqueIdsHeadAbsent(s);
        UniqueIdsCons(s[0], Without(tail, id));
      }
    }
  }

  lemma UniqueIdsCons(x: TodoItem, r: seq<TodoItem>)
    requires UniqueIds(r) && forall t :: t in r ==> t.id != x.id
    ensures UniqueIds([x] + r)
  {
    var xr := [x] + r;
    forall i, j | 0 <= i < j < |xr| ensures xr[i].id != xr[j].id {
      assert xr[j] == r[j - 1];
      if i > 0 {
        assert xr[i] == r[i - 1];
      }
    }
  }

  // ----- Status setters -----

  /** The completion edit changes no identifier, so every lookup index is unchanged. */
  lemma SetCompletionKeepsIndices(s: seq<TodoItem>, id: Guid, done: bool, other: Guid)
    ensures FindIndex(SetCompletion(s, id, done), other) == FindIndex(s, other)
  {
    var r := SetCompletion(s, id, done);
    assert forall j :: 0 <= j < |s| ==> r[j].id == s[j].id;
  }

  /** The last status edit on an identifier wins: setting twice is setting once to the
      second value. This covers idempotence of each setter and `setToInProgress` after
      `setToCompleted` leaving the item in progress. */
  lemma SetCompletionLastWins(s: seq<TodoItem>, id: Guid, first: bool, second: bool)
    ensures SetCompletion(SetCompletion(s, id, first), id, second) == SetCompletion(s, id, second)
  {
    SetCompletionKeepsIndices(s, id, first, id);
  }

  /** `Get` after a status edit yields the stored item with only its flag changed. */
  lemma GetAfterSetCompletion(s: seq<TodoItem>, id: Guid, done: bool)
    ensures FirstWithId(SetCompletion(s, id, done), id) ==
      match FirstWithId(s, id)
      case None => None
      case Some(t) => Some(t.(isCompleted := done))
  {
    SetCompletionKeepsIndices(s, id, done, id);
  }
}
