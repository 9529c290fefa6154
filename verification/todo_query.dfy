/** The filtering half of the list query in `TodoController.GetAll`, and the parsing of
    its `sortBy` and `sortOrder` parameters. Every parameter is optional; an absent
    filter keeps every item. */
module TodoQuery {
  import opened Wrappers
  import opened Seqs
  import opened Text
  import opened TodoItems
  import opened Ordering

  /** The query-string parameters of `GET /api/todo`. */
  datatype ListQuery = ListQuery(
    isCompleted: Option<bool>,
    dueFrom: Option<Ticks>,
    dueTo: Option<Ticks>,
    createdFrom: Option<Ticks>,
    createdTo: Option<Ticks>,
    title: Option<string>,
    sortBy: Option<string>,
    sortOrder: Option<string>)

  /** The parameters' defaults: no filter, `sortBy = "createdAt"`, `sortOrder = "asc"`. */
  const DefaultQuery: ListQuery :=
    ListQuery(None, None, None, None, None, None, Some("createdAt"), Some("asc"))

  predicate PassesCompletion(q: ListQuery, t: TodoItem) {
    q.isCompleted.None? || t.isCompleted == q.isCompleted.value
  }

  /** An item without a due date fails a present lower bound. */
  predicate PassesDueFrom(q: ListQuery, t: TodoItem) {
    q.dueFrom.None? || (t.dueDate.Some? && t.dueDate.value >= q.dueFrom.value)
  }

  /** An item without a due date fails a present upper bound. */
  predicate PassesDueTo(q: ListQuery, t: TodoItem) {
    q.dueTo.None? || (t.dueDate.Some? && t.dueDate.value <= q.dueTo.value)
  }

  predicate PassesCreatedFrom(q: ListQuery, t: TodoItem) {
    q.createdFrom.None? || t.createdAt >= q.createdFrom.value
  }

  predicate PassesCreatedTo(q: ListQuery, t: TodoItem) {
    q.createdTo.None? || t.createdAt <= q.createdTo.value
  }

  /** A blank title parameter filters nothing; otherwise the item's title must contain
      it, ignoring case. */
  predicate PassesTitle(q: ListQuery, t: TodoItem) {
    IsNullOrWhiteSpace(q.title) || ContainsIgnoreCase(t.title, q.title.value)
  }

  /** The conjunction of all six filters. */
  predicate Matches(q: ListQuery, t: TodoItem) {
    && PassesCompletion(q, t)
    && PassesDueFrom(q, t)
    && PassesDueTo(q, t)
    && PassesCreatedFrom(q, t)
    && PassesCreatedTo(q, t)
    && PassesTitle(q, t)
  }

  function Matching(q: ListQuery): TodoItem -> bool {
    (t: TodoItem) => Matches(q, t)
  }

  function CompletionFilter(q: ListQuery): TodoItem -> bool {
    (t: TodoItem) => PassesCompletion(q, t)
  }

  function DueFromFilter(q: ListQuery): TodoItem -> bool {
    (t: TodoItem) => PassesDueFrom(q, t)
  }

  function DueToFilter(q: ListQuery): TodoItem -> bool {
    (t: TodoItem) => PassesDueTo(q, t)
  }

  function CreatedFromFilter(q: ListQuery): TodoItem -> bool {
    (t: TodoItem) => PassesCreatedFrom(q, t)
  }

  function CreatedToFilter(q: ListQuery): TodoItem -> bool {
    (t: TodoItem) => PassesCreatedTo(q, t)
  }

  function TitleFilter(q: ListQuery): TodoItem -> bool {
    (t: TodoItem) => PassesTitle(q, t)
  }

  /** The filters as the controller applies them: one `Where` per supplied parameter,
      in the order of the source. */
  function Filtered(items: seq<TodoItem>, q: ListQuery): seq<TodoItem> {
    var s1 := if q.isCompleted.Some? then Where(items, CompletionFilter(q)) else items;
    var s2 := if q.dueFrom.Some? then Where(s1, DueFromFilter(q)) else s1;
    var s3 := if q.dueTo.Some? then Where(s2, DueToFilter(q)) else s2;
    var s4 := if q.createdFrom.Some? then Where(s3, CreatedFromFilter(q)) else s3;
    var s5 := if q.createdTo.Some? then Where(s4, CreatedToFilter(q)) else s4;
    if !IsNullOrWhiteSpace(q.title) then Where(s5, TitleFilter(q)) else s5
  }

  /** A step that is skipped is a step whose filter keeps everything. */
  lemma SkippedStep(s: seq<TodoItem>, apply: bool, p: TodoItem -> bool)
    requires !apply ==> forall t :: p(t)
    ensures (if apply then Where(s, p) else s) == Where(s, p)
  {
    if !apply {
      WhereAll(s, p);
    }
  }

  /** Each skipped step is a filter that keeps everything, so the chain is six filters. */
  lemma FilteredIsSixFilters(items: seq<TodoItem>, q: ListQuery)
    ensures Filtered(items, q) ==
      Where(Where(Where(Where(Where(Where(items, CompletionFilter(q)), DueFromFilter(q)),
        DueToFilter(q)), CreatedFromFilter(q)), CreatedToFilter(q)), TitleFilter(q))
  {
    SkippedStep(items, q.isCompleted.Some?, CompletionFilter(q));
    var s1 := Where(items, CompletionFilter(q));
    SkippedStep(s1, q.dueFrom.Some?, DueFromFilter(q));
    var s2 := Where(s1, DueFromFilter(q));
    SkippedStep(s2, q.dueTo.Some?, DueToFilter(q));
    var s3 := Where(s2, DueToFilter(q));
    SkippedStep(s3, q.createdFrom.Some?, CreatedFromFilter(q));
    var s4 := Where(s3, CreatedFromFilter(q));
    SkippedStep(s4, q.createdTo.Some?, CreatedToFilter(q));
    var s5 := Where(s4, CreatedToFilter(q));
    SkippedStep(s5, !IsNullOrWhiteSpace(q.title), TitleFilter(q));
  }

  /** The chain of filters is one filter by their conjunction, so the order in which
      the filters are applied does not matter. */
  lemma FilteredIsConjunction(items: seq<TodoItem>, q: ListQuery)
    ensures Filtered(items, q) == Where(items, Matching(q))
  {
    FilteredIsSixFilters(items, q);
    var p1, p2, p3 := CompletionFilter(q), DueFromFilter(q), DueToFilter(q);
    var p4, p5, p6 := CreatedFromFilter(q), CreatedToFilter(q), TitleFilter(q);
    var c2 := And(p1, p2);
    var c3 := And(c2, p3);
    var c4 := And(c3, p4);
    var c5 := And(c4, p5);
    var c6 := And(c5, p6);
    WhereWhere(items, p1, p2, c2);
    WhereWhere(items, c2, p3, c3);
    WhereWhere(items, c3, p4, c4);
    WhereWhere(items, c4, p5, c5);
    WhereWhere(items, c5, p6, c6);
    forall i | 0 <= i < |items| ensures c6(items[i]) == Matching(q)(items[i]) {
      ConjunctionIsMatching(q, items[i]);
    }
    WhereExtensional(items, c6, Matching(q));
  }

  lemma ConjunctionIsMatching(q: ListQuery, t: TodoItem)
    ensures And(And(And(And(And(CompletionFilter(q), DueFromFilter(q)), DueToFilter(q)),
      CreatedFromFilter(q)), CreatedToFilter(q)), TitleFilter(q))(t) == Matching(q)(t)
  {
  }

  /** `sortBy?.ToLower() ?? "createdat"`, then the switch: the four recognised names
      select their key, and every other name falls back to the creation time. */
  function ParseSortKey(sortBy: Option<string>): SortKey {
    var field := match sortBy case None => "createdat" case Some(s) => ToLower(s);
    if field == "duedate" then ByDueDate
    else if field == "title" then ByTitle
    else if field == "iscompleted" then ByCompletion
    else ByCreatedAt
  }

  /** `string.Equals(sortOrder, "desc", StringComparison.OrdinalIgnoreCase)`; an absent
      value is not equal. */
  function IsDescending(sortOrder: Option<string>): bool {
    sortOrder.Some? && EqualsIgnoreCase(sortOrder.value, "desc")
  }

  /** The sort the query selects. */
  function SelectedOrder(q: ListQuery): SortOrder {
    SortOrder(ParseSortKey(q.sortBy), IsDescending(q.sortOrder))
  }

  /** Which key a `sortBy` value selects: each recognised name, in any case, selects its
      key, and an absent or unrecognised value selects the creation time. */
  lemma SortKeyRecognition(sortBy: Option<string>)
    ensures sortBy == None ==> ParseSortKey(sortBy) == ByCreatedAt
    ensures sortBy.Some? ==> (ParseSortKey(sortBy) == ByDueDate <==> ToLower(sortBy.value) == "duedate")
    ensures sortBy.Some? ==> (ParseSortKey(sortBy) == ByTitle <==> ToLower(sortBy.value) == "title")
    ensures sortBy.Some? ==> (ParseSortKey(sortBy) == ByCompletion <==> ToLower(sortBy.value) == "iscompleted")
    ensures sortBy.Some? && ToLower(sortBy.value) !in ["duedate", "title", "iscompleted"] ==>
      ParseSortKey(sortBy) == ByCreatedAt
  {
  }

  /** The order is descending exactly when `sortOrder` is "desc" in some case, and
      ascending otherwise, including when it is absent. */
  lemma DescendingExactlyForDesc(sortOrder: Option<string>)
    ensures IsDescending(sortOrder) <==> sortOrder.Some? && ToLower(sortOrder.value) == "desc"
  {
    if sortOrder.Some? {
      EqualsIgnoreCaseIsLowerEquality(sortOrder.value, "desc");
      assert ToLower("desc") == "desc";
    }
  }
}
