/** The list query on the concrete inputs of the controller's unit tests
    (TodoApi.Tests/UnitTest1.cs). Fields a test does not set are left arbitrary. */
module ControllerScenarios {
  import opened Wrappers
  import opened Seqs
  import opened Text
  import opened TodoItems
  import opened Ordering
  import opened TodoQuery
  import opened TodoController

  /** A needle whose first character occurs in the haystack in no case is not contained. */
  lemma FirstCharAbsent(haystack: string, needle: string)
    requires needle != []
    requires forall c :: c in haystack ==> FoldChar(c) != FoldChar(needle[0])
    ensures !ContainsIgnoreCase(haystack, needle)
  {
    forall i | 0 <= i <= |haystack| ensures !MatchesAt(haystack, needle, i) {
      if i + |needle| <= |haystack| {
        assert haystack[i..i + |needle|][0] == haystack[i];
        assert haystack[i] in haystack;
      }
    }
  }

  /** The listing is the selected sort of the matching items. */
  lemma GetAllUnfolds(items: seq<TodoItem>, q: ListQuery)
    ensures GetAll(items, q).data == SortBy(SelectedOrder(q), Where(items, Matching(q)))
  {
    FilteredIsConjunction(items, q);
  }

  lemma WhereOfThree(a: TodoItem, b: TodoItem, c: TodoItem, p: TodoItem -> bool)
    ensures Where([a, b, c], p) == (if p(a) then [a] else []) + (if p(b) then [b] else []) + (if p(c) then [c] else [])
  {
    assert [a, b, c][1..] == [b, c];
    assert [b, c][1..] == [c];
    assert [c][1..] == [];
    assert Where([c], p) == (if p(c) then [c] else []);
    assert Where([b, c], p) == (if p(b) then [b] else []) + Where([c], p);
  }

  /** A query that sets no filter lists every item, in the selected order. */
  lemma NoFilterSortsAll(items: seq<TodoItem>, q: ListQuery)
    requires q.isCompleted.None? && q.dueFrom.None? && q.dueTo.None?
    requires q.createdFrom.None? && q.createdTo.None? && q.title.None?
    ensures GetAll(items, q).data == SortBy(SelectedOrder(q), items)
  {
    WhereAll(items, Matching(q));
    GetAllUnfolds(items, q);
  }

  /** When a single item matches, the listing is that item. */
  lemma SingleMatchListed(items: seq<TodoItem>, q: ListQuery, t: TodoItem)
    requires Where(items, Matching(q)) == [t]
    ensures GetAll(items, q).data == [t]
  {
    GetAllUnfolds(items, q);
    assert SortBy(SelectedOrder(q), [t]) == [t];
  }

  lemma DueRangeMatches(day: Ticks, a: TodoItem, b: TodoItem, c: TodoItem)
    requires day + 10 * TicksPerDay <= MaxTicks
    requires a.dueDate == Some(day + TicksPerDay)
    requires b.dueDate == Some(day + 5 * TicksPerDay)
    requires c.dueDate == Some(day + 10 * TicksPerDay)
    ensures Where([a, b, c], Matching(DefaultQuery.(dueFrom := Some(day + 2 * TicksPerDay), dueTo := Some(day + 8 * TicksPerDay)))) == [b]
  {
    var q := DefaultQuery.(dueFrom := Some(day + 2 * TicksPerDay), dueTo := Some(day + 8 * TicksPerDay));
    assert !Matches(q, a) && Matches(q, b) && !Matches(q, c);
    WhereOfThree(a, b, c, Matching(q));
  }

  lemma TitleFilterMatches(a: TodoItem, b: TodoItem, c: TodoItem)
    requires a.title == "Buy groceries" && b.title == "Clean house" && c.title == "Buy books"
    ensures Where([a, b, c], Matching(DefaultQuery.(title := Some("Buy")))) == [a, c]
  {
    var q := DefaultQuery.(title := Some("Buy"));
    BuyFilter(a);
    BuyFilter(b);
    BuyFilter(c);
    WhereOfThree(a, b, c, Matching(q));
  }

  /** The "Buy" filter keeps the two titles that start with it and drops "Clean house". */
  lemma BuyFilter(t: TodoItem)
    requires t.title in ["Buy groceries", "Clean house", "Buy books"]
    ensures Matches(DefaultQuery.(title := Some("Buy")), t) <==> t.title != "Clean house"
  {
    BuyIsNotBlank();
    if t.title == "Clean house" {
      FirstCharAbsent(t.title, "Buy");
    } else {
      PrefixContained(t.title, "Buy");
    }
  }

  lemma BuyIsNotBlank()
    ensures !IsNullOrWhiteSpace(Some("Buy"))
  {
    assert !IsWhiteSpace("Buy"[0]);
  }

  lemma PrefixContained(haystack: string, needle: string)
    requires |needle| <= |haystack| && haystack[..|needle|] == needle
    ensures ContainsIgnoreCase(haystack, needle)
  {
    assert MatchesAt(haystack, needle, 0);
  }

  /** Inserting into one or two sorted items. */
  lemma InsertBefore(o: SortOrder, x: TodoItem, y: TodoItem)
    requires Precedes(o, x, y)
    ensures Insert(o, x, [y]) == [x, y]
  {
  }

  lemma InsertAfter(o: SortOrder, x: TodoItem, y: TodoItem)
    requires !Precedes(o, x, y)
    ensures Insert(o, x, [y]) == [y, x]
  {
    assert [y][1..] == [];
  }

  lemma InsertPastFirst(o: SortOrder, x: TodoItem, y: TodoItem, z: TodoItem)
    requires !Precedes(o, x, y)
    ensures Insert(o, x, [y, z]) == [y] + Insert(o, x, [z])
  {
    assert [y, z][1..] == [z];
  }

  lemma TitleAscendingSelected()
    ensures SelectedOrder(DefaultQuery.(sortBy := Some("title"), sortOrder := Some("asc"))) == SortOrder(ByTitle, false)
  {
    assert ToLower("title") == "title";
  }

  lemma CreatedDescendingSelected()
    ensures SelectedOrder(DefaultQuery.(sortBy := Some("createdAt"), sortOrder := Some("desc"))) == SortOrder(ByCreatedAt, true)
  {
    assert ToLower("createdAt") == "createdat";
    assert EqualsIgnoreCase("desc", "desc");
  }

  lemma InvalidFieldSelected()
    ensures SelectedOrder(DefaultQuery.(sortBy := Some("invalidField"), sortOrder := Some("asc"))) == SortOrder(ByCreatedAt, false)
  {
    assert |ToLower("invalidField")| == 12;
  }

  lemma SortOfThree(o: SortOrder, a: TodoItem, b: TodoItem, c: TodoItem)
    ensures SortBy(o, [a, b, c]) == Insert(o, a, Insert(o, b, [c]))
  {
    assert [a, b, c][1..] == [b, c];
    assert [b, c][1..] == [c];
    assert SortBy(o, [c]) == [c];
  }

  /** Items due one, five and ten days after `day`, queried for days two to eight:
      only the second is listed. */
  lemma DueRangeScenario(day: Ticks, a: TodoItem, b: TodoItem, c: TodoItem)
    requires day + 10 * TicksPerDay <= MaxTicks
    requires a.dueDate == Some(day + TicksPerDay)
    requires b.dueDate == Some(day + 5 * TicksPerDay)
    requires c.dueDate == Some(day + 10 * TicksPerDay)
    ensures GetAll([a, b, c], DefaultQuery.(dueFrom := Some(day + 2 * TicksPerDay), dueTo := Some(day + 8 * TicksPerDay))).data == [b]
  {
    DueRangeMatches(day, a, b, c);
    SingleMatchListed([a, b, c], DefaultQuery.(dueFrom := Some(day + 2 * TicksPerDay), dueTo := Some(day + 8 * TicksPerDay)), b);
  }

  /** Titles "Buy groceries", "Clean house" and "Buy books" filtered by "Buy": the first
      and the third are listed, and the count is two. */
  lemma TitleFilterScenario(a: TodoItem, b: TodoItem, c: TodoItem)
    requires a.title == "Buy groceries" && b.title == "Clean house" && c.title == "Buy books"
    ensures multiset(GetAll([a, b, c], DefaultQuery.(title := Some("Buy"))).data) == multiset{a, c}
    ensures GetAll([a, b, c], DefaultQuery.(title := Some("Buy"))).count == 2
  {
    TitleFilterMatches(a, b, c);
    GetAllUnfolds([a, b, c], DefaultQuery.(title := Some("Buy")));
  }

  /** Titles "Zebra", "Apple" and "Monkey" sorted by title, ascending. */
  lemma TitleSortScenario(a: TodoItem, b: TodoItem, c: TodoItem)
    requires a.title == "Zebra" && b.title == "Apple" && c.title == "Monkey"
    ensures GetAll([a, b, c], DefaultQuery.(sortBy := Some("title"), sortOrder := Some("asc"))).data == [b, c, a]
  {
    TitleAscendingSelected();
    NoFilterSortsAll([a, b, c], DefaultQuery.(sortBy := Some("title"), sortOrder := Some("asc")));
    TitleSort(a, b, c);
  }

  lemma TitleSort(a: TodoItem, b: TodoItem, c: TodoItem)
    requires a.title == "Zebra" && b.title == "Apple" && c.title == "Monkey"
    ensures SortBy(SortOrder(ByTitle, false), [a, b, c]) == [b, c, a]
  {
    var o := SortOrder(ByTitle, false);
    TitleOrder();
    SortOfThree(o, a, b, c);
    InsertBefore(o, b, c);
    InsertPastFirst(o, a, b, c);
    InsertAfter(o, a, c);
  }

  lemma TitleOrder()
    ensures StrLe("Apple", "Monkey") && !StrLe("Zebra", "Apple") && !StrLe("Zebra", "Monkey")
  {
  }

  /** Items created five days before, on, and two days before `day`, sorted by creation
      time descending: the newest comes first. */
  lemma CreatedDescendingScenario(day: Ticks, a: TodoItem, b: TodoItem, c: TodoItem)
    requires day >= 5 * TicksPerDay
    requires a.createdAt == day - 5 * TicksPerDay && b.createdAt == day && c.createdAt == day - 2 * TicksPerDay
    ensures GetAll([a, b, c], DefaultQuery.(sortBy := Some("createdAt"), sortOrder := Some("desc"))).data == [b, c, a]
  {
    CreatedDescendingSelected();
    NoFilterSortsAll([a, b, c], DefaultQuery.(sortBy := Some("createdAt"), sortOrder := Some("desc")));
    CreatedDescendingSort(day, a, b, c);
  }

  lemma CreatedDescendingSort(day: Ticks, a: TodoItem, b: TodoItem, c: TodoItem)
    requires day >= 5 * TicksPerDay
    requires a.createdAt == day - 5 * TicksPerDay && b.createdAt == day && c.createdAt == day - 2 * TicksPerDay
    ensures SortBy(SortOrder(ByCreatedAt, true), [a, b, c]) == [b, c, a]
  {
    var o := SortOrder(ByCreatedAt, true);
    SortOfThree(o, a, b, c);
    InsertBefore(o, b, c);
    InsertPastFirst(o, a, b, c);
    InsertAfter(o, a, c);
  }

  /** An unrecognised sort field sorts by creation time, ascending. */
  lemma InvalidSortFieldScenario(day: Ticks, a: TodoItem, b: TodoItem, c: TodoItem)
    requires day >= 2 * TicksPerDay
    requires a.createdAt == day - TicksPerDay && b.createdAt == day && c.createdAt == day - 2 * TicksPerDay
    ensures GetAll([a, b, c], DefaultQuery.(sortBy := Some("invalidField"), sortOrder := Some("asc"))).data == [c, a, b]
  {
    InvalidFieldSelected();
    NoFilterSortsAll([a, b, c], DefaultQuery.(sortBy := Some("invalidField"), sortOrder := Some("asc")));
    CreatedAscendingSort(day, a, b, c);
  }

  lemma CreatedAscendingSort(day: Ticks, a: TodoItem, b: TodoItem, c: TodoItem)
    requires day >= 2 * TicksPerDay
    requires a.createdAt == day - TicksPerDay && b.createdAt == day && c.createdAt == day - 2 * TicksPerDay
    ensures SortBy(SortOrder(ByCreatedAt, false), [a, b, c]) == [c, a, b]
  {
    SortOfThree(SortOrder(ByCreatedAt, false), a, b, c);
    InsertAfter(SortOrder(ByCreatedAt, false), b, c);
    OldestThenMiddle(day, a, b, c);
  }

  lemma OldestThenMiddle(day: Ticks, a: TodoItem, b: TodoItem, c: TodoItem)
    requires day >= 2 * TicksPerDay
    requires a.createdAt == day - TicksPerDay && b.createdAt == day && c.createdAt == day - 2 * TicksPerDay
    ensures Insert(SortOrder(ByCreatedAt, false), a, [c, b]) == [c, a, b]
  {
    var o := SortOrder(ByCreatedAt, false);
    InsertPastFirst(o, a, c, b);
    InsertBefore(o, a, b);
  }
}
