/** The sorting step of the list query: `OrderBy` / `OrderByDescending` on one of four
    keys. Both are stable sorts; the model is a stable insertion sort, proved to return
    a sorted permutation of its input that keeps equal-key items in input order, and
    proved to be the only sequence with those properties. */
module Ordering {
  import opened Wrappers
  import opened Seqs
  import opened Text
  import opened TodoItems

  /** The property a list is sorted on. */
  datatype SortKey = ByDueDate | ByTitle | ByCompletion | ByCreatedAt

  /** A key and a direction. */
  datatype SortOrder = SortOrder(key: SortKey, descending: bool)

  /** The default comparer of `DateTime?`: an absent value orders before every present
      one, and present values order by ticks. */
  predicate DueLe(a: Option<Ticks>, b: Option<Ticks>) {
    match a
    case None => true
    case Some(x) => b.Some? && x <= b.value
  }

  /** `a` orders no later than `b` on key `k`, ascending. Titles compare ordinally and
      `false` orders before `true`. */
  predicate KeyLe(k: SortKey, a: TodoItem, b: TodoItem) {
    match k
    case ByDueDate => DueLe(a.dueDate, b.dueDate)
    case ByTitle => StrLe(a.title, b.title)
    case ByCompletion => !a.isCompleted || b.isCompleted
    case ByCreatedAt => a.createdAt <= b.createdAt
  }

  /** `a` and `b` carry the same value of key `k`. */
  predicate SameKey(k: SortKey, a: TodoItem, b: TodoItem) {
    match k
    case ByDueDate => a.dueDate == b.dueDate
    case ByTitle => a.title == b.title
    case ByCompletion => a.isCompleted == b.isCompleted
    case ByCreatedAt => a.createdAt == b.createdAt
  }

  /** `a` may stand before `b` in a list sorted by `o`. */
  predicate Precedes(o: SortOrder, a: TodoItem, b: TodoItem) {
    if o.descending then KeyLe(o.key, b, a) else KeyLe(o.key, a, b)
  }

  lemma KeyLeTotal(k: SortKey, a: TodoItem, b: TodoItem)
    ensures KeyLe(k, a, b) || KeyLe(k, b, a)
  {
    if k == ByTitle {
      StrLeTotal(a.title, b.title);
    }
  }

  lemma KeyLeTransitive(k: SortKey, a: TodoItem, b: TodoItem, c: TodoItem)
    requires KeyLe(k, a, b) && KeyLe(k, b, c)
    ensures KeyLe(k, a, c)
  {
    if k == ByTitle {
      StrLeTransitive(a.title, b.title, c.title);
    }
  }

  /** Two items order both ways exactly when they carry the same key value. */
  lemma KeyLeBothWays(k: SortKey, a: TodoItem, b: TodoItem)
    ensures KeyLe(k, a, b) && KeyLe(k, b, a) <==> SameKey(k, a, b)
  {
    if k == ByTitle {
      if StrLe(a.title, b.title) && StrLe(b.title, a.title) {
        StrLeAntisymmetric(a.title, b.title);
      }
      if a.title == b.title {
        StrLeReflexive(a.title);
      }
    }
  }

  lemma PrecedesTotal(o: SortOrder, a: TodoItem, b: TodoItem)
    ensures Precedes(o, a, b) || Precedes(o, b, a)
  {
    KeyLeTotal(o.key, a, b);
  }

  lemma PrecedesTransitive(o: SortOrder, a: TodoItem, b: TodoItem, c: TodoItem)
    requires Precedes(o, a, b) && Precedes(o, b, c)
    ensures Precedes(o, a, c)
  {
    if o.descending {
      KeyLeTransitive(o.key, c, b, a);
    } else {
      KeyLeTransitive(o.key, a, b, c);
    }
  }

  lemma PrecedesBothWays(o: SortOrder, a: TodoItem, b: TodoItem)
    ensures Precedes(o, a, b) && Precedes(o, b, a) <==> SameKey(o.key, a, b)
  {
    KeyLeBothWays(o.key, a, b);
  }

  /** Every item precedes every later one. */
  predicate Sorted(o: SortOrder, s: seq<TodoItem>) {
    forall i, j :: 0 <= i < j < |s| ==> Precedes(o, s[i], s[j])
  }

  /** The items whose key value equals that of `pivot`. */
  function KeyClass(k: SortKey, pivot: TodoItem): TodoItem -> bool {
    (t: TodoItem) => SameKey(k, t, pivot)
  }

  /** Inserts `x` before the first item it may precede. */
  function Insert(o: SortOrder, x: TodoItem, s: seq<TodoItem>): (r: seq<TodoItem>)
    ensures multiset(r) == multiset(s) + multiset{x}
  {
    if s == [] then [x]
    else if Precedes(o, x, s[0]) then [x] + s
    else
      assert s == [s[0]] + s[1..];
      [s[0]] + Insert(o, x, s[1..])
  }

  /** The stable sort of `s` by `o`. */
  function SortBy(o: SortOrder, s: seq<TodoItem>): (r: seq<TodoItem>)
    ensures multiset(r) == multiset(s)
  {
    if s == [] then []
    else
      assert s == [s[0]] + s[1..];
      Insert(o, s[0], SortBy(o, s[1..]))
  }

  lemma {:induction false} InsertSorted(o: SortOrder, x: TodoItem, s: seq<TodoItem>)
    requires Sorted(o, s)
    ensures Sorted(o, Insert(o, x, s))
  {
    if s == [] {
    } else if Precedes(o, x, s[0]) {
      InsertAtFrontSorted(o, x, s);
    } else {
      InsertSorted(o, x, s[1..]);
      InsertBehindSorted(o, x, s);
    }
  }

  /** Inserting at the front of a sorted list whose head `x` precedes. */
  lemma InsertAtFrontSorted(o: SortOrder, x: TodoItem, s: seq<TodoItem>)
    requires Sorted(o, s) && s != [] && Precedes(o, x, s[0])
    ensures Sorted(o, [x] + s)
  {
    var r := [x] + s;
    forall i, j | 0 <= i < j < |r| ensures Precedes(o, r[i], r[j]) {
      if i > 0 {
        assert r[i] == s[i - 1] && r[j] == s[j - 1];
      } else if j > 1 {
        PrecedesTransitive(o, x, s[0], s[j - 1]);
      }
    }
  }

  /** Keeping the head in front of a sorted insertion into the tail. */
  lemma InsertBehindSorted(o: SortOrder, x: TodoItem, s: seq<TodoItem>)
    requires Sorted(o, s) && s != [] && !Precedes(o, x, s[0])
    requires Sorted(o, Insert(o, x, s[1..]))
    ensures Sorted(o, [s[0]] + Insert(o, x, s[1..]))
  {
    var tail := Insert(o, x, s[1..]);
    var r := [s[0]] + tail;
    PrecedesTotal(o, x, s[0]);
    forall i, j | 0 <= i < j < |r| ensures Precedes(o, r[i], r[j]) {
      assert r[j] == tail[j - 1];
      if i > 0 {
        assert r[i] == tail[i - 1];
      } else {
        assert tail[j - 1] in multiset(tail);
        assert tail[j - 1] == x || tail[j - 1] in s[1..];
      }
    }
  }

  /** The sort returns a sorted list. */
  lemma {:induction false} SortBySorted(o: SortOrder, s: seq<TodoItem>)
    ensures Sorted(o, SortBy(o, s))
  {
    if s != [] {
      SortBySorted(o, s[1..]);
      InsertSorted(o, s[0], SortBy(o, s[1..]));
    }
  }

  /** Insertion places `x` ahead of every item with its key value, and moves nothing
      else within a key class. */
  lemma {:induction false} InsertStable(o: SortOrder, x: TodoItem, s: seq<TodoItem>, pivot: TodoItem)
    ensures Where(Insert(o, x, s), KeyClass(o.key, pivot)) ==
      (if SameKey(o.key, x, pivot) then [x] else []) + Where(s, KeyClass(o.key, pivot))
  {
    var p := KeyClass(o.key, pivot);
    if s == [] {
    } else if Precedes(o, x, s[0]) {
      WhereAppend([x], s, p);
    } else {
      InsertStable(o, x, s[1..], pivot);
      WhereAppend([s[0]], Insert(o, x, s[1..]), p);
      if SameKey(o.key, x, pivot) {
        SameKeyClassShared(o, x, s[0], pivot);
      }
      assert Where(s, p) == Where([s[0]], p) + Where(s[1..], p) by {
        WhereAppend([s[0]], s[1..], p);
        assert s == [s[0]] + s[1..];
      }
    }
  }

  /** An item that `x` may not precede is not in `x`'s key class. */
  lemma SameKeyClassShared(o: SortOrder, x: TodoItem, y: TodoItem, pivot: TodoItem)
    requires SameKey(o.key, x, pivot) && !Precedes(o, x, y)
    ensures !SameKey(o.key, y, pivot)
  {
    if SameKey(o.key, y, pivot) {
      assert SameKey(o.key, x, y);
      PrecedesBothWays(o, x, y);
    }
  }

  /** Stability: within every key class the sorted list keeps the input order. */
  lemma {:induction false} SortByStable(o: SortOrder, s: seq<TodoItem>, pivot: TodoItem)
    ensures Where(SortBy(o, s), KeyClass(o.key, pivot)) == Where(s, KeyClass(o.key, pivot))
  {
    if s != [] {
      SortByStable(o, s[1..], pivot);
      InsertStable(o, s[0], SortBy(o, s[1..]), pivot);
    }
  }

  /** The head of a sorted list precedes each of its members. */
  lemma HeadPrecedesMembers(o: SortOrder, r: seq<TodoItem>, x: TodoItem)
    requires Sorted(o, r) && x in r
    ensures Precedes(o, r[0], x)
  {
    var j :| 0 <= j < |r| && r[j] == x;
    if j == 0 {
      PrecedesTotal(o, x, x);
    }
  }

  /** An item is in the class of its own key value. */
  lemma InOwnClass(k: SortKey, s: seq<TodoItem>, x: TodoItem)
    ensures x in Where(s, KeyClass(k, x)) <==> x in s
  {
    SameKeyReflexive(k, x);
    WhereMembership(s, KeyClass(k, x), x);
  }

  /** Two sorted lists that agree on the order within every key class start alike. */
  lemma SortedHeadsAgree(o: SortOrder, r: seq<TodoItem>, t: seq<TodoItem>)
    requires Sorted(o, r) && Sorted(o, t) && r != []
    requires forall pivot :: Where(r, KeyClass(o.key, pivot)) == Where(t, KeyClass(o.key, pivot))
    ensures t != [] && r[0] == t[0]
  {
    var p := KeyClass(o.key, r[0]);
    InOwnClass(o.key, r, r[0]);
    InOwnClass(o.key, t, r[0]);
    assert Where(r, p) == Where(t, p);
    assert t != [];
    InOwnClass(o.key, r, t[0]);
    InOwnClass(o.key, t, t[0]);
    assert Where(r, KeyClass(o.key, t[0])) == Where(t, KeyClass(o.key, t[0]));
    HeadPrecedesMembers(o, t, r[0]);
    HeadPrecedesMembers(o, r, t[0]);
    PrecedesBothWays(o, t[0], r[0]);
    assert p(t[0]);
    WhereKeepsHead(r, p);
    WhereKeepsHead(t, p);
  }

  /** Two sorted lists that agree on the order within every key class are equal. */
  lemma {:induction false} SortedClassesDetermine(o: SortOrder, r: seq<TodoItem>, t: seq<TodoItem>)
    requires Sorted(o, r) && Sorted(o, t)
    requires forall pivot :: Where(r, KeyClass(o.key, pivot)) == Where(t, KeyClass(o.key, pivot))
    ensures r == t
  {
    if r != [] {
      SortedHeadsAgree(o, r, t);
    } else if t != [] {
      SortedHeadsAgree(o, t, r);
    }
    if r != [] && t != [] {
      forall pivot ensures Where(r[1..], KeyClass(o.key, pivot)) == Where(t[1..], KeyClass(o.key, pivot)) {
        WhereTail(r, t, KeyClass(o.key, pivot));
      }
      SortedClassesDetermine(o, r[1..], t[1..]);
      assert r == [r[0]] + r[1..] && t == [t[0]] + t[1..];
    }
  }

  lemma SameKeyReflexive(k: SortKey, a: TodoItem)
    ensures SameKey(k, a, a)
  {
  }

  /** The sort is the unique stable sort: any sorted list that keeps the input order
      within every key class is `SortBy(o, s)`. */
  lemma StableSortUnique(o: SortOrder, s: seq<TodoItem>, r: seq<TodoItem>)
    requires Sorted(o, r)
    requires forall pivot :: Where(r, KeyClass(o.key, pivot)) == Where(s, KeyClass(o.key, pivot))
    ensures r == SortBy(o, s)
  {
    SortBySorted(o, s);
    forall pivot ensures Where(r, KeyClass(o.key, pivot)) == Where(SortBy(o, s), KeyClass(o.key, pivot)) {
      SortByStable(o, s, pivot);
    }
    SortedClassesDetermine(o, r, SortBy(o, s));
  }
}
