/** Generic sequence filtering, the model of LINQ's `Where` (and of `FirstOrDefault`'s
    and `ToList`'s order-preserving walk over a list). */
module Seqs {

  /** The elements of `s` that satisfy `p`, in their original order. */
  function Where<T>(s: seq<T>, p: T -> bool): (r: seq<T>)
    ensures |r| <= |s|
    ensures forall x :: x in r ==> x in s && p(x)
  {
    if s == [] then [] else (if p(s[0]) then [s[0]] else []) + Where(s[1..], p)
  }

  /** Filtering distributes over concatenation: the kept elements of `a` come before
      the kept elements of `b`, so the relative order of kept elements is unchanged. */
  lemma {:induction false} WhereAppend<T>(a: seq<T>, b: seq<T>, p: T -> bool)
    ensures Where(a + b, p) == Where(a, p) + Where(b, p)
  {
    if a == [] {
      assert a + b == b;
    } else {
      assert (a + b)[0] == a[0];
      assert (a + b)[1..] == a[1..] + b;
      WhereAppend(a[1..], b, p);
    }
  }

  /** Every element is kept exactly as often as it occurs, if it satisfies `p`,
      and dropped entirely otherwise. */
  lemma {:induction false} WhereMultiset<T>(s: seq<T>, p: T -> bool, x: T)
    ensures multiset(Where(s, p))[x] == if p(x) then multiset(s)[x] else 0
  {
    if s != [] {
      WhereMultiset(s[1..], p, x);
      assert s == [s[0]] + s[1..];
    }
  }

  /** An element is kept if and only if it occurs and satisfies `p`. */
  lemma WhereMembership<T>(s: seq<T>, p: T -> bool, x: T)
    ensures x in Where(s, p) <==> x in s && p(x)
  {
    WhereMultiset(s, p, x);
  }

  /** The conjunction of two filters. */
  function And<T>(p: T -> bool, q: T -> bool): T -> bool {
    (x: T) => p(x) && q(x)
  }

  /** Two successive filters are one filter by their conjunction `pq`. */
  lemma {:induction false} WhereWhere<T>(s: seq<T>, p: T -> bool, q: T -> bool, pq: T -> bool)
    requires forall x :: pq(x) == (p(x) && q(x))
    ensures Where(Where(s, p), q) == Where(s, pq)
  {
    if s != [] {
      WhereWhere(s[1..], p, q, pq);
      var head := if p(s[0]) then [s[0]] else [];
      WhereAppend(head, Where(s[1..], p), q);
    }
  }

  /** Filters that agree on every element of `s` give the same result. */
  lemma {:induction false} WhereExtensional<T>(s: seq<T>, p: T -> bool, q: T -> bool)
    requires forall i :: 0 <= i < |s| ==> p(s[i]) == q(s[i])
    ensures Where(s, p) == Where(s, q)
  {
    if s != [] {
      WhereExtensional(s[1..], p, q);
    }
  }

  /** A filter that every element passes keeps the whole sequence. */
  lemma {:induction false} WhereAll<T>(s: seq<T>, p: T -> bool)
    requires forall i :: 0 <= i < |s| ==> p(s[i])
    ensures Where(s, p) == s
  {
    if s != [] {
      WhereAll(s[1..], p);
    }
  }

  /** Lists with the same head that filter alike have tails that filter alike. */
  lemma WhereTail<T>(r: seq<T>, t: seq<T>, p: T -> bool)
    requires r != [] && t != [] && r[0] == t[0] && Where(r, p) == Where(t, p)
    ensures Where(r[1..], p) == Where(t[1..], p)
  {
    var head := if p(r[0]) then [r[0]] else [];
    assert Where(r[1..], p) == (head + Where(r[1..], p))[|head|..];
    assert Where(t[1..], p) == (head + Where(t[1..], p))[|head|..];
  }

  /** A head that passes the filter heads the result. */
  lemma WhereKeepsHead<T>(s: seq<T>, p: T -> bool)
    requires s != [] && p(s[0])
    ensures Where(s, p) != [] && Where(s, p)[0] == s[0]
  {
  }
}
