/** Character and string operations the query pipeline relies on: `char.IsWhiteSpace`
    (through `string.IsNullOrWhiteSpace`), ordinal case-insensitive equality and
    containment (`StringComparison.OrdinalIgnoreCase`), `ToLower`, and an ordinal
    lexicographic order on strings for sorting by title. Case folding is modelled on
    ASCII letters only. */
module Text {
  import opened Wrappers

  /** The characters `char.IsWhiteSpace` accepts (Unicode White_Space). */
  predicate IsWhiteSpace(c: char) {
    || '\U{0009}' <= c <= '\U{000D}'
    || c == '\U{0020}'
    || c == '\U{0085}'
    || c == '\U{00A0}'
    || c == '\U{1680}'
    || '\U{2000}' <= c <= '\U{200A}'
    || c == '\U{2028}'
    || c == '\U{2029}'
    || c == '\U{202F}'
    || c == '\U{205F}'
    || c == '\U{3000}'
  }

  /** `string.IsNullOrWhiteSpace`: absent, empty, or made only of white space. */
  predicate IsNullOrWhiteSpace(s: Option<string>) {
    match s
    case None => true
    case Some(t) => forall i :: 0 <= i < |t| ==> IsWhiteSpace(t[i])
  }

  /** Folds an ASCII upper-case letter to lower case; every other character is kept. */
  function FoldChar(c: char): (r: char)
    ensures 'A' <= c <= 'Z' ==> 'a' <= r <= 'z' && r as int - c as int == 32
    ensures !('A' <= c <= 'Z') ==> r == c
  {
    if 'A' <= c <= 'Z' then (c as int + 32) as char else c
  }

  /** `ToLower`, on ASCII letters. */
  function ToLower(s: string): (r: string)
    ensures |r| == |s|
    ensures forall i :: 0 <= i < |s| ==> r[i] == FoldChar(s[i])
  {
    seq(|s|, i requires 0 <= i < |s| => FoldChar(s[i]))
  }

  /** `string.Equals(a, b, StringComparison.OrdinalIgnoreCase)` for two present strings:
      same length and the same characters up to case. */
  predicate EqualsIgnoreCase(a: string, b: string) {
    |a| == |b| && forall i :: 0 <= i < |a| ==> FoldChar(a[i]) == FoldChar(b[i])
  }

  /** Case-insensitive equality is equality of the lower-cased strings. */
  lemma EqualsIgnoreCaseIsLowerEquality(a: string, b: string)
    ensures EqualsIgnoreCase(a, b) <==> ToLower(a) == ToLower(b)
  {
    if ToLower(a) == ToLower(b) {
      assert |a| == |b|;
      forall i | 0 <= i < |a| ensures FoldChar(a[i]) == FoldChar(b[i]) {
        assert ToLower(a)[i] == ToLower(b)[i];
      }
    }
  }

  /** `needle` occurs in `haystack` at position `i`, up to case. */
  predicate MatchesAt(haystack: string, needle: string, i: int) {
    0 <= i && i + |needle| <= |haystack| && EqualsIgnoreCase(haystack[i..i + |needle|], needle)
  }

  /** `haystack.Contains(needle, StringComparison.OrdinalIgnoreCase)`: some window of
      `haystack` equals `needle` up to case. The empty needle is contained everywhere. */
  predicate ContainsIgnoreCase(haystack: string, needle: string) {
    exists i | 0 <= i <= |haystack| :: MatchesAt(haystack, needle, i)
  }

  /** The lower-cased `needle` occurs at position `i` of the lower-cased `haystack`. */
  predicate LowerOccursAt(haystack: string, needle: string, i: int) {
    0 <= i && i + |needle| <= |haystack| && ToLower(haystack)[i..i + |needle|] == ToLower(needle)
  }

  /** Case-insensitive containment is containment of the lower-cased needle in the
      lower-cased haystack. */
  lemma ContainsIgnoreCaseIsLowerContainment(haystack: string, needle: string)
    ensures ContainsIgnoreCase(haystack, needle) <==> exists i :: LowerOccursAt(haystack, needle, i)
  {
    forall i ensures MatchesAt(haystack, needle, i) <==> LowerOccursAt(haystack, needle, i) {
      if 0 <= i && i + |needle| <= |haystack| {
        EqualsIgnoreCaseIsLowerEquality(haystack[i..i + |needle|], needle);
        assert ToLower(haystack[i..i + |needle|]) == ToLower(haystack)[i..i + |needle|];
      }
    }
  }

  /** Ordinal lexicographic order on strings: a proper prefix comes first, otherwise the
      first differing character decides. */
  predicate StrLe(a: string, b: string) {
    if a == [] then true
    else if b == [] then false
    else if a[0] != b[0] then a[0] < b[0]
    else StrLe(a[1..], b[1..])
  }

  lemma {:induction false} StrLeReflexive(a: string)
    ensures StrLe(a, a)
  {
    if a != [] {
      StrLeReflexive(a[1..]);
    }
  }

  lemma {:induction false} StrLeTotal(a: string, b: string)
    ensures StrLe(a, b) || StrLe(b, a)
  {
    if a != [] && b != [] && a[0] == b[0] {
      StrLeTotal(a[1..], b[1..]);
    }
  }

  lemma {:induction false} StrLeTransitive(a: string, b: string, c: string)
    requires StrLe(a, b) && StrLe(b, c)
    ensures StrLe(a, c)
  {
    if a != [] && b != [] && c != [] && a[0] == b[0] && b[0] == c[0] {
      StrLeTransitive(a[1..], b[1..], c[1..]);
    }
  }

  lemma {:induction false} StrLeAntisymmetric(a: string, b: string)
    requires StrLe(a, b) && StrLe(b, a)
    ensures a == b
  {
    if a != [] && b != [] {
      StrLeAntisymmetric(a[1..], b[1..]);
      assert a == [a[0]] + a[1..] && b == [b[0]] + b[1..];
    }
  }
}
