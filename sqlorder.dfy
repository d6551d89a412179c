/**
 * The parts of SQLite's behaviour the listing query depends on: LIKE as a
 * case-insensitive substring test, the BINARY collation of TEXT, the order of
 * values of different storage classes, and the MIN aggregate over text.
 */
module SqlOrder {
  import opened Wrappers
  import opened Text

  /** The pattern occurs at position `i` of the text, ASCII letters compared without case. */
  predicate MatchesAt(text: string, pattern: string, i: int)
    requires 0 <= i && i + |pattern| <= |text|
  {
    forall j :: 0 <= j < |pattern| ==> LowerChar(text[i + j]) == LowerChar(pattern[j])
  }

  /**
   * `text LIKE '%' || pattern || '%'` for a pattern without `%` or `_`:
   * SQLite's LIKE folds the case of ASCII letters only.
   */
  predicate Like(text: string, pattern: string) {
    exists i :: 0 <= i && i + |pattern| <= |text| && MatchesAt(text, pattern, i)
  }

  /** A literal occurrence of the pattern is found, whatever surrounds it. */
  lemma LikeFindsOccurrence(before: string, pattern: string, after: string)
    ensures Like(before + pattern + after, pattern)
  {
    var t := before + pattern + after;
    forall j | 0 <= j < |pattern| ensures LowerChar(t[|before| + j]) == LowerChar(pattern[j]) {
      assert t[|before| + j] == pattern[j];
    }
    assert MatchesAt(t, pattern, |before|);
  }

  /** Matching does not depend on the case of ASCII letters in either string. */
  lemma LikeIgnoresAsciiCase(text: string, pattern: string)
    ensures Like(text, pattern) <==> Like(LowerAscii(text), LowerAscii(pattern))
  {
    var lt, lp := LowerAscii(text), LowerAscii(pattern);
    forall i | 0 <= i && i + |pattern| <= |text|
      ensures MatchesAt(text, pattern, i) <==> MatchesAt(lt, lp, i)
    {
      forall j | 0 <= j < |pattern|
        ensures LowerChar(lt[i + j]) == LowerChar(text[i + j]) && LowerChar(lp[j]) == LowerChar(pattern[j])
      {
      }
    }
    if Like(text, pattern) {
      var i :| 0 <= i && i + |pattern| <= |text| && MatchesAt(text, pattern, i);
      assert MatchesAt(lt, lp, i);
    }
    if Like(lt, lp) {
      var i :| 0 <= i && i + |lp| <= |lt| && MatchesAt(lt, lp, i);
      assert MatchesAt(text, pattern, i);
    }
  }

  /** The BINARY collation: code point by code point, a proper prefix first. */
  function LexLeq(a: string, b: string): bool {
    if a == [] then true
    else if b == [] then false
    else if a[0] != b[0] then a[0] < b[0]
    else LexLeq(a[1..], b[1..])
  }

  lemma {:induction false} LexLeqReflexive(a: string)
    ensures LexLeq(a, a)
  {
    if a != [] {
      LexLeqReflexive(a[1..]);
    }
  }

  lemma {:induction false} LexLeqTotal(a: string, b: string)
    ensures LexLeq(a, b) || LexLeq(b, a)
  {
    if a != [] && b != [] && a[0] == b[0] {
      LexLeqTotal(a[1..], b[1..]);
    }
  }

  lemma {:induction false} LexLeqTransitive(a: string, b: string, c: string)
    requires LexLeq(a, b) && LexLeq(b, c)
    ensures LexLeq(a, c)
  {
    if a != [] && b != [] && c != [] && a[0] == b[0] == c[0] {
      LexLeqTransitive(a[1..], b[1..], c[1..]);
    }
  }

  lemma {:induction false} LexLeqAntisymmetric(a: string, b: string)
    requires LexLeq(a, b) && LexLeq(b, a)
    ensures a == b
  {
    if a != [] && b != [] {
      LexLeqAntisymmetric(a[1..], b[1..]);
      assert a == [a[0]] + a[1..] && b == [b[0]] + b[1..];
    }
  }

  /** A value as SQLite orders it: NULL before INTEGER before TEXT. */
  datatype SqlValue = NullValue | IntValue(i: int) | TextValue(t: string)

  function StorageRank(v: SqlValue): int {
    match v
    case NullValue => 0
    case IntValue(_) => 1
    case TextValue(_) => 2
  }

  /** `a <= b` in an ORDER BY ... ASC over the BINARY collation. */
  predicate SqlLeq(a: SqlValue, b: SqlValue) {
    if StorageRank(a) != StorageRank(b) then StorageRank(a) < StorageRank(b)
    else match a
      case NullValue => true
      case IntValue(x) => x <= b.i
      case TextValue(s) => LexLeq(s, b.t)
  }

  lemma SqlLeqTotal(a: SqlValue, b: SqlValue)
    ensures SqlLeq(a, b) || SqlLeq(b, a)
  {
    if a.TextValue? && b.TextValue? {
      LexLeqTotal(a.t, b.t);
    }
  }

  lemma SqlLeqTransitive(a: SqlValue, b: SqlValue, c: SqlValue)
    requires SqlLeq(a, b) && SqlLeq(b, c)
    ensures SqlLeq(a, c)
  {
    if a.TextValue? && b.TextValue? && c.TextValue? {
      LexLeqTransitive(a.t, b.t, c.t);
    }
  }

  /** `MIN(x)` over non-NULL text values: NULL when there are none. */
  function MinText(ts: seq<string>): (m: Option<string>)
    ensures m.None? <==> ts == []
    ensures m.Some? ==> (exists k :: 0 <= k < |ts| && ts[k] == m.value)
    ensures m.Some? ==> forall k :: 0 <= k < |ts| ==> LexLeq(m.value, ts[k])
  {
    if ts == [] then None
    else
      var rest := MinText(ts[1..]);
      if rest.None? then
        LexLeqReflexive(ts[0]);
        assert |ts| == 1;
        Some(ts[0])
      else
        LexLeqTotal(ts[0], rest.value);
        var m := if LexLeq(ts[0], rest.value) then ts[0] else rest.value;
        LexLeqReflexive(ts[0]);
        assert forall k :: 0 <= k < |ts| ==> LexLeq(m, ts[k]) by {
          forall k | 0 <= k < |ts| ensures LexLeq(m, ts[k]) {
            if k > 0 {
              assert ts[k] == ts[1..][k - 1];
              if m != rest.value {
                LexLeqTransitive(m, rest.value, ts[k]);
              }
            }
          }
        }
        Some(m)
  }
}
