/** The scalar values the rule engine compares: a fact's value on one side, the
    value written in a rule's condition on the other. */
module Values {
  import opened Optional

  /** A Python scalar as it arrives from the applicant form or from the rule JSON:
      an int or float (kept exact as a real), a bool, a str, or None. */
  datatype Value = Num(n: real) | Bool(b: bool) | Str(s: string) | Null

  /** Python's bool is a subclass of int, so a bool takes part in numeric
      comparisons as 1 or 0; no other kind of value is numeric. */
  function Numeric(v: Value): Option<real> {
    match v
    case Num(x) => Some(x)
    case Bool(b) => Some(if b then 1.0 else 0.0)
    case _ => None
  }

  /** Three-way comparison of two strings, code point by code point, the way
      CPython orders `str` values: negative, zero or positive. */
  function StrCmp(a: string, b: string): (c: int)
    ensures -1 <= c <= 1
    ensures c == 0 <==> a == b
    decreases |a|
  {
    if |a| == 0 && |b| == 0 then 0
    else if |a| == 0 then -1
    else if |b| == 0 then 1
    else if a[0] < b[0] then -1
    else if b[0] < a[0] then 1
    else
      var c := StrCmp(a[1..], b[1..]);
      assert a == [a[0]] + a[1..] && b == [b[0]] + b[1..];
      c
  }

  /** Swapping the operands of a string comparison negates its result. */
  lemma {:induction false} StrCmpAntisymmetric(a: string, b: string)
    ensures StrCmp(b, a) == -StrCmp(a, b)
    decreases |a|
  {
    if |a| > 0 && |b| > 0 && a[0] == b[0] {
      StrCmpAntisymmetric(a[1..], b[1..]);
    }
  }

  /** The order is lexicographic by code point: a proper prefix comes first,
      and otherwise the first differing character decides. */
  lemma {:induction false} StrCmpLexicographic(a: string, b: string)
    ensures a < b ==> StrCmp(a, b) == -1
    ensures forall k :: 0 <= k < |a| && k < |b| && a[..k] == b[..k] && a[k] < b[k] ==> StrCmp(a, b) == -1
    decreases |a|
  {
    if |a| > 0 && |b| > 0 && a[0] == b[0] {
      StrCmpLexicographic(a[1..], b[1..]);
      if a < b {
        assert a[1..] < b[1..];
      }
      forall k | 0 <= k < |a| && k < |b| && a[..k] == b[..k] && a[k] < b[k]
        ensures StrCmp(a, b) == -1
      {
        assert k > 0;
        assert a[1..][..k - 1] == a[1..k] == b[1..k] == b[1..][..k - 1];
        assert a[1..][k - 1] < b[1..][k - 1];
      }
    }
  }

  /** Ordering on strings is transitive: a < b and b < c give a < c. */
  lemma {:induction false} StrCmpTransitive(a: string, b: string, c: string)
    requires StrCmp(a, b) < 0 && StrCmp(b, c) < 0
    ensures StrCmp(a, c) < 0
    decreases |a|
  {
    if |a| > 0 && |b| > 0 && |c| > 0 && a[0] == b[0] && b[0] == c[0] {
      StrCmpTransitive(a[1..], b[1..], c[1..]);
    }
  }

  /** True when Python can order `a` against `b` (`<`, `<=`, `>`, `>=`) without
      raising TypeError: both numeric (bools included) or both strings. */
  predicate Orderable(a: Value, b: Value) {
    (Numeric(a).Some? && Numeric(b).Some?) || (a.Str? && b.Str?)
  }

  /** Python's `a == b` on scalars: numbers (bools included) by value, strings
      by contents, None only with None; values of different kinds are unequal
      and never raise. */
  function Equal(a: Value, b: Value): (r: bool)
    ensures r <==> a == b || (Numeric(a).Some? && Numeric(b).Some? && Numeric(a).value == Numeric(b).value)
  {
    if Numeric(a).Some? && Numeric(b).Some? then Numeric(a).value == Numeric(b).value
    else if a.Str? && b.Str? then a.s == b.s
    else a.Null? && b.Null?
  }

  /** Python's `==` on scalars is an equivalence: reflexive (by `Equal`'s
      contract), symmetric and transitive. */
  lemma EqualIsEquivalence(a: Value, b: Value, c: Value)
    ensures Equal(a, b) == Equal(b, a)
    ensures Equal(a, b) && Equal(b, c) ==> Equal(a, c)
  {
  }
}
