/** Facts about a numeric price series (a pandas Series after `dropna()`), as exact reals. */
module Series {

  /** Every value is strictly positive: the standing assumption on prices. */
  predicate AllPositive(s: seq<real>)
  {
    forall i :: 0 <= i < |s| ==> s[i] > 0.0
  }

  /** No value is smaller than one before it. */
  predicate NonDecreasing(s: seq<real>)
  {
    forall i, j :: 0 <= i < j < |s| ==> s[i] <= s[j]
  }

  /** `s.max()`: an upper bound of the series that the series attains. */
  function Max(s: seq<real>): (m: real)
    requires |s| > 0
    ensures forall i :: 0 <= i < |s| ==> s[i] <= m
    ensures exists i :: 0 <= i < |s| && s[i] == m
  {
    if |s| == 1 then s[0]
    else
      var m' := Max(s[..|s| - 1]);
      if s[|s| - 1] > m' then s[|s| - 1] else m'
  }

  /** `s.min()`: a lower bound of the series that the series attains. */
  function Min(s: seq<real>): (m: real)
    requires |s| > 0
    ensures forall i :: 0 <= i < |s| ==> m <= s[i]
    ensures exists i :: 0 <= i < |s| && s[i] == m
  {
    if |s| == 1 then s[0]
    else
      var m' := Min(s[..|s| - 1]);
      if s[|s| - 1] < m' then s[|s| - 1] else m'
  }

  /** `s.iloc[-1]`. */
  function Last(s: seq<real>): real
    requires |s| > 0
  {
    s[|s| - 1]
  }

  /** Division of a positive price by a maximum at least as large. */
  lemma RatioBounds(a: real, b: real)
    requires 0.0 < a <= b
    ensures 0.0 < a / b <= 1.0
    ensures a / b == 1.0 <==> a == b
  {
    assert a / b * b == a;
  }

  /** Dividing a positive price by a larger divisor gives a smaller quotient. */
  lemma DivAntitone(a: real, b: real, c: real)
    requires 0.0 < a && 0.0 < b <= c
    ensures a / c <= a / b
  {
    assert a / c * c == a && a / b * b == a;
    assert a / c * b <= a / c * c;
  }
}
