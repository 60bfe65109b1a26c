/**
 * Amount arithmetic and rendering: multiplication that propagates `NaN`,
 * rounding to cents with `Math.round`, and the decimal-comma rewrite.
 */
module Amounts {
  import opened Rows

  /** JavaScript `*`: `NaN` if either side is `NaN`. */
  function Times(a: Num, b: Num): (r: Num)
    ensures r.NaN? <==> a.NaN? || b.NaN?
    ensures r.Fin? ==> r.v == a.v * b.v
  {
    if a.NaN? || b.NaN? then NaN else Fin(a.v * b.v)
  }

  /** `r` is a whole number of cents. */
  predicate IsCents(r: real) {
    (r * 100.0).Floor as real == r * 100.0
  }

  /**
   * `Math.round(x * 100) / 100`: `Math.round` rounds half toward +infinity, so
   * the result is the whole number of cents in the window (x - 0.005, x + 0.005].
   */
  function RoundCents(x: real): (r: real)
    ensures IsCents(r)
    ensures x - 0.005 < r <= x + 0.005
  {
    var n := (x * 100.0 + 0.5).Floor;
    assert n as real * 100.0 / 100.0 == n as real;
    n as real / 100.0
  }

  /** The window (x - 0.005, x + 0.005] holds one whole number of cents only. */
  lemma RoundCentsUnique(x: real, c: real)
    requires IsCents(c) && x - 0.005 < c <= x + 0.005
    ensures c == RoundCents(x)
  {
    var k := (c * 100.0).Floor;
    var n := (x * 100.0 + 0.5).Floor;
    assert k as real <= x * 100.0 + 0.5 < k as real + 1.0;
    assert n == k;
  }

  /** A value already in whole cents is left as it is. */
  lemma RoundCentsKeepsCents(c: real)
    requires IsCents(c)
    ensures RoundCents(c) == c
  {
    RoundCentsUnique(c, c);
  }

  /** Halves of a cent go up, also below zero: 0.005 becomes 0.01 and -0.005 becomes 0. */
  lemma RoundCentsHalfUp()
    ensures RoundCents(0.005) == 0.01
    ensures RoundCents(-0.005) == 0.0
  {
    assert IsCents(0.01) && IsCents(0.0);
    RoundCentsUnique(0.005, 0.01);
    RoundCentsUnique(-0.005, 0.0);
  }

  /** `roundAmount`: rounds a finite amount to cents and leaves `NaN` as `NaN`. */
  function RoundAmount(a: Num): (r: Num)
    ensures r.NaN? <==> a.NaN?
    ensures r.Fin? ==> IsCents(r.v) && a.v - 0.005 < r.v <= a.v + 0.005
  {
    if a.NaN? then NaN else Fin(RoundCents(a.v))
  }

  /** Reference definition: index of the first `c` in `s`, or `|s|` if there is none. */
  function IndexOf(s: string, c: char): (i: nat)
    ensures i <= |s|
    ensures i < |s| ==> s[i] == c
    ensures forall j :: 0 <= j < i ==> s[j] != c
  {
    if |s| == 0 then 0
    else if s[0] == c then 0
    else 1 + IndexOf(s[1..], c)
  }

  /** `String.prototype.replace` with a one-character pattern: the first `from` becomes `to`. */
  function ReplaceFirst(s: string, from: char, to: char): (r: string)
    ensures |r| == |s|
    ensures forall i :: 0 <= i < |s| ==> r[i] == if i == IndexOf(s, from) then to else s[i]
  {
    if |s| == 0 then s
    else if s[0] == from then [to] + s[1..]
    else [s[0]] + ReplaceFirst(s[1..], from, to)
  }

  /**
   * `formatAmount` applied to the text `String(amount)`: the first `.` becomes
   * a decimal comma; a text without `.` is returned unchanged.
   */
  function FormatAmount(shown: string): (r: string)
    ensures |r| == |shown|
    ensures '.' !in shown ==> r == shown
    ensures '.' in shown ==> r[IndexOf(shown, '.')] == ','
    ensures forall i :: 0 <= i < |shown| && i != IndexOf(shown, '.') ==> r[i] == shown[i]
  {
    ReplaceFirst(shown, '.', ',')
  }

  /** Only the first point is rewritten: a second one survives. */
  lemma FormatAmountKeepsLaterPoints(shown: string, i: int)
    requires 0 <= i < |shown| && shown[i] == '.' && i != IndexOf(shown, '.')
    ensures FormatAmount(shown)[i] == '.'
  {
  }

  /**
   * `String(n)` for a JavaScript number; `show` stands for the runtime's
   * digit rendering of a finite value.
   */
  function Show(show: real -> string, n: Num): (r: string)
    ensures n.NaN? ==> r == "NaN" && FormatAmount(r) == r
    ensures n.Fin? ==> r == show(n.v)
  {
    if n.NaN? then "NaN" else show(n.v)
  }
}
