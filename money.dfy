/**
 * Decimal arithmetic helpers. The server keeps every amount of money in C#
 * `decimal`; here an amount is an exact `real`. `Math.Round(x, 2)` on a
 * decimal rounds to two places with ties going to the even neighbour
 * (banker's rounding), which is what `Round2` models.
 */
module Money {

  /** Rounds `y` to the nearest integer, ties to the even one. */
  function RoundHalfEven(y: real): (n: int)
    ensures y - 0.5 <= n as real <= y + 0.5
    ensures (n as real - y == 0.5 || y - n as real == 0.5) ==> n % 2 == 0
  {
    var f := y.Floor;
    var d := y - f as real;
    if d < 0.5 then f
    else if d > 0.5 then f + 1
    else if f % 2 == 0 then f else f + 1
  }

  /** An amount that is a whole number of cents. */
  predicate IsCents(x: real) {
    (x * 100.0).Floor as real == x * 100.0
  }

  /** `Math.Round(x, 2)` with the default midpoint rule (to even). */
  function Round2(x: real): (r: real)
    ensures IsCents(r)
    ensures -0.005 <= r - x <= 0.005
    ensures IsCents(x) ==> r == x
  {
    var n := RoundHalfEven(x * 100.0);
    WholeCents(n);
    n as real / 100.0
  }

  /** An amount exactly halfway between two cents rounds to the one with an even number of cents. */
  lemma Round2TiesToEven(x: real)
    requires var y := x * 100.0; y - y.Floor as real == 0.5
    ensures (Round2(x) * 100.0).Floor % 2 == 0
  {
    var n := RoundHalfEven(x * 100.0);
    assert (n as real / 100.0) * 100.0 == n as real;
  }

  /** A tie at the third decimal goes to the even cent: 0.125 rounds down, 0.135 up. */
  lemma Round2Ties()
    ensures Round2(0.125) == 0.12 && Round2(0.135) == 0.14
  {
    assert (12.5).Floor == 12 && (13.5).Floor == 13;
  }

  /** A whole number of cents is, in particular, an amount in cents. */
  lemma WholeCents(n: int)
    ensures IsCents(n as real / 100.0)
  {
    var c := n as real / 100.0;
    assert c * 100.0 == n as real;
    assert (n as real).Floor == n;
  }

  /** The total of a list of amounts, added up from the front. */
  function Sum(xs: seq<real>): real
  {
    if |xs| == 0 then 0.0 else Sum(xs[..|xs| - 1]) + xs[|xs| - 1]
  }

  /** Appending an amount adds it to the total. */
  lemma SumAppend(xs: seq<real>, x: real)
    ensures Sum(xs + [x]) == Sum(xs) + x
  {
    assert (xs + [x])[..|xs|] == xs;
  }

  /** Dropping the amount at index `i` subtracts it from the total. */
  lemma {:induction false} SumRemove(xs: seq<real>, i: nat)
    requires i < |xs|
    ensures Sum(xs[..i] + xs[i + 1..]) == Sum(xs) - xs[i]
    decreases |xs|
  {
    var init, last := xs[..|xs| - 1], xs[|xs| - 1];
    assert xs == init + [last];
    if i == |xs| - 1 {
      assert xs[..i] + xs[i + 1..] == init;
    } else {
      SumRemove(init, i);
      assert xs[..i] + xs[i + 1..] == (init[..i] + init[i + 1..]) + [last];
      SumAppend(init[..i] + init[i + 1..], last);
    }
  }

  /** Amounts that are each non-negative add up to a non-negative total. */
  lemma {:induction false} SumNonNegative(xs: seq<real>)
    requires forall k :: 0 <= k < |xs| ==> xs[k] >= 0.0
    ensures Sum(xs) >= 0.0
    decreases |xs|
  {
    if |xs| > 0 {
      SumNonNegative(xs[..|xs| - 1]);
    }
  }

  function Min(a: real, b: real): (m: real)
    ensures m <= a && m <= b && (m == a || m == b)
  {
    if a <= b then a else b
  }

  function Max(a: real, b: real): (m: real)
    ensures m >= a && m >= b && (m == a || m == b)
  {
    if a >= b then a else b
  }

  /** `Math.Clamp(x, lo, hi)`. */
  function Clamp(x: real, lo: real, hi: real): (c: real)
    requires lo <= hi
    ensures lo <= c <= hi
    ensures lo <= x <= hi ==> c == x
  {
    if x < lo then lo else if x > hi then hi else x
  }

  lemma RoundHalfEvenMonotone(x: real, y: real)
    requires x <= y
    ensures RoundHalfEven(x) <= RoundHalfEven(y)
  {
    var fx, fy := x.Floor, y.Floor;
    assert fx <= fy;
    if fx < fy {
      assert RoundHalfEven(x) <= fx + 1 <= fy <= RoundHalfEven(y);
    }
  }

  /** Rounding to cents never reverses the order of two amounts. */
  lemma Round2Monotone(x: real, y: real)
    requires x <= y
    ensures Round2(x) <= Round2(y)
  {
    RoundHalfEvenMonotone(x * 100.0, y * 100.0);
  }

  /** Rounding to cents never takes an amount below a whole-cent floor it is above. */
  lemma Round2AtLeast(x: real, lo: real)
    requires IsCents(lo) && lo <= x
    ensures Round2(x) >= lo
  {
    Round2Monotone(lo, x);
  }

  /** Rounding to cents keeps the sign of an amount (zero stays zero). */
  lemma Round2Sign(x: real)
    ensures x >= 0.0 ==> Round2(x) >= 0.0
    ensures x <= 0.0 ==> Round2(x) <= 0.0
  {
    assert IsCents(0.0);
    if x >= 0.0 {
      Round2Monotone(0.0, x);
    } else {
      Round2Monotone(x, 0.0);
    }
  }
}
