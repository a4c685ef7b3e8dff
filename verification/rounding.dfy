/** Python 3's built-in `round` of a number to an integer, on exact values:
    the nearest integer, and on an exact tie the even one. */
module Rounding {

  function Round(x: real): (r: int)
    ensures -0.5 <= x - r as real <= 0.5
    ensures x - r as real == 0.5 || x - r as real == -0.5 ==> r % 2 == 0
  {
    var f := x.Floor;
    var frac := x - f as real;
    if frac < 0.5 then f
    else if frac > 0.5 then f + 1
    else if f % 2 == 0 then f
    else f + 1
  }

  /** The two clauses of Round's contract determine the result: any integer
      that is nearest and, on a tie, even, is `Round(x)`. */
  lemma RoundUnique(x: real, k: int)
    requires -0.5 <= x - k as real <= 0.5
    requires x - k as real == 0.5 || x - k as real == -0.5 ==> k % 2 == 0
    ensures k == Round(x)
  {
  }

  lemma RoundOfInteger(n: int)
    ensures Round(n as real) == n
  {
    RoundUnique(n as real, n);
  }

  lemma RoundMonotone(x: real, y: real)
    requires x <= y
    ensures Round(x) <= Round(y)
  {
  }

  /** A value between two integers rounds to a value between them. */
  lemma RoundWithin(x: real, lo: int, hi: int)
    requires lo as real <= x <= hi as real
    ensures lo <= Round(x) <= hi
  {
    RoundMonotone(lo as real, x);
    RoundMonotone(x, hi as real);
    RoundOfInteger(lo);
    RoundOfInteger(hi);
  }
}
