/** Python's round, on reals. */
module Rounding {

  /** The nearest integer, halves to the even one. */
  function RoundHalfEven(x: real): (r: int)
    ensures x - 0.5 <= r as real <= x + 0.5
  {
    var low := x.Floor;
    var rest := x - low as real;
    if rest < 0.5 then low
    else if rest > 0.5 then low + 1
    else if low % 2 == 0 then low
    else low + 1
  }

  lemma RoundHalfEvenMonotone(x: real, y: real)
    requires x <= y
    ensures RoundHalfEven(x) <= RoundHalfEven(y)
  {
    assert x.Floor <= y.Floor;
  }

  lemma RoundHalfEvenFixes(n: int)
    ensures RoundHalfEven(n as real) == n
  {
  }

  /** round(x, 2) */
  function Round2(x: real): real { RoundHalfEven(x * 100.0) as real / 100.0 }

  /** round(x, 3) */
  function Round3(x: real): real { RoundHalfEven(x * 1000.0) as real / 1000.0 }

  /** round(x, 4) */
  function Round4(x: real): real { RoundHalfEven(x * 10000.0) as real / 10000.0 }

  lemma RoundsMonotone(x: real, y: real)
    requires x <= y
    ensures Round2(x) <= Round2(y) && Round3(x) <= Round3(y) && Round4(x) <= Round4(y)
  {
    hide RoundHalfEven;
    RoundHalfEvenMonotone(x * 100.0, y * 100.0);
    RoundHalfEvenMonotone(x * 1000.0, y * 1000.0);
    RoundHalfEvenMonotone(x * 10000.0, y * 10000.0);
  }

  /** A value with at most three decimals is its own rounding. */
  lemma Round3Fixes(n: int)
    ensures Round3(n as real / 1000.0) == n as real / 1000.0
  {
    RoundHalfEvenFixes(n);
    assert n as real / 1000.0 * 1000.0 == n as real;
  }

  lemma Round4Fixes(n: int)
    ensures Round4(n as real / 10000.0) == n as real / 10000.0
  {
    RoundHalfEvenFixes(n);
    assert n as real / 10000.0 * 10000.0 == n as real;
  }

  /** Every value that reaches a minimum still reaches it after rounding, exactly when the minimum itself does not round
      down. */
  lemma MinimumSurvivesRounding3(minimum: real)
    ensures Round3(minimum) >= minimum <==> forall x :: x >= minimum ==> Round3(x) >= minimum
  {
    forall x | x >= minimum && Round3(minimum) >= minimum ensures Round3(x) >= minimum {
      RoundsMonotone(minimum, x);
    }
  }

  lemma MinimumSurvivesRounding4(minimum: real)
    ensures Round4(minimum) >= minimum <==> forall x :: x >= minimum ==> Round4(x) >= minimum
  {
    forall x | x >= minimum && Round4(minimum) >= minimum ensures Round4(x) >= minimum {
      RoundsMonotone(minimum, x);
    }
  }
}
