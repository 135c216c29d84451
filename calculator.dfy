/**
 * Scoring calculator: the score of one round from a call and the tricks won, the running
 * total, the (unused) decimal-overflow rule and the one-decimal display form.
 */
module Calculator {
  import opened Wrappers
  import Js

  /** A number with at most one decimal: ten times it is an integer. */
  predicate IsTenths(x: real)
  {
    Js.IsInteger(x * 10.0)
  }

  /** A number with at most two decimals. */
  predicate IsHundredths(x: real)
  {
    Js.IsInteger(x * 100.0)
  }

  /**
   * `calculateRoundScore(call, result)`: a failed call costs the call, a call met exactly
   * earns the call, and every trick above the call adds 0.1.
   */
  function CalculateRoundScore(call: real, result: real): (r: real)
  {
    if result < call then -call
    else if result == call then call
    else call + (result - call) * 0.1
  }

  /**
   * For a call of at least 1 the score is never 0, it is negative exactly when the call
   * failed, it equals the call exactly when the call was met, and it exceeds the call
   * exactly when tricks were won above it.
   */
  lemma RoundScoreOutcome(call: real, result: real)
    requires call >= 1.0
    ensures CalculateRoundScore(call, result) != 0.0
    ensures CalculateRoundScore(call, result) < 0.0 <==> result < call
    ensures result < call ==> CalculateRoundScore(call, result) == -call
    ensures CalculateRoundScore(call, result) == call <==> result == call
    ensures CalculateRoundScore(call, result) > call <==> result > call
  {
  }

  /**
   * With whole-number inputs the score is ten times a whole number of tenths: the call in whole
   * points and one tenth per overtrick, so `10 * score == 10 * call + (result - call)`.
   */
  lemma RoundScoreInTenths(call: int, result: int)
    requires result > call
    ensures CalculateRoundScore(call as real, result as real) * 10.0 == (10 * call + (result - call)) as real
    ensures IsTenths(CalculateRoundScore(call as real, result as real))
  {
    var r := CalculateRoundScore(call as real, result as real);
    assert r == call as real + (result - call) as real * 0.1;
    assert r * 10.0 == (10 * call + (result - call)) as real;
    Js.IntegerValued(r * 10.0, 10 * call + (result - call));
  }

  /** Every score from whole-number inputs has at most one decimal. */
  lemma RoundScoreIsTenths(call: int, result: int)
    ensures IsTenths(CalculateRoundScore(call as real, result as real))
  {
    var r := CalculateRoundScore(call as real, result as real);
    if result > call {
      RoundScoreInTenths(call, result);
    } else if result == call {
      assert r * 10.0 == (10 * call) as real;
      Js.IntegerValued(r * 10.0, 10 * call);
    } else {
      assert r * 10.0 == (-10 * call) as real;
      Js.IntegerValued(r * 10.0, -10 * call);
    }
  }

  /** Within the rules (calls 1..13, tricks 0..13) a round's score lies in [-13, 13]. */
  lemma RoundScoreRange(call: int, result: int)
    requires 1 <= call <= 13 && 0 <= result <= 13
    ensures -13.0 <= CalculateRoundScore(call as real, result as real) <= 13.0
    ensures result > call ==> CalculateRoundScore(call as real, result as real) < call as real + 1.3
  {
  }

  /**
   * `calculateCumulativeScore`: the plain sum rounded to two decimals; no overflow carry.
   * The rounding never moves the sum by more than half a hundredth.
   */
  function CalculateCumulativeScore(previousCumulative: real, roundScore: real): (r: real)
    ensures -0.005 < r - (previousCumulative + roundScore) <= 0.005
  {
    Js.RoundTo2(previousCumulative + roundScore)
  }

  /** On scores with at most two decimals the running total is the exact sum. */
  lemma CumulativeIsExactSum(previousCumulative: real, roundScore: real)
    requires IsHundredths(previousCumulative) && IsHundredths(roundScore)
    ensures CalculateCumulativeScore(previousCumulative, roundScore) == previousCumulative + roundScore
  {
    var a, b := (previousCumulative * 100.0).Floor, (roundScore * 100.0).Floor;
    assert previousCumulative == a as real / 100.0;
    assert roundScore == b as real / 100.0;
    assert previousCumulative + roundScore == (a + b) as real / 100.0;
    Js.RoundTo2OfHundredths(a + b);
  }

  /** Tenths-valued scores stay tenths-valued when accumulated, with no carry. */
  lemma CumulativeOfTenths(previousCumulative: real, roundScore: real)
    requires IsTenths(previousCumulative) && IsTenths(roundScore)
    ensures CalculateCumulativeScore(previousCumulative, roundScore) == previousCumulative + roundScore
    ensures IsTenths(CalculateCumulativeScore(previousCumulative, roundScore))
  {
    var a, b := (previousCumulative * 10.0).Floor, (roundScore * 10.0).Floor;
    assert previousCumulative * 100.0 == (10 * a) as real;
    assert roundScore * 100.0 == (10 * b) as real;
    Js.IntegerValued(previousCumulative * 100.0, 10 * a);
    Js.IntegerValued(roundScore * 100.0, 10 * b);
    CumulativeIsExactSum(previousCumulative, roundScore);
    assert (previousCumulative + roundScore) * 10.0 == (a + b) as real;
    Js.IntegerValued((previousCumulative + roundScore) * 10.0, a + b);
  }

  /** The fractional part, in hundredths, that `applyDecimalOverflow` tests against 130. */
  function OverflowDecimal(score: real): (r: int)
  {
    var roundedScore := Js.RoundTo2(score);
    var base := roundedScore.Floor;
    Js.MathRound((roundedScore - base as real) * 100.0)
  }

  /**
   * `applyDecimalOverflow(score)`, as written: round to two places, then carry 1.30 of
   * fractional part into one point when the fraction in hundredths is at least 130.
   * No caller in the engine uses it.
   */
  function ApplyDecimalOverflow(score: real): (r: real)
  {
    var roundedScore := Js.RoundTo2(score);
    var base := roundedScore.Floor;
    var decimal := OverflowDecimal(score);
    if decimal >= 130 then Carry(base, decimal) else roundedScore
  }

  /** The carry `applyDecimalOverflow` would make: every 130 hundredths become one point. */
  function Carry(base: int, decimal: int): (r: real)
  {
    var fullPoints := decimal / 130;
    var remaining := decimal % 130;
    base as real + fullPoints as real + remaining as real / 100.0
  }

  /**
   * The fraction in hundredths is always in [0, 100), so the carry branch can never run and
   * `applyDecimalOverflow` is two-place rounding and nothing more.
   */
  lemma OverflowBranchIsDead(score: real)
    ensures 0 <= OverflowDecimal(score) < 100
    ensures ApplyDecimalOverflow(score) == Js.RoundTo2(score)
  {
    var k := Js.MathRound(score * 100.0);
    var roundedScore := Js.RoundTo2(score);
    assert roundedScore == k as real / 100.0;
    var base := roundedScore.Floor;
    assert base == k / 100 by {
      var q := k / 100;
      assert k == 100 * q + k % 100;
      assert q as real <= roundedScore < (q + 1) as real;
    }
    assert (roundedScore - base as real) * 100.0 == (k % 100) as real;
    Js.MathRoundOfInteger(k % 100);
  }

  /** The documented example "8.13 -> 9.03" does not happen: 8.13 comes back unchanged. */
  lemma OverflowDocExampleFails()
    ensures ApplyDecimalOverflow(8.13) == 8.13
  {
    OverflowBranchIsDead(8.13);
    Js.RoundTo2OfHundredths(813);
    assert 813 as real / 100.0 == 8.13;
  }

  /** `formatScore(score)`: `score.toFixed(1)`. */
  function FormatScore(score: real): (r: string)
  {
    Js.ToFixed(score, 1)
  }

  /** The display form has exactly one digit after its only decimal point. */
  lemma FormatScoreOneDecimal(score: real)
    ensures var s := FormatScore(score);
      |s| >= 3 && s[|s| - 2] == '.' && Js.IsDigit(s[|s| - 1]) && '.' !in s[..|s| - 2]
  {
    Js.ToFixedShape(score, 1);
  }

  /**
   * Reading the display form back gives the score to within 0.05, and gives it exactly
   * when, and only when, the score has at most one decimal, as every genuine score does.
   */
  lemma FormatScoreRoundTrip(score: real)
    ensures Js.ParseFixed(FormatScore(score)).Some?
    ensures var v := Js.ParseFixed(FormatScore(score)).value;
      -0.05 <= v - score <= 0.05 && (v == score <==> IsTenths(score))
  {
    Js.ToFixedParses(score, 1);
    RoundedToTenth(score);
  }

  /**
   * One-place rounding moves a number by at most 0.05, and leaves it unchanged exactly when it
   * has at most one decimal.
   */
  lemma RoundedToTenth(score: real)
    ensures -0.05 <= Js.RoundedTo(score, 1) - score <= 0.05
    ensures Js.RoundedTo(score, 1) == score <==> IsTenths(score)
  {
    var t := RoundedTenths(score);
    if IsTenths(score) {
      TenthsUnchanged(score);
    }
    if Js.RoundedTo(score, 1) == score {
      TenthTimesTen(t);
      Js.IntegerValued(score * 10.0, t);
    }
  }

  /** One-place rounding gives a whole number `t` of tenths, with `10 * score - t` in [-0.5, 0.5]. */
  lemma RoundedTenths(score: real) returns (t: int)
    ensures Js.RoundedTo(score, 1) == t as real / 10.0
    ensures -0.05 <= Js.RoundedTo(score, 1) - score <= 0.05
  {
    var a := Js.MathAbs(score);
    var n := Js.ScaledRound(a, 1);
    assert Js.Scale(a, 1) == a * 10.0;
    assert Js.Unscale(n as real, 1) == n as real / 10.0;
    t := if score < 0.0 then -(n as int) else n;
  }

  /** A score with at most one decimal is unchanged by one-place rounding. */
  lemma TenthsUnchanged(score: real)
    requires IsTenths(score)
    ensures Js.RoundedTo(score, 1) == score
  {
    var a := Js.MathAbs(score);
    var n := Js.ScaledRound(a, 1);
    assert Js.Scale(a, 1) == a * 10.0;
    assert Js.Unscale(n as real, 1) == n as real / 10.0;
    var k := (score * 10.0).Floor;
    var m := if k < 0 then -k else k;
    assert a * 10.0 == m as real;
    Js.MathRoundOfInteger(m);
  }

  /** Ten tenths of `t` make `t`. */
  lemma TenthTimesTen(t: int)
    ensures (t as real / 10.0) * 10.0 == t as real
  {
  }
}
