/**
 * Stakes calculator: ranks the final score lines, highest total first, and settles the money.
 * Every player but the winner pays the amount of their place in the stakes table (the table is
 * indexed from last place up), and the winner collects what the others pay.
 */
module StakesCalculator {
  import opened Wrappers
  import opened GameTypes
  import Js
  import Seqs
  import Standings

  /** One player's settlement: negative when paying, positive when receiving. */
  datatype PlayerPayout = PlayerPayout(playerId: string, playerName: string, rank: int, score: real, amountPaid: real)

  /** `stakes.amounts[index] || 0`: the table entry, or 0 past the end of the table. */
  function Amount(amounts: seq<real>, index: int): (r: real)
  {
    if 0 <= index < |amounts| then amounts[index] else 0.0
  }

  /** Payout `i` is the standing of line `line` at rank `i + 1`. */
  predicate IsStanding(payout: PlayerPayout, i: int, line: RoundScore)
  {
    && payout.playerId == line.playerId
    && payout.playerName == line.playerName
    && payout.rank == i + 1
    && payout.score == line.cumulativeScore
  }

  /** The amounts paid, in rank order. */
  function AmountsPaid(payouts: seq<PlayerPayout>): (r: seq<real>)
    ensures |r| == |payouts|
  {
    seq(|payouts|, i requires 0 <= i < |payouts| => payouts[i].amountPaid)
  }

  /** What ranks 2 .. n pay, in rank order: rank `k + 2` pays table entry `n - 2 - k`. */
  function LoserPayments(amounts: seq<real>, n: nat): (r: seq<real>)
    requires n >= 1
    ensures |r| == n - 1
  {
    seq(n - 1, k requires 0 <= k < n - 1 => Amount(amounts, n - 2 - k))
  }

  /**
   * The payout pushed for line `i` of the ordered lines: its standing at rank `i + 1`, paying
   * its table entry, or nothing yet for the winner.
   */
  function Pushed(sorted: seq<RoundScore>, amounts: seq<real>, i: int): (r: PlayerPayout)
    requires 0 <= i < |sorted|
  {
    var line := sorted[i];
    var paid := if i == 0 then 0.0 else -Amount(amounts, |sorted| - (i + 1));
    PlayerPayout(line.playerId, line.playerName, i + 1, line.cumulativeScore, paid)
  }

  /** The settlement of the ordered lines: the pushed payouts, with the winner collecting the pot. */
  function Settlement(sorted: seq<RoundScore>, amounts: seq<real>): (r: seq<PlayerPayout>)
    requires sorted != []
    ensures |r| == |sorted|
  {
    var pot := Seqs.Sum(LoserPayments(amounts, |sorted|));
    seq(|sorted|, i requires 0 <= i < |sorted| =>
      if i == 0 then Pushed(sorted, amounts, 0).(amountPaid := pot) else Pushed(sorted, amounts, i))
  }

  /**
   * `calculatePayouts(finalScores, stakes)`. The lines are ordered by `Standings.SortByScore`;
   * each is pushed with its rank, losers with what they pay, and the winner's entry is filled
   * in with the pot after the loop, so that the amounts paid sum to zero. An empty input fails
   * at `payouts[0]`, hence the precondition.
   */
  method CalculatePayouts(finalScores: seq<RoundScore>, stakes: StakesConfig) returns (payouts: seq<PlayerPayout>)
    requires finalScores != []
    ensures payouts == Settlement(Standings.SortByScore(finalScores), stakes.amounts)
    ensures Seqs.Sum(AmountsPaid(payouts)) == 0.0
  {
    var sorted := Standings.SortByScore(finalScores);
    var n := |sorted|;
    ghost var losers := LoserPayments(stakes.amounts, n);
    payouts := [];
    var totalPot := 0.0;
    var index := 0;
    while index < n
      invariant 0 <= index <= n
      invariant |payouts| == index
      invariant forall i :: 0 <= i < index ==> payouts[i] == Pushed(sorted, stakes.amounts, i)
      invariant totalPot == Seqs.Sum(losers[..if index == 0 then 0 else index - 1])
    {
      var score := sorted[index];
      var rank := index + 1;
      var payout;
      if rank == 1 {
        payout := PlayerPayout(score.playerId, score.playerName, rank, score.cumulativeScore, 0.0);
      } else {
        var paymentIndex := n - rank;
        var amount := Amount(stakes.amounts, paymentIndex);
        Seqs.SumStep(losers, index - 1);
        totalPot := totalPot + amount;
        payout := PlayerPayout(score.playerId, score.playerName, rank, score.cumulativeScore, -amount);
      }
      payouts := payouts + [payout];
      index := index + 1;
    }
    assert losers[..n - 1] == losers;
    PatchedIsSettlement(sorted, stakes.amounts, payouts);
    SettlementBalances(sorted, stakes.amounts);
    payouts := payouts[0 := payouts[0].(amountPaid := totalPot)];
  }

  /** The pushed payouts, with the winner's amount replaced by the pot, are the settlement. */
  lemma PatchedIsSettlement(sorted: seq<RoundScore>, amounts: seq<real>, payouts: seq<PlayerPayout>)
    requires sorted != [] && |payouts| == |sorted|
    requires forall i :: 0 <= i < |payouts| ==> payouts[i] == Pushed(sorted, amounts, i)
    ensures var pot := Seqs.Sum(LoserPayments(amounts, |sorted|));
      payouts[0 := payouts[0].(amountPaid := pot)] == Settlement(sorted, amounts)
  {
  }

  /**
   * The settlement has one payout per line, ranked 1 .. N with totals never increasing, and
   * rank 1 is the line `reduce` picks as best: the first of the tied maxima.
   */
  lemma SettlementStandings(finalScores: seq<RoundScore>, amounts: seq<real>)
    requires finalScores != []
    ensures var sorted := Standings.SortByScore(finalScores);
      var payouts := Settlement(sorted, amounts);
      && |payouts| == |finalScores|
      && (forall i :: 0 <= i < |payouts| ==> IsStanding(payouts[i], i, sorted[i]))
      && (forall i, j :: 0 <= i < j < |payouts| ==> payouts[i].score >= payouts[j].score)
      && payouts[0].playerId == Standings.Best(finalScores).playerId
  {
    var sorted := Standings.SortByScore(finalScores);
    var payouts := Settlement(sorted, amounts);
    forall i | 0 <= i < |payouts| ensures IsStanding(payouts[i], i, sorted[i]) {
      assert payouts[i].playerId == Pushed(sorted, amounts, i).playerId;
    }
    Standings.SortByScoreSpec(finalScores);
    forall i, j | 0 <= i < j < |payouts| ensures payouts[i].score >= payouts[j].score {
      assert IsStanding(payouts[i], i, sorted[i]) && IsStanding(payouts[j], j, sorted[j]);
    }
    Standings.SortByScoreHead(finalScores);
  }

  /**
   * The player at rank `r > 1` pays table entry `N - r`, and nothing when the table is too short
   * to have it; so last place pays entry 0. The winner collects what the others pay.
   */
  lemma SettlementPayments(sorted: seq<RoundScore>, amounts: seq<real>)
    requires sorted != []
    ensures var payouts := Settlement(sorted, amounts);
      && (forall i :: 1 <= i < |payouts| ==> payouts[i].amountPaid == -Amount(amounts, |payouts| - (i + 1)))
      && (forall i :: 1 <= i < |payouts| && |payouts| - (i + 1) >= |amounts| ==> payouts[i].amountPaid == 0.0)
      && (|payouts| >= 2 && amounts != [] ==> payouts[|payouts| - 1].amountPaid == -amounts[0])
      && payouts[0].amountPaid == Seqs.Sum(LoserPayments(amounts, |payouts|))
      && payouts[0].amountPaid == -Seqs.Sum(AmountsPaid(payouts)[1..])
  {
    var payouts := Settlement(sorted, amounts);
    var losers := LoserPayments(amounts, |payouts|);
    SumOfNegated(AmountsPaid(payouts)[1..], losers);
  }

  /** A sequence that is another negated, entry by entry, sums to minus its sum. */
  lemma {:induction false} SumOfNegated(s: seq<real>, t: seq<real>)
    requires |s| == |t| && forall i :: 0 <= i < |s| ==> s[i] == -t[i]
    ensures Seqs.Sum(s) == -Seqs.Sum(t)
  {
    if s != [] {
      SumOfNegated(s[..|s| - 1], t[..|t| - 1]);
    }
  }

  /** The settlement balances: what the winner collects is what the others pay. */
  lemma SettlementBalances(sorted: seq<RoundScore>, amounts: seq<real>)
    requires sorted != []
    ensures Seqs.Sum(AmountsPaid(Settlement(sorted, amounts))) == 0.0
  {
    SettlementPayments(sorted, amounts);
    var paid := AmountsPaid(Settlement(sorted, amounts));
    assert paid == [paid[0]] + paid[1..];
    Seqs.SumConcat([paid[0]], paid[1..]);
    assert [paid[0]][..0] == [];
  }

  /**
   * When the table has one entry per loser, as the stakes setup builds it, the winner collects
   * the sum of the table.
   */
  lemma PotIsTableSum(amounts: seq<real>, n: nat)
    requires n >= 1 && |amounts| == n - 1
    ensures Seqs.Sum(LoserPayments(amounts, n)) == Seqs.Sum(amounts)
  {
    var losers := LoserPayments(amounts, n);
    Seqs.SumReverse(losers);
    forall i | 0 <= i < |amounts| ensures Seqs.Reverse(losers)[i] == amounts[i] {
      Seqs.ReverseIndex(losers, i);
      assert losers[n - 2 - i] == Amount(amounts, i);
    }
    assert Seqs.Reverse(losers) == amounts;
  }

  /** `formatMoney(amount, currency)`: a sign, the currency, then `|amount|` to two decimals. */
  function FormatMoney(amount: real, currency: string): (r: string)
  {
    var absAmount := Js.MathAbs(amount);
    var sign := if amount >= 0.0 then "+" else "-";
    sign + currency + Js.ToFixed(absAmount, 2)
  }

  /**
   * The text starts with `+` exactly when the amount is at least 0 (zero included), then
   * the currency; the rest reads back as `|amount|` rounded to cents, which is `|amount|`
   * itself when the amount is a whole number of cents.
   */
  lemma FormatMoneyRoundTrip(amount: real, currency: string)
    ensures var s := FormatMoney(amount, currency);
      && |s| > |currency| + 1
      && (s[0] == '+' <==> amount >= 0.0)
      && (s[0] == '-' <==> amount < 0.0)
      && s[1..|currency| + 1] == currency
      && Js.ParseFixed(s[|currency| + 1..]).Some?
    ensures var v := Js.ParseFixed(FormatMoney(amount, currency)[|currency| + 1..]).value;
      && v == Js.RoundTo2(Js.MathAbs(amount))
      && -0.005 < v - Js.MathAbs(amount) <= 0.005
      && (Js.IsInteger(amount * 100.0) ==> v == Js.MathAbs(amount))
  {
    var a := Js.MathAbs(amount);
    FormatMoneyParts(amount, currency);
    CentsReadBack(a);
    WholeCentsMagnitude(amount);
  }

  /** A whole number of cents has a whole number of cents as its magnitude. */
  lemma WholeCentsMagnitude(amount: real)
    ensures Js.IsInteger(amount * 100.0) ==> Js.IsInteger(Js.MathAbs(amount) * 100.0)
  {
    if Js.IsInteger(amount * 100.0) {
      var k := (amount * 100.0).Floor;
      Js.IntegerValued(Js.MathAbs(amount) * 100.0, if k < 0 then -k else k);
    }
  }

  /** The text is the sign, the currency, and `|amount|` to two decimals. */
  lemma FormatMoneyParts(amount: real, currency: string)
    ensures var s := FormatMoney(amount, currency);
      && |s| > |currency| + 1
      && (s[0] == '+' <==> amount >= 0.0)
      && (s[0] == '-' <==> amount < 0.0)
      && s[1..|currency| + 1] == currency
      && s[|currency| + 1..] == Js.ToFixed(Js.MathAbs(amount), 2)
  {
    var digits := Js.ToFixed(Js.MathAbs(amount), 2);
    var sign := if amount >= 0.0 then "+" else "-";
    Js.ToFixedShape(Js.MathAbs(amount), 2);
    var s := sign + currency + digits;
    assert s[1..|currency| + 1] == currency;
    assert s[|currency| + 1..] == digits;
  }

  /**
   * Two decimals of a non-negative amount read back as the amount rounded to cents, and as
   * the amount itself when it is a whole number of cents.
   */
  lemma CentsReadBack(a: real)
    requires a >= 0.0
    ensures Js.ParseFixed(Js.ToFixed(a, 2)) == Some(Js.RoundTo2(a))
    ensures Js.IsInteger(a * 100.0) ==> Js.RoundTo2(a) == a
  {
    Js.ToFixedParses(a, 2);
    TwoPlaces(a);
    if Js.IsInteger(a * 100.0) {
      var m := (a * 100.0).Floor;
      Js.MathRoundOfInteger(m);
    }
  }

  /** Rounding the magnitude to two places, as `toFixed(2)` does, is `RoundTo2`. */
  lemma TwoPlaces(a: real)
    requires a >= 0.0
    ensures Js.RoundedMagnitude(a, 2) == Js.RoundTo2(a)
  {
    assert Js.Scale(a, 1) == a * 10.0;
    assert Js.Scale(a, 2) == a * 100.0;
    var z := Js.ScaledRound(a, 2) as real;
    assert Js.Unscale(z, 1) == z / 10.0;
    assert Js.Unscale(z, 2) == z / 100.0;
  }
}
