/**
 * The stakes-setup screen: a currency symbol and one amount per losing place, entry 0 for the
 * lowest scorer, pre-filled with 5 per place above last. Continuing stores the stakes (unless
 * they were skipped) and starts the game.
 */
module StakesSetup {
  import opened Wrappers
  import opened GameTypes
  import Js
  import Seqs
  import GameFlow
  import GameStore
  import StakesCalculator

  /** `currentGame?.players.length || 4`: no game and an empty roster both count as four players. */
  function PlayerCountFor(game: Option<Game>): (n: nat)
    ensures n >= 1
    ensures game.Some? && |game.value.players| > 0 ==> n == |game.value.players|
    ensures game.None? || |game.value.players| == 0 ==> n == 4
  {
    if game.Some? && |game.value.players| > 0 then |game.value.players| else 4
  }

  /** The pre-filled table: place `i` from the bottom pays `(playerCount - 1 - i) * 5`. */
  function DefaultAmounts(playerCount: nat): (amounts: seq<real>)
    requires playerCount >= 1
  {
    seq(playerCount - 1, i requires 0 <= i < playerCount - 1 => ((playerCount - 1 - i) * 5) as real)
  }

  /** `amounts.reduce((sum, amt) => sum + amt, 0)`. */
  function TotalPot(amounts: seq<real>): (r: real)
  {
    Seqs.Sum(amounts)
  }

  /** `position === playerCount ? … : \`${position}th place\``, for table entry `index`. */
  function PlaceLabel(playerCount: int, index: int): (r: string)
  {
    var position := playerCount - index;
    if position == playerCount then "Lowest scorer"
    else if position == playerCount - 1 then "2nd lowest"
    else if position == playerCount - 2 then "3rd lowest"
    else if position >= 0 then Js.NatToString(position) + "th place"
    else "-" + Js.NatToString(-position) + "th place"
  }

  /**
   * The pre-filled table has one entry per losing place, each 5 more than the one below it,
   * from 5 for the place just below the winner up to `5 * (playerCount - 1)` for last place.
   */
  lemma DefaultAmountsShape(playerCount: nat)
    requires playerCount >= 1
    ensures var a := DefaultAmounts(playerCount);
      && |a| == playerCount - 1
      && (forall i, j :: 0 <= i < j < |a| ==> a[i] > a[j])
      && (forall i :: 0 <= i < |a| - 1 ==> a[i] == a[i + 1] + 5.0)
      && (forall i :: 0 <= i < |a| ==> a[i] > 0.0)
      && (a != [] ==> a[0] == ((playerCount - 1) * 5) as real && a[|a| - 1] == 5.0)
  {
  }

  /** The pre-filled pot is `5 * (1 + 2 + … + (playerCount - 1))`, twice which is `5 * (playerCount - 1) * playerCount`. */
  lemma {:induction false} DefaultPot(playerCount: nat)
    requires playerCount >= 1
    ensures 2.0 * TotalPot(DefaultAmounts(playerCount)) == (5 * (playerCount - 1) * playerCount) as real
  {
    if playerCount > 1 {
      var m := playerCount - 1;
      var b := DefaultAmounts(m);
      assert DefaultAmounts(playerCount) == [(m * 5) as real] + b;
      Seqs.SumConcat([(m * 5) as real], b);
      assert [(m * 5) as real][..0] == [];
      DefaultPot(m);
      NextTriangle(m);
    }
  }

  /** One more place adds `2 * 5m` to twice the pot. */
  lemma NextTriangle(m: int)
    ensures 5 * (m - 1) * m + 2 * (m * 5) == 5 * m * (m + 1)
  {
  }

  /**
   * With a table of one entry per losing place, the place the label names is the place that
   * pays the entry: table entry `i` is labelled "Lowest scorer" for `i = 0`, and the player
   * ranked `playerCount - i` pays entry `i`; the winner collects the total pot.
   */
  lemma LabelsMatchSettlement(sorted: seq<RoundScore>, amounts: seq<real>, i: int)
    requires sorted != [] && |amounts| == |sorted| - 1 && 0 <= i < |amounts|
    ensures PlaceLabel(|sorted|, 0) == "Lowest scorer"
    ensures var position := |sorted| - i;
      StakesCalculator.Settlement(sorted, amounts)[position - 1].amountPaid == -amounts[i]
    ensures StakesCalculator.Settlement(sorted, amounts)[0].amountPaid == TotalPot(amounts)
  {
    StakesCalculator.SettlementPayments(sorted, amounts);
    StakesCalculator.PotIsTableSum(amounts, |sorted|);
  }

  class StakesScreen {
    var currency: string
    var amounts: seq<real>
    var skipStakes: bool

    /** The screen opens with `$`, the pre-filled table for the game's player count, and stakes on. */
    constructor (game: Option<Game>)
      ensures currency == "$" && amounts == DefaultAmounts(PlayerCountFor(game)) && !skipStakes
      ensures |amounts| == PlayerCountFor(game) - 1
    {
      currency := "$";
      amounts := DefaultAmounts(PlayerCountFor(game));
      skipStakes := false;
    }

    /** The currency buttons. */
    method SetCurrency(symbol: string)
      modifies this
      ensures currency == symbol && amounts == old(amounts) && skipStakes == old(skipStakes)
    {
      currency := symbol;
    }

    /**
     * `handleAmountChange(index, value)`, with `value` already read by `parseFloat`: `None`
     * stands for text that is not a number. Text that is not a number, and zero, both store 0;
     * no other entry changes.
     */
    method HandleAmountChange(index: int, value: Option<real>)
      modifies this
      requires 0 <= index < |amounts|
      ensures |amounts| == |old(amounts)|
      ensures amounts[index] == (if value.Some? then value.value else 0.0)
      ensures forall j :: 0 <= j < |amounts| && j != index ==> amounts[j] == old(amounts)[j]
      ensures currency == old(currency) && skipStakes == old(skipStakes)
    {
      var numValue := if value.Some? && value.value != 0.0 then value.value else 0.0;
      var newAmounts := amounts;
      newAmounts := newAmounts[index := numValue];
      amounts := newAmounts;
    }

    /** `handleContinue()`: stores the stakes unless they were skipped, then starts (and saves) the game. */
    method HandleContinue(store: GameStore.Store)
      modifies store
      ensures var g := old(store.currentGame);
        store.currentGame == if g.None? then None
          else if skipStakes then Some(GameFlow.Started(g.value))
          else Some(GameFlow.Started(GameFlow.WithStakes(g.value, StakesConfig(currency, amounts))))
      ensures old(store.currentGame).Some? ==> store.currentView == PlayerCalls
      ensures old(store.currentGame).None? ==> store.currentView == old(store.currentView)
      ensures old(store.currentGame).Some? ==> store.saved == old(store.saved) + [store.currentGame.value]
      ensures old(store.currentGame).None? ==> store.saved == old(store.saved)
      ensures store.error == old(store.error) && store.hasUnsavedChanges == old(store.hasUnsavedChanges)
    {
      if !skipStakes {
        store.SetStakes(StakesConfig(currency, amounts));
      }
      store.StartGame();
    }

    /** `handleSkip()`: marks the stakes skipped and starts (and saves) the game without them. */
    method HandleSkip(store: GameStore.Store)
      modifies this, store
      ensures skipStakes && currency == old(currency) && amounts == old(amounts)
      ensures var g := old(store.currentGame);
        store.currentGame == if g.None? then None else Some(GameFlow.Started(g.value))
      ensures old(store.currentGame).Some? ==> store.currentView == PlayerCalls
      ensures old(store.currentGame).None? ==> store.currentView == old(store.currentView)
      ensures old(store.currentGame).Some? ==> store.saved == old(store.saved) + [store.currentGame.value]
      ensures old(store.currentGame).None? ==> store.saved == old(store.saved)
      ensures store.error == old(store.error) && store.hasUnsavedChanges == old(store.hasUnsavedChanges)
    {
      skipStakes := true;
      store.StartGame();
    }
  }
}
