/**
 * The game store's logic on values: what each action makes of the current game, the view
 * flow, the selectors, and the invariant the well-behaved sequence of actions keeps (one round
 * per round played so far, at most five, each dealt by the rotation). The store class in
 * `GameStore` applies these to its fields.
 */
module GameFlow {
  import opened Wrappers
  import opened GameTypes
  import Js
  import Seqs
  import Standings
  import RoundManager
  import DealerRotation

  /** The last round: `nextRound` from round 5 completes the game. */
  const MaxRounds := 5

  // ---------------------------------------------------------------- views

  /** `viewFlow`: the setup and round views in the order next/previous walk them. */
  const ViewFlow: seq<GameView> := [PlayerCount, PlayerDetails, PlayerRoles, StakesSetup, PlayerCalls, PlayerResults, RoundSummary]

  /** `goToNextView`: the next view in the flow; the last view stays; a view outside the flow finds index -1. */
  function NextView(view: GameView): (r: GameView)
  {
    var currentIndex := Js.IndexOf(ViewFlow, view);
    if currentIndex < |ViewFlow| - 1 then ViewFlow[currentIndex + 1] else view
  }

  /** `goToPreviousView`: the previous view in the flow; the first view and views outside it stay. */
  function PreviousView(view: GameView): (r: GameView)
  {
    var currentIndex := Js.IndexOf(ViewFlow, view);
    if currentIndex > 0 then ViewFlow[currentIndex - 1] else view
  }

  /** Position of each view of the flow: the flow lists seven different views. */
  lemma ViewFlowPositions()
    ensures forall i, j :: 0 <= i < j < |ViewFlow| ==> ViewFlow[i] != ViewFlow[j]
    ensures forall i :: 0 <= i < |ViewFlow| ==> Js.IndexOf(ViewFlow, ViewFlow[i]) == i
  {
    forall i | 0 <= i < |ViewFlow| ensures Js.IndexOf(ViewFlow, ViewFlow[i]) == i {
      var k := Js.IndexOf(ViewFlow, ViewFlow[i]);
      assert ViewFlow[i] !in ViewFlow[..i];
      assert ViewFlow[k] == ViewFlow[i];
    }
  }

  /** Next and previous walk the flow one step, and the two ends of the flow stay put. */
  lemma ViewFlowSteps()
    ensures forall i :: 0 <= i < |ViewFlow| - 1 ==> NextView(ViewFlow[i]) == ViewFlow[i + 1]
    ensures forall i :: 0 < i < |ViewFlow| ==> PreviousView(ViewFlow[i]) == ViewFlow[i - 1]
    ensures NextView(RoundSummary) == RoundSummary && PreviousView(PlayerCount) == PlayerCount
  {
    ViewFlowPositions();
    assert ViewFlow[6] == RoundSummary && ViewFlow[0] == PlayerCount;
  }

  /** Inside the flow, next and previous undo each other, except at the two ends. */
  lemma ViewStepsInverse(view: GameView)
    requires view in ViewFlow
    ensures view != RoundSummary ==> PreviousView(NextView(view)) == view
    ensures view != PlayerCount ==> NextView(PreviousView(view)) == view
  {
    ViewFlowSteps();
    var i :| 0 <= i < |ViewFlow| && ViewFlow[i] == view;
    assert ViewFlow[6] == RoundSummary && ViewFlow[0] == PlayerCount;
    if i < |ViewFlow| - 1 {
      assert NextView(ViewFlow[i]) == ViewFlow[i + 1];
      assert PreviousView(ViewFlow[i + 1]) == ViewFlow[i];
    }
    if i > 0 {
      assert PreviousView(ViewFlow[i]) == ViewFlow[i - 1];
      assert NextView(ViewFlow[i - 1]) == ViewFlow[i];
    }
  }

  /**
   * From a view outside the flow (home, game complete, history, call log) "next" jumps to the
   * player-count view, because `indexOf` gives -1, while "previous" does nothing.
   */
  lemma ViewOutsideFlow(view: GameView)
    requires view !in ViewFlow
    ensures NextView(view) == PlayerCount && PreviousView(view) == view
  {
  }

  // ---------------------------------------------------------------- setup actions

  /** The players `setPlayerCount(count)` creates; `Array.from` makes no element for a count below 1. */
  function SetupPlayers(count: int): (players: seq<Player>)
    ensures |players| == if count < 0 then 0 else count
  {
    var n := if count < 0 then 0 else count;
    seq(n, i requires 0 <= i < n => Player("player-" + Js.NatToString(i), "", i))
  }

  /** `setPlayerCount(count)`: a fresh game in setup, with the id and the creation time given. */
  function NewSetupGame(count: int, id: string, now: int): (r: Game)
  {
    Game(id, now, None, Setup, SetupPlayers(count), [], 1, 0, None)
  }

  /** Player ids of a roster. */
  function PlayerIds(players: seq<Player>): (ids: seq<string>)
    ensures |ids| == |players| && forall i :: 0 <= i < |players| ==> ids[i] == players[i].id
  {
    seq(|players|, i requires 0 <= i < |players| => players[i].id)
  }

  /**
   * A new setup game has `count` players (none for a negative count) with ids `player-0`,
   * `player-1`, ... all different, empty names and seats numbered from 0; no rounds, round 1
   * current, the dealer at seat 0, no stakes, not completed.
   */
  lemma NewSetupGameShape(count: int, id: string, now: int)
    ensures var g := NewSetupGame(count, id, now);
      && g.id == id && g.createdAt == now && g.completedAt == None
      && g.status == Setup && g.rounds == [] && g.currentRound == 1 && g.initialDealerIndex == 0
      && g.stakes == None
      && |g.players| == (if count < 0 then 0 else count)
      && (forall i :: 0 <= i < |g.players| ==>
            g.players[i].id == "player-" + Js.NatToString(i) && g.players[i].name == "" && g.players[i].seatingPosition == i)
      && Seqs.Distinct(PlayerIds(g.players))
  {
    var players := SetupPlayers(count);
    var ids := PlayerIds(players);
    forall i, j | 0 <= i < j < |ids| ensures ids[i] != ids[j] {
      if ids[i] == ids[j] {
        var a, b := Js.NatToString(i), Js.NatToString(j);
        assert ("player-" + a)[7..] == a && ("player-" + b)[7..] == b;
        Js.NatToStringInjective(i, j);
      }
    }
  }

  /** `setPlayers`: the roster replaced. */
  function WithPlayers(g: Game, players: seq<Player>): (r: Game)
  {
    g.(players := players)
  }

  /** `setInitialDealer`. */
  function WithInitialDealer(g: Game, dealerIndex: int): (r: Game)
  {
    g.(initialDealerIndex := dealerIndex)
  }

  /** The roster with each player's seat set to their position in it. */
  function Renumbered(players: seq<Player>): (r: seq<Player>)
    ensures |r| == |players|
  {
    seq(|players|, i requires 0 <= i < |players| => players[i].(seatingPosition := i))
  }

  /** `updateSeatingOrder(players)`: the roster in the given order, renumbered. */
  function WithSeatingOrder(g: Game, players: seq<Player>): (r: Game)
  {
    g.(players := Renumbered(players))
  }

  /**
   * Renumbering keeps the order, ids and names and sets every seat to its index, so the
   * seats are exactly 0 .. n - 1; doing it twice is doing it once.
   */
  lemma RenumberedSeats(players: seq<Player>)
    ensures var r := Renumbered(players);
      && PlayerIds(r) == PlayerIds(players)
      && (forall i :: 0 <= i < |r| ==> r[i].name == players[i].name && r[i].seatingPosition == i)
      && Renumbered(r) == r
  {
    assert PlayerIds(Renumbered(players)) == PlayerIds(players);
  }

  /** `setStakes`. */
  function WithStakes(g: Game, stakes: StakesConfig): (r: Game)
  {
    g.(stakes := Some(stakes))
  }

  /** `startGame`: in progress, with a single pending round 1 dealt by the chosen dealer. */
  function Started(g: Game): (r: Game)
  {
    g.(status := InProgress, rounds := [RoundManager.CreateRound(1, g.initialDealerIndex)])
  }

  // ---------------------------------------------------------------- gameplay actions

  /** The current round `rounds[currentRound - 1]` exists. */
  predicate HasCurrentRound(g: Game)
  {
    0 <= g.currentRound - 1 < |g.rounds|
  }

  /** `enterCalls` once the calls are valid: the current round takes the calls and is marked so. */
  function WithCalls(g: Game, calls: seq<PlayerCall>): (r: Game)
    requires HasCurrentRound(g)
  {
    var i := g.currentRound - 1;
    g.(rounds := g.rounds[i := g.rounds[i].(calls := calls, status := CallsEntered)])
  }

  /** Entering calls touches nothing but the current round's calls and status. */
  lemma WithCallsChangesCurrentRoundOnly(g: Game, calls: seq<PlayerCall>)
    requires HasCurrentRound(g)
    ensures var h := WithCalls(g, calls);
      var i := g.currentRound - 1;
      && h.players == g.players && h.currentRound == g.currentRound && h.status == g.status
      && h.initialDealerIndex == g.initialDealerIndex && h.stakes == g.stakes && h.id == g.id
      && |h.rounds| == |g.rounds|
      && (forall k :: 0 <= k < |g.rounds| && k != i ==> h.rounds[k] == g.rounds[k])
      && h.rounds[i].calls == calls && h.rounds[i].status == CallsEntered
      && h.rounds[i].roundNumber == g.rounds[i].roundNumber && h.rounds[i].dealerIndex == g.rounds[i].dealerIndex
      && h.rounds[i].results == g.rounds[i].results && h.rounds[i].scores == g.rounds[i].scores
  {
  }

  /** What `enterResults` can throw after validation passed. */
  datatype Thrown =
    | NoCurrentRound                       // `currentRound.calls` of an undefined round
    | MissingCallOrResult(playerName: string)

  /** `previousScores`: the cumulative scores of the rounds before the current one; empty in round 1. */
  function PreviousScores(g: Game): (r: map<string, real>)
    requires HasCurrentRound(g)
  {
    var i := g.currentRound - 1;
    if i > 0 then RoundManager.CumulativeScores(g.rounds[..i]) else map[]
  }

  /** The scores `enterResults` computes for the current round. */
  function CurrentRoundScores(g: Game, results: seq<PlayerResult>): (r: Result<seq<RoundScore>, string>)
    requires HasCurrentRound(g)
  {
    RoundManager.CalculateRoundScores(g.players, g.rounds[g.currentRound - 1].calls, results, PreviousScores(g))
  }

  /**
   * `enterResults` once the results are valid: the current round takes the results and its
   * scores and is completed, or the action throws.
   */
  function ScoredRound(g: Game, results: seq<PlayerResult>): (r: Result<Game, Thrown>)
  {
    if !HasCurrentRound(g) then Failure(NoCurrentRound)
    else
      var i := g.currentRound - 1;
      var round := g.rounds[i];
      match CurrentRoundScores(g, results)
      case Failure(name) => Failure(MissingCallOrResult(name))
      case Success(scores) =>
        Success(g.(rounds := g.rounds[i := round.(results := results, scores := scores, status := RoundCompleted)]))
  }

  /**
   * Entering results touches nothing but the current round, which is completed with the
   * results and the computed scores; it throws exactly when there is no current round or a
   * player lacks a call or a result.
   */
  lemma ScoredRoundChangesCurrentRoundOnly(g: Game, results: seq<PlayerResult>)
    ensures ScoredRound(g, results).Failure? <==> !HasCurrentRound(g) || CurrentRoundScores(g, results).Failure?
    ensures ScoredRound(g, results).Success? ==>
      var h := ScoredRound(g, results).value;
      var i := g.currentRound - 1;
      && h.players == g.players && h.currentRound == g.currentRound && h.status == g.status
      && h.initialDealerIndex == g.initialDealerIndex && h.stakes == g.stakes && h.id == g.id
      && |h.rounds| == |g.rounds|
      && (forall k :: 0 <= k < |g.rounds| && k != i ==> h.rounds[k] == g.rounds[k])
      && h.rounds[i].results == results && h.rounds[i].status == RoundCompleted
      && h.rounds[i].scores == CurrentRoundScores(g, results).value
      && h.rounds[i].calls == g.rounds[i].calls
      && h.rounds[i].roundNumber == g.rounds[i].roundNumber && h.rounds[i].dealerIndex == g.rounds[i].dealerIndex
  {
  }

  /**
   * The current round is scored against earlier rounds only: games that agree on the players,
   * the current round number and the rounds up to the current one score alike, whatever
   * later rounds hold. In round 1 nothing came before, so each total is the round's own score
   * rounded to cents.
   */
  lemma ScoresUseEarlierRoundsOnly(g1: Game, g2: Game, results: seq<PlayerResult>)
    requires HasCurrentRound(g1) && HasCurrentRound(g2)
    requires g1.players == g2.players && g1.currentRound == g2.currentRound
    requires g1.rounds[..g1.currentRound] == g2.rounds[..g2.currentRound]
    ensures CurrentRoundScores(g1, results) == CurrentRoundScores(g2, results)
    ensures g1.currentRound == 1 ==> PreviousScores(g1) == map[]
  {
    var i := g1.currentRound - 1;
    assert g1.rounds[i] == g1.rounds[..g1.currentRound][i];
    assert g2.rounds[i] == g2.rounds[..g2.currentRound][i];
    assert g1.rounds[..i] == g1.rounds[..g1.currentRound][..i];
    assert g2.rounds[..i] == g2.rounds[..g2.currentRound][..i];
  }

  /** `nextRound`: completed after round 5, otherwise one more pending round dealt by the rotation. */
  function Advanced(g: Game, now: int): (r: Game)
    requires g.currentRound + 1 <= MaxRounds ==> |g.players| > 0
  {
    var nextRoundNumber := g.currentRound + 1;
    if nextRoundNumber > MaxRounds then g.(status := Completed, completedAt := Some(now))
    else
      var nextDealerIndex := DealerRotation.GetDealerForRound(g.initialDealerIndex, nextRoundNumber, |g.players|);
      g.(currentRound := nextRoundNumber, rounds := g.rounds + [RoundManager.CreateRound(nextRoundNumber, nextDealerIndex)])
  }

  /** `endGame`: completed now, whatever round it is in. */
  function Ended(g: Game, now: int): (r: Game)
  {
    g.(status := Completed, completedAt := Some(now))
  }

  /** `restartGameWithSamePlayers`: a new game, in progress at a pending round 1, same players, dealer and stakes. */
  function Restarted(g: Game, id: string, now: int): (r: Game)
  {
    Game(id, now, None, InProgress, g.players, [RoundManager.CreateRound(1, g.initialDealerIndex)], 1, g.initialDealerIndex, g.stakes)
  }

  // ---------------------------------------------------------------- the round invariant

  /**
   * Once the game has started: a non-empty roster with the first dealer on a seat, round
   * `currentRound` of at most 5 is the last round, and round `k + 1` is dealt by the rotation.
   */
  predicate PlayInvariant(g: Game)
  {
    g.status != Setup ==>
      && |g.players| > 0
      && 0 <= g.initialDealerIndex < |g.players|
      && 1 <= g.currentRound <= MaxRounds
      && |g.rounds| == g.currentRound
      && forall k :: 0 <= k < |g.rounds| ==> RoundInRotation(g, k)
  }

  /** Round `k` is numbered `k + 1` and dealt by the dealer the rotation gives for it. */
  predicate RoundInRotation(g: Game, k: int)
    requires 0 <= k < |g.rounds| && |g.players| > 0
  {
    && g.rounds[k].roundNumber == k + 1
    && g.rounds[k].dealerIndex == DealerRotation.GetDealerForRound(g.initialDealerIndex, k + 1, |g.players|)
  }

  /** Starting a game whose dealer is a seat of a non-empty roster, at round 1, establishes the invariant. */
  lemma StartedEstablishes(g: Game)
    requires |g.players| > 0 && 0 <= g.initialDealerIndex < |g.players| && g.currentRound == 1
    ensures PlayInvariant(Started(g))
    ensures HasCurrentRound(Started(g)) && Started(g).rounds[0].status == Pending
  {
    DealerRotation.DealerForRoundInRange(g.initialDealerIndex, 1, |g.players|);
    assert RoundInRotation(Started(g), 0);
  }

  /** Entering calls keeps the invariant. */
  lemma WithCallsKeeps(g: Game, calls: seq<PlayerCall>)
    requires PlayInvariant(g) && HasCurrentRound(g)
    ensures PlayInvariant(WithCalls(g, calls))
  {
    var h := WithCalls(g, calls);
    if h.status != Setup {
      forall k | 0 <= k < |h.rounds| ensures RoundInRotation(h, k) {
        assert RoundInRotation(g, k);
      }
    }
  }

  /** Entering results keeps the invariant. */
  lemma ScoredRoundKeeps(g: Game, results: seq<PlayerResult>)
    requires PlayInvariant(g) && ScoredRound(g, results).Success?
    ensures PlayInvariant(ScoredRound(g, results).value)
  {
    var h := ScoredRound(g, results).value;
    if h.status != Setup {
      forall k | 0 <= k < |h.rounds| ensures RoundInRotation(h, k) {
        assert RoundInRotation(g, k);
      }
    }
  }

  /**
   * From a started game, `nextRound` keeps the invariant. After round 5 it completes the game
   * and adds no round; before, it adds one pending round whose dealer is the seat after the
   * previous round's dealer.
   */
  lemma AdvancedKeeps(g: Game, now: int)
    requires PlayInvariant(g) && g.status != Setup
    ensures PlayInvariant(Advanced(g, now))
    ensures var h := Advanced(g, now);
      g.currentRound == MaxRounds ==> h.status == Completed && h.rounds == g.rounds && h.currentRound == g.currentRound
    ensures var h := Advanced(g, now);
      g.currentRound < MaxRounds ==>
        && h.status == g.status && h.currentRound == g.currentRound + 1
        && h.rounds[..|g.rounds|] == g.rounds && |h.rounds| == |g.rounds| + 1
        && h.rounds[|g.rounds|].status == Pending
        && h.rounds[|g.rounds|].dealerIndex
             == DealerRotation.GetNextDealerIndex(g.rounds[|g.rounds| - 1].dealerIndex, |g.players|)
  {
    var h := Advanced(g, now);
    var n := g.currentRound;
    if n < MaxRounds {
      forall k | 0 <= k < |h.rounds| ensures RoundInRotation(h, k) {
        if k < |g.rounds| {
          assert RoundInRotation(g, k);
        }
      }
      assert h.rounds[..|g.rounds|] == g.rounds;
      assert RoundInRotation(g, n - 1);
      DealerRotation.DealerRecurrence(g.initialDealerIndex, n, |g.players|);
    } else {
      forall k | 0 <= k < |h.rounds| ensures RoundInRotation(h, k) {
        assert RoundInRotation(g, k);
      }
    }
  }

  /** Ending the game keeps the invariant. */
  lemma EndedKeeps(g: Game, now: int)
    requires PlayInvariant(g) && g.status != Setup
    ensures PlayInvariant(Ended(g, now))
  {
    var h := Ended(g, now);
    forall k | 0 <= k < |h.rounds| ensures RoundInRotation(h, k) {
      assert RoundInRotation(g, k);
    }
  }

  /** Restarting a started game keeps its roster and dealer and re-establishes the invariant at round 1. */
  lemma RestartedKeeps(g: Game, id: string, now: int)
    requires PlayInvariant(g) && g.status != Setup
    ensures var h := Restarted(g, id, now);
      && PlayInvariant(h)
      && h.players == g.players && h.initialDealerIndex == g.initialDealerIndex && h.stakes == g.stakes
      && h.status == InProgress && h.currentRound == 1 && |h.rounds| == 1 && h.rounds[0].status == Pending
  {
    DealerRotation.DealerForRoundInRange(g.initialDealerIndex, 1, |g.players|);
    assert RoundInRotation(Restarted(g, id, now), 0);
  }

  /**
   * While the invariant holds in a started game the current round exists, at most 5 rounds
   * exist, and the current dealer is the player the rotation seats for the current round.
   */
  lemma InvariantGivesCurrentRound(g: Game)
    requires PlayInvariant(g) && g.status != Setup
    ensures HasCurrentRound(g) && |g.rounds| <= MaxRounds
    ensures var seat := DealerRotation.GetDealerForRound(g.initialDealerIndex, g.currentRound, |g.players|);
      0 <= seat < |g.players| && CurrentDealer(Some(g)) == Some(g.players[seat])
  {
    assert RoundInRotation(g, g.currentRound - 1);
    DealerRotation.DealerForRoundInRange(g.initialDealerIndex, g.currentRound, |g.players|);
  }

  // ---------------------------------------------------------------- selectors

  /** `getCurrentRound`: `rounds[currentRound - 1]`, or null. */
  function CurrentRound(g: Option<Game>): (r: Option<Round>)
  {
    if g.Some? && HasCurrentRound(g.value) then Some(g.value.rounds[g.value.currentRound - 1]) else None
  }

  /** `getCurrentDealer`: the player seated at the current round's dealer index, or null. */
  function CurrentDealer(g: Option<Game>): (r: Option<Player>)
  {
    match CurrentRound(g)
    case None => None
    case Some(round) =>
      if 0 <= round.dealerIndex < |g.value.players| then Some(g.value.players[round.dealerIndex]) else None
  }

  /** `isGameComplete`. */
  predicate IsGameComplete(g: Option<Game>)
  {
    g.Some? && g.value.status == Completed
  }

  /** `players.find(p => p.id === id)`. */
  function FindPlayer(players: seq<Player>, id: string): (r: Option<Player>)
  {
    var k := Js.IndexOf(PlayerIds(players), id);
    if k < 0 then None else Some(players[k])
  }

  /** `getWinner`: the player of the best line of the last round, once the game is completed. */
  function Winner(g: Option<Game>): (r: Option<Player>)
  {
    if g.None? || g.value.status != Completed then None
    else if g.value.rounds == [] then None
    else
      var lastRound := g.value.rounds[|g.value.rounds| - 1];
      if lastRound.scores == [] then None
      else FindPlayer(g.value.players, Standings.Best(lastRound.scores).playerId)
  }

  /**
   * There is a winner only in a completed game whose last round has scores and whose roster
   * has the best line's player; that line has the highest total, is the first line with it,
   * and heads the standings the payouts are ranked by; the winner is the first player with its id.
   */
  lemma WinnerIsFirstHighest(g: Option<Game>)
    ensures Winner(g).Some? ==> IsGameComplete(g) && g.value.rounds != [] && g.value.rounds[|g.value.rounds| - 1].scores != []
    ensures Winner(g).Some? ==>
      var scores := g.value.rounds[|g.value.rounds| - 1].scores;
      var best := Standings.Best(scores);
      && Winner(g).value in g.value.players
      && Winner(g).value.id == best.playerId
      && (forall i :: 0 <= i < |g.value.players| && g.value.players[i].id == best.playerId ==>
            Winner(g).value == g.value.players[Js.IndexOf(PlayerIds(g.value.players), best.playerId)])
      && (forall i :: 0 <= i < |scores| ==> scores[i].cumulativeScore <= best.cumulativeScore)
      && best == Standings.SortByScore(scores)[0]
    ensures (IsGameComplete(g) && g.value.rounds != [] && g.value.rounds[|g.value.rounds| - 1].scores != [] &&
      Standings.Best(g.value.rounds[|g.value.rounds| - 1].scores).playerId in PlayerIds(g.value.players)) ==> Winner(g).Some?
  {
    if Winner(g).Some? {
      var scores := g.value.rounds[|g.value.rounds| - 1].scores;
      Standings.BestIsFirstMaximum(scores);
      Standings.SortByScoreHead(scores);
    }
  }
}
