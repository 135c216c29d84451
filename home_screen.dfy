/**
 * The home screen: resuming a game at the view its current round calls for, starting a new game
 * (asking first while one is in progress), deleting the active game, and the preview of the
 * latest standings.
 */
module HomeScreen {
  import opened Wrappers
  import opened GameTypes
  import GameFlow
  import GameStore
  import Standings

  /** `currentGame && currentGame.status === 'in-progress'`. */
  predicate HasActiveGame(game: Option<Game>)
  {
    game.Some? && game.value.status == InProgress
  }

  /**
   * The view `handleResumeGame` opens for `g`: by the status of `rounds[currentRound - 1]`, or
   * the calls view when there is no such round; `None` when it opens none, which is the case for
   * a round whose results are entered but which is not completed.
   */
  function ResumeView(g: Game): (r: Option<GameView>)
  {
    var i := g.currentRound - 1;
    if 0 <= i < |g.rounds| then
      match g.rounds[i].status
      case Pending => Some(PlayerCalls)
      case CallsEntered => Some(PlayerResults)
      case RoundCompleted => Some(RoundSummary)
      case ResultsEntered => None
    else Some(PlayerCalls)
  }

  /**
   * Resuming reopens the view the store opened last: the calls view after starting, restarting
   * or moving to a next round; the results view after the calls; the summary after the results.
   */
  lemma ResumeReturnsToLastView(g: Game, calls: seq<PlayerCall>, results: seq<PlayerResult>, id: string, now: int)
    ensures ResumeView(GameFlow.Started(g)) == Some(PlayerCalls)
    ensures ResumeView(GameFlow.Restarted(g, id, now)) == Some(PlayerCalls)
    ensures GameFlow.HasCurrentRound(g) ==> ResumeView(GameFlow.WithCalls(g, calls)) == Some(PlayerResults)
    ensures GameFlow.ScoredRound(g, results).Success? ==>
      ResumeView(GameFlow.ScoredRound(g, results).value) == Some(RoundSummary)
    ensures GameFlow.PlayInvariant(g) && g.status != Setup && g.currentRound < GameFlow.MaxRounds ==>
      ResumeView(GameFlow.Advanced(g, now)) == Some(PlayerCalls)
  {
    GameFlow.ScoredRoundChangesCurrentRoundOnly(g, results);
    if GameFlow.PlayInvariant(g) && g.status != Setup && g.currentRound < GameFlow.MaxRounds {
      GameFlow.AdvancedKeeps(g, now);
    }
  }

  /** The index of the last round with scores. */
  function LastScored(rounds: seq<Round>): (r: Option<nat>)
  {
    if rounds == [] then None
    else if rounds[|rounds| - 1].scores != [] then Some(|rounds| - 1)
    else LastScored(rounds[..|rounds| - 1])
  }

  /**
   * No round is found exactly when no round has scores; the round found has scores and every
   * round after it has none, so it is the last of `rounds.filter(r => r.scores.length > 0)`.
   */
  lemma {:induction false} LastScoredSpec(rounds: seq<Round>)
    ensures LastScored(rounds).None? <==> forall i :: 0 <= i < |rounds| ==> rounds[i].scores == []
    ensures LastScored(rounds).Some? ==>
      var k := LastScored(rounds).value;
      && k < |rounds| && rounds[k].scores != []
      && forall i :: k < i < |rounds| ==> rounds[i].scores == []
  {
    if rounds != [] && rounds[|rounds| - 1].scores == [] {
      var front := rounds[..|rounds| - 1];
      LastScoredSpec(front);
      assert forall i :: 0 <= i < |front| ==> front[i] == rounds[i];
    }
  }

  class Home {
    var showDeleteConfirm: bool

    constructor ()
      ensures !showDeleteConfirm
    {
      showDeleteConfirm := false;
    }

    /** `handleResumeGame()`: opens `ResumeView` of the current game, if it names a view. */
    method HandleResumeGame(store: GameStore.Store)
      modifies store
      ensures var g := old(store.currentGame);
        store.currentView == if g.Some? && ResumeView(g.value).Some? then ResumeView(g.value).value else old(store.currentView)
      ensures store.currentGame == old(store.currentGame) && store.error == old(store.error)
      ensures store.hasUnsavedChanges == old(store.hasUnsavedChanges) && store.saved == old(store.saved)
    {
      if store.currentGame.None? {
        return;
      }
      var view := ResumeView(store.currentGame.value);
      if view.Some? {
        store.SetView(view.value);
      }
    }

    /** `handleNewGame()`: asks for confirmation while a game is in progress, else starts over. */
    method HandleNewGame(store: GameStore.Store)
      modifies this, store
      ensures HasActiveGame(old(store.currentGame)) ==>
        showDeleteConfirm && store.currentGame == old(store.currentGame) && store.currentView == old(store.currentView)
        && store.error == old(store.error)
      ensures !HasActiveGame(old(store.currentGame)) ==>
        showDeleteConfirm == old(showDeleteConfirm) && store.currentGame == None && store.currentView == PlayerCount
        && store.error == None
      ensures store.hasUnsavedChanges == old(store.hasUnsavedChanges) && store.saved == old(store.saved)
    {
      if HasActiveGame(store.currentGame) {
        showDeleteConfirm := true;
      } else {
        store.NewGame();
      }
    }

    /** `handleCancelGame()`. */
    method HandleCancelGame()
      modifies this
      ensures showDeleteConfirm
    {
      showDeleteConfirm := true;
    }

    /**
     * `handleConfirmDelete()` as written: `deleteActiveGame()` is not awaited, so it reads the
     * game, `newGame()` runs, and only then does the storage answer settle the delete. When the
     * delete succeeds it overrides the player-count view `newGame()` chose with the home view.
     */
    method HandleConfirmDelete(store: GameStore.Store, fails: bool)
      modifies this, store
      ensures !showDeleteConfirm && store.currentGame == None
      ensures old(store.currentGame).Some? && !fails ==> store.currentView == Home && store.error == None
      ensures old(store.currentGame).Some? && fails ==> store.currentView == PlayerCount && store.error == Some(GameStore.DeleteFailed)
      ensures old(store.currentGame).None? ==> store.currentView == PlayerCount && store.error == None
      ensures store.hasUnsavedChanges == old(store.hasUnsavedChanges) && store.saved == old(store.saved)
    {
      var target := store.currentGame;
      showDeleteConfirm := false;
      store.NewGame();
      store.DeleteSettled(target, fails);
    }

    /**
     * `handleConfirmDelete()` with the delete awaited before `newGame()`: whatever storage
     * answers, the player-count view opens with no game.
     */
    method HandleConfirmDeleteAwaited(store: GameStore.Store, fails: bool)
      modifies this, store
      ensures !showDeleteConfirm && store.currentGame == None && store.currentView == PlayerCount && store.error == None
      ensures store.hasUnsavedChanges == old(store.hasUnsavedChanges) && store.saved == old(store.saved)
    {
      store.DeleteActiveGame(fails);
      showDeleteConfirm := false;
      store.NewGame();
    }

    /**
     * `getCurrentScores()`: the scores of the last round that has any, highest total first, or
     * `None` when no round has scores. `sort` works in place on the stored array, so the store's
     * round keeps the sorted order.
     */
    method GetCurrentScores(store: GameStore.Store) returns (scores: Option<seq<RoundScore>>)
      modifies store
      ensures var g := old(store.currentGame);
        g.None? || LastScored(g.value.rounds).None? ==>
          scores == None && store.currentGame == g
      ensures var g := old(store.currentGame);
        g.Some? && LastScored(g.value.rounds).Some? ==>
          var k := LastScored(g.value.rounds).value;
          && k < |g.value.rounds|
          && scores == Some(Standings.SortByScore(g.value.rounds[k].scores))
          && store.currentGame == Some(g.value.(rounds := g.value.rounds[k := g.value.rounds[k].(scores := scores.value)]))
      ensures scores.Some? ==> scores.value != [] && Standings.NonIncreasing(scores.value)
      ensures scores.Some? ==>
        exists k :: 0 <= k < |old(store.currentGame).value.rounds|
          && multiset(scores.value) == multiset(old(store.currentGame).value.rounds[k].scores)
      ensures store.currentView == old(store.currentView) && store.error == old(store.error)
      ensures store.hasUnsavedChanges == old(store.hasUnsavedChanges) && store.saved == old(store.saved)
      ensures old(store.Playing()) ==> store.Playing()
    {
      scores := None;
      if store.currentGame.None? || store.currentGame.value.rounds == [] {
        return;
      }
      var g := store.currentGame.value;
      LastScoredSpec(g.rounds);
      var last := LastScored(g.rounds);
      if last.None? {
        return;
      }
      var k := last.value;
      var sorted := Standings.SortByScore(g.rounds[k].scores);
      Standings.SortByScoreSpec(g.rounds[k].scores);
      scores := Some(sorted);
      var h := g.(rounds := g.rounds[k := g.rounds[k].(scores := sorted)]);
      if GameFlow.PlayInvariant(g) {
        assert forall j :: 0 <= j < |h.rounds| ==>
          (h.rounds[j].roundNumber == g.rounds[j].roundNumber && h.rounds[j].dealerIndex == g.rounds[j].dealerIndex);
        assert GameFlow.PlayInvariant(h) by {
          if h.status != Setup {
            forall j | 0 <= j < |h.rounds| ensures GameFlow.RoundInRotation(h, j) {
              assert GameFlow.RoundInRotation(g, j);
            }
          }
        }
      }
      store.currentGame := Some(h);
    }
  }
}
