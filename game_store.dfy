/**
 * The game store: the current game, the current view, the last validation error and the
 * unsaved-changes flag, updated by the setup, gameplay, navigation and management actions.
 * Every value an action computes comes from `GameFlow`. Saving is not modelled beyond the
 * ghost list `saved` of the games each `saveGame()` call would hand to storage; fresh ids and
 * the current time come in as parameters.
 */
module GameStore {
  import opened Wrappers
  import opened GameTypes
  import Validator
  import GameFlow

  /**
   * What the `error` field reports: the problems of rejected calls or results (which `join`
   * into one message), or a storage operation that failed.
   */
  datatype StoreError = InvalidEntries(errors: seq<Validator.ValidationError>) | SaveFailed | LoadFailed | DeleteFailed

  class Store {
    var currentGame: Option<Game>
    var currentView: GameView
    var error: Option<StoreError>
    var hasUnsavedChanges: bool
    ghost var saved: seq<Game>

    /** The started game, if any, keeps the round invariant. */
    ghost predicate Playing()
      reads this
    {
      currentGame.Some? ==> GameFlow.PlayInvariant(currentGame.value)
    }

    /** The initial state: no game, the home view, no error, nothing unsaved. */
    constructor ()
      ensures currentGame == None && currentView == Home && error == None && !hasUnsavedChanges
      ensures saved == [] && Playing()
    {
      currentGame := None;
      currentView := Home;
      error := None;
      hasUnsavedChanges := false;
      saved := [];
    }

    /** A roster of players, the first dealer on one of their seats, and round 1 to play. */
    static predicate ReadyToStart(g: Game)
    {
      |g.players| > 0 && 0 <= g.initialDealerIndex < |g.players| && g.currentRound == 1
    }

    // -------------------------------------------------------------- setup actions

    /** `setPlayerCount(count)`: a fresh setup game replaces whatever was there. */
    method SetPlayerCount(count: int, id: string, now: int)
      modifies this
      ensures currentGame == Some(GameFlow.NewSetupGame(count, id, now))
      ensures currentView == old(currentView) && error == old(error)
      ensures hasUnsavedChanges == old(hasUnsavedChanges) && saved == old(saved)
      ensures Playing()
    {
      currentGame := Some(GameFlow.NewSetupGame(count, id, now));
    }

    /** `setPlayers(players)`: no effect without a game. */
    method SetPlayers(players: seq<Player>)
      modifies this
      ensures currentGame == if old(currentGame).None? then None else Some(GameFlow.WithPlayers(old(currentGame).value, players))
      ensures currentView == old(currentView) && error == old(error)
      ensures hasUnsavedChanges == old(hasUnsavedChanges) && saved == old(saved)
    {
      if currentGame.None? {
        return;
      }
      currentGame := Some(GameFlow.WithPlayers(currentGame.value, players));
    }

    /** `setInitialDealer(dealerIndex)`: no effect without a game. */
    method SetInitialDealer(dealerIndex: int)
      modifies this
      ensures currentGame == if old(currentGame).None? then None else Some(GameFlow.WithInitialDealer(old(currentGame).value, dealerIndex))
      ensures currentView == old(currentView) && error == old(error)
      ensures hasUnsavedChanges == old(hasUnsavedChanges) && saved == old(saved)
    {
      if currentGame.None? {
        return;
      }
      currentGame := Some(GameFlow.WithInitialDealer(currentGame.value, dealerIndex));
    }

    /** `updateSeatingOrder(players)`: the roster in the given order, seats renumbered. */
    method UpdateSeatingOrder(players: seq<Player>)
      modifies this
      ensures currentGame == if old(currentGame).None? then None else Some(GameFlow.WithSeatingOrder(old(currentGame).value, players))
      ensures currentView == old(currentView) && error == old(error)
      ensures hasUnsavedChanges == old(hasUnsavedChanges) && saved == old(saved)
    {
      if currentGame.None? {
        return;
      }
      var updatedPlayers := GameFlow.Renumbered(players);
      currentGame := Some(currentGame.value.(players := updatedPlayers));
    }

    /** `setStakes(stakes)`: no effect without a game. */
    method SetStakes(stakes: StakesConfig)
      modifies this
      ensures currentGame == if old(currentGame).None? then None else Some(GameFlow.WithStakes(old(currentGame).value, stakes))
      ensures currentView == old(currentView) && error == old(error)
      ensures hasUnsavedChanges == old(hasUnsavedChanges) && saved == old(saved)
    {
      if currentGame.None? {
        return;
      }
      currentGame := Some(GameFlow.WithStakes(currentGame.value, stakes));
    }

    /** `startGame()`: round 1 begins, the calls view opens, and the game is saved. */
    method StartGame()
      modifies this
      ensures old(currentGame).None? ==> currentGame == None && currentView == old(currentView) && saved == old(saved)
      ensures old(currentGame).Some? ==>
        && currentGame == Some(GameFlow.Started(old(currentGame).value))
        && currentView == PlayerCalls
        && saved == old(saved) + [currentGame.value]
      ensures error == old(error) && hasUnsavedChanges == old(hasUnsavedChanges)
      ensures old(currentGame).Some? && ReadyToStart(old(currentGame).value) ==> Playing()
    {
      if currentGame.None? {
        return;
      }
      if ReadyToStart(currentGame.value) {
        GameFlow.StartedEstablishes(currentGame.value);
      }
      currentGame := Some(GameFlow.Started(currentGame.value));
      currentView := PlayerCalls;
      SaveGame(false);
    }

    // -------------------------------------------------------------- gameplay actions

    /**
     * `enterCalls(calls)`: invalid calls only set the error; valid calls are stored in the
     * current round, the results view opens, the error and the unsaved flag clear, and the game
     * is saved. Writing a round that does not exist is outside the model, hence the precondition.
     */
    method EnterCalls(calls: seq<PlayerCall>)
      modifies this
      requires currentGame.Some? && Validator.CallErrors(calls, |currentGame.value.players|) == [] ==>
        GameFlow.HasCurrentRound(currentGame.value)
      ensures old(currentGame).None? ==>
        currentGame == None && currentView == old(currentView) && error == old(error)
        && hasUnsavedChanges == old(hasUnsavedChanges) && saved == old(saved)
      ensures old(currentGame).Some? && Validator.CallErrors(calls, |old(currentGame).value.players|) != [] ==>
        && error == Some(InvalidEntries(Validator.CallErrors(calls, |old(currentGame).value.players|)))
        && currentGame == old(currentGame) && currentView == old(currentView)
        && hasUnsavedChanges == old(hasUnsavedChanges) && saved == old(saved)
      ensures old(currentGame).Some? && Validator.CallErrors(calls, |old(currentGame).value.players|) == [] ==>
        && currentGame == Some(GameFlow.WithCalls(old(currentGame).value, calls))
        && currentView == PlayerResults && error == None && !hasUnsavedChanges
        && saved == old(saved) + [currentGame.value]
      ensures old(Playing()) ==> Playing()
    {
      if currentGame.None? {
        return;
      }
      var game := currentGame.value;
      var validation := Validator.ValidateCalls(calls, |game.players|);
      if !validation.valid {
        error := Some(InvalidEntries(validation.errors));
        return;
      }
      if GameFlow.PlayInvariant(game) {
        GameFlow.WithCallsKeeps(game, calls);
      }
      currentGame := Some(GameFlow.WithCalls(game, calls));
      currentView := PlayerResults;
      error := None;
      hasUnsavedChanges := false;
      SaveGame(false);
    }

    /**
     * `enterResults(results)`: invalid results only set the error. Valid results are scored
     * against the earlier rounds; when that throws (no current round, or a player without a
     * call or a result) nothing changes and `thrown` says why. Otherwise the current round is
     * completed, the summary view opens, the error and the unsaved flag clear, and the game is saved.
     */
    method EnterResults(results: seq<PlayerResult>) returns (thrown: Option<GameFlow.Thrown>)
      modifies this
      ensures old(currentGame).None? ==>
        thrown == None && currentGame == None && currentView == old(currentView) && error == old(error)
        && hasUnsavedChanges == old(hasUnsavedChanges) && saved == old(saved)
      ensures old(currentGame).Some? && Validator.ResultErrors(results, |old(currentGame).value.players|) != [] ==>
        && thrown == None
        && error == Some(InvalidEntries(Validator.ResultErrors(results, |old(currentGame).value.players|)))
        && currentGame == old(currentGame) && currentView == old(currentView)
        && hasUnsavedChanges == old(hasUnsavedChanges) && saved == old(saved)
      ensures old(currentGame).Some? && Validator.ResultErrors(results, |old(currentGame).value.players|) == [] ==>
        match GameFlow.ScoredRound(old(currentGame).value, results)
        case Failure(t) =>
          && thrown == Some(t) && currentGame == old(currentGame) && currentView == old(currentView)
          && error == old(error) && hasUnsavedChanges == old(hasUnsavedChanges) && saved == old(saved)
        case Success(h) =>
          && thrown == None && currentGame == Some(h)
          && currentView == RoundSummary && error == None && !hasUnsavedChanges
          && saved == old(saved) + [h]
      ensures old(Playing()) ==> Playing()
    {
      thrown := None;
      if currentGame.None? {
        return;
      }
      var game := currentGame.value;
      var validation := Validator.ValidateResults(results, |game.players|);
      if !validation.valid {
        error := Some(InvalidEntries(validation.errors));
        return;
      }
      var scored := GameFlow.ScoredRound(game, results);
      if scored.Failure? {
        thrown := Some(scored.error);
        return;
      }
      if GameFlow.PlayInvariant(game) {
        GameFlow.ScoredRoundKeeps(game, results);
      }
      currentGame := Some(scored.value);
      currentView := RoundSummary;
      error := None;
      hasUnsavedChanges := false;
      SaveGame(false);
    }

    /**
     * `nextRound(now)`: after round 5 the game completes and the completion view opens;
     * otherwise the next round begins and the calls view opens; either way the game is saved.
     * With no players the source computes a NaN dealer, which the model excludes.
     */
    method NextRound(now: int)
      modifies this
      requires currentGame.Some? && currentGame.value.currentRound + 1 <= GameFlow.MaxRounds ==> |currentGame.value.players| > 0
      ensures old(currentGame).None? ==> currentGame == None && currentView == old(currentView) && saved == old(saved)
      ensures old(currentGame).Some? ==>
        && currentGame == Some(GameFlow.Advanced(old(currentGame).value, now))
        && currentView == (if old(currentGame).value.currentRound + 1 > GameFlow.MaxRounds then GameComplete else PlayerCalls)
        && saved == old(saved) + [currentGame.value]
      ensures error == old(error) && hasUnsavedChanges == old(hasUnsavedChanges)
      ensures old(Playing()) && (old(currentGame).Some? ==> old(currentGame).value.status != Setup) ==> Playing()
    {
      if currentGame.None? {
        return;
      }
      var game := currentGame.value;
      var nextRoundNumber := game.currentRound + 1;
      if game.status != Setup && GameFlow.PlayInvariant(game) {
        GameFlow.AdvancedKeeps(game, now);
      }
      currentGame := Some(GameFlow.Advanced(game, now));
      if nextRoundNumber > GameFlow.MaxRounds {
        currentView := GameComplete;
      } else {
        currentView := PlayerCalls;
      }
      SaveGame(false);
    }

    // -------------------------------------------------------------- navigation

    /** `setView(view)`. */
    method SetView(view: GameView)
      modifies this
      ensures currentView == view
      ensures currentGame == old(currentGame) && error == old(error)
      ensures hasUnsavedChanges == old(hasUnsavedChanges) && saved == old(saved)
    {
      currentView := view;
    }

    /** `goToNextView()`. */
    method GoToNextView()
      modifies this
      ensures currentView == GameFlow.NextView(old(currentView))
      ensures currentGame == old(currentGame) && error == old(error)
      ensures hasUnsavedChanges == old(hasUnsavedChanges) && saved == old(saved)
    {
      currentView := GameFlow.NextView(currentView);
    }

    /** `goToPreviousView()`. */
    method GoToPreviousView()
      modifies this
      ensures currentView == GameFlow.PreviousView(old(currentView))
      ensures currentGame == old(currentGame) && error == old(error)
      ensures hasUnsavedChanges == old(hasUnsavedChanges) && saved == old(saved)
    {
      currentView := GameFlow.PreviousView(currentView);
    }

    // -------------------------------------------------------------- game management

    /** `endGame(now)`: completed now, the completion view opens, and the game is saved. */
    method EndGame(now: int)
      modifies this
      ensures old(currentGame).None? ==> currentGame == None && currentView == old(currentView) && saved == old(saved)
      ensures old(currentGame).Some? ==>
        && currentGame == Some(GameFlow.Ended(old(currentGame).value, now))
        && currentView == GameComplete && saved == old(saved) + [currentGame.value]
      ensures error == old(error) && hasUnsavedChanges == old(hasUnsavedChanges)
      ensures old(Playing()) && (old(currentGame).Some? ==> old(currentGame).value.status != Setup) ==> Playing()
    {
      if currentGame.None? {
        return;
      }
      if currentGame.value.status != Setup && GameFlow.PlayInvariant(currentGame.value) {
        GameFlow.EndedKeeps(currentGame.value, now);
      }
      currentGame := Some(GameFlow.Ended(currentGame.value, now));
      currentView := GameComplete;
      SaveGame(false);
    }

    /**
     * `saveGame()`: hands the current game to storage; when storage fails, the error says so.
     * The actions below save on the success path.
     */
    method SaveGame(fails: bool)
      modifies this
      ensures old(currentGame).None? ==> saved == old(saved) && error == old(error)
      ensures old(currentGame).Some? ==>
        saved == old(saved) + [old(currentGame).value] && error == (if fails then Some(SaveFailed) else old(error))
      ensures currentGame == old(currentGame) && currentView == old(currentView)
      ensures hasUnsavedChanges == old(hasUnsavedChanges)
    {
      if currentGame.None? {
        return;
      }
      saved := saved + [currentGame.value];
      if fails {
        error := Some(SaveFailed);
      }
    }

    /**
     * `loadActiveGame()`, given what storage returned: the stored active game, if there is one,
     * becomes the current game; a failing storage only sets the error.
     */
    method LoadActiveGame(stored: Option<Game>, fails: bool)
      modifies this
      ensures fails ==> currentGame == old(currentGame) && error == Some(LoadFailed)
      ensures !fails ==> currentGame == (if stored.Some? then stored else old(currentGame)) && error == old(error)
      ensures currentView == old(currentView) && hasUnsavedChanges == old(hasUnsavedChanges) && saved == old(saved)
    {
      if fails {
        error := Some(LoadFailed);
        return;
      }
      if stored.Some? {
        currentGame := stored;
      }
    }

    /**
     * `deleteActiveGame()` awaited to the end, given whether storage failed: the game is
     * dropped and the home view opens, or only the error is set.
     */
    method DeleteActiveGame(fails: bool)
      modifies this
      ensures old(currentGame).None? ==> currentGame == None && currentView == old(currentView) && error == old(error)
      ensures old(currentGame).Some? && fails ==>
        currentGame == old(currentGame) && currentView == old(currentView) && error == Some(DeleteFailed)
      ensures old(currentGame).Some? && !fails ==> currentGame == None && currentView == Home && error == None
      ensures hasUnsavedChanges == old(hasUnsavedChanges) && saved == old(saved)
      ensures old(Playing()) ==> Playing()
    {
      DeleteSettled(currentGame, fails);
    }

    /**
     * What `deleteActiveGame()` does once storage has answered for `target`, the game it read
     * when called: nothing if there was none, the error if storage failed, and otherwise no game
     * and the home view, whatever happened in between.
     */
    method DeleteSettled(target: Option<Game>, fails: bool)
      modifies this
      ensures target.None? ==> currentGame == old(currentGame) && currentView == old(currentView) && error == old(error)
      ensures target.Some? && fails ==>
        currentGame == old(currentGame) && currentView == old(currentView) && error == Some(DeleteFailed)
      ensures target.Some? && !fails ==> currentGame == None && currentView == Home && error == None
      ensures hasUnsavedChanges == old(hasUnsavedChanges) && saved == old(saved)
      ensures old(Playing()) ==> Playing()
    {
      if target.None? {
        return;
      }
      if fails {
        error := Some(DeleteFailed);
        return;
      }
      currentGame := None;
      currentView := Home;
      error := None;
    }

    /** `newGame()`: no game, the player-count view, no error. */
    method NewGame()
      modifies this
      ensures currentGame == None && currentView == PlayerCount && error == None
      ensures hasUnsavedChanges == old(hasUnsavedChanges) && saved == old(saved)
      ensures Playing()
    {
      currentGame := None;
      currentView := PlayerCount;
      error := None;
    }

    /** `restartGameWithSamePlayers(id, now)`: a new game at round 1 with the same roster, dealer and stakes, saved. */
    method RestartGameWithSamePlayers(id: string, now: int)
      modifies this
      ensures old(currentGame).None? ==>
        currentGame == None && currentView == old(currentView) && error == old(error)
        && hasUnsavedChanges == old(hasUnsavedChanges) && saved == old(saved)
      ensures old(currentGame).Some? ==>
        && currentGame == Some(GameFlow.Restarted(old(currentGame).value, id, now))
        && currentView == PlayerCalls && error == None && !hasUnsavedChanges
        && saved == old(saved) + [currentGame.value]
      ensures old(Playing()) && (old(currentGame).Some? ==> old(currentGame).value.status != Setup) ==> Playing()
    {
      if currentGame.None? {
        return;
      }
      if currentGame.value.status != Setup && GameFlow.PlayInvariant(currentGame.value) {
        GameFlow.RestartedKeeps(currentGame.value, id, now);
      }
      currentGame := Some(GameFlow.Restarted(currentGame.value, id, now));
      currentView := PlayerCalls;
      error := None;
      hasUnsavedChanges := false;
      SaveGame(false);
    }

    /** `goHome()`: the home view, nothing unsaved. */
    method GoHome()
      modifies this
      ensures currentView == Home && !hasUnsavedChanges
      ensures currentGame == old(currentGame) && error == old(error) && saved == old(saved)
    {
      currentView := Home;
      hasUnsavedChanges := false;
    }

    /** `setHasUnsavedChanges(hasChanges)`. */
    method SetHasUnsavedChanges(hasChanges: bool)
      modifies this
      ensures hasUnsavedChanges == hasChanges
      ensures currentGame == old(currentGame) && currentView == old(currentView)
      ensures error == old(error) && saved == old(saved)
    {
      hasUnsavedChanges := hasChanges;
    }

    // -------------------------------------------------------------- selectors

    /** `getCurrentDealer()`. */
    function GetCurrentDealer(): (r: Option<Player>)
      reads this
    {
      GameFlow.CurrentDealer(currentGame)
    }

    /** `getCurrentRound()`. */
    function GetCurrentRound(): (r: Option<Round>)
      reads this
    {
      GameFlow.CurrentRound(currentGame)
    }

    /** `isGameComplete()`. */
    predicate IsGameComplete()
      reads this
    {
      GameFlow.IsGameComplete(currentGame)
    }

    /** `getWinner()`. */
    function GetWinner(): (r: Option<Player>)
      reads this
    {
      GameFlow.Winner(currentGame)
    }
  }
}
