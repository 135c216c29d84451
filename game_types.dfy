/**
 * The records the Call Break engine works on. JavaScript numbers are exact reals; seat
 * indices, counts and round numbers are integers; dates are integer timestamps.
 */
module GameTypes {
  import opened Wrappers

  datatype GameStatus = Setup | InProgress | Completed

  /** `results-entered` is declared by the source but never produced by its state machine. */
  datatype RoundStatus = Pending | CallsEntered | ResultsEntered | RoundCompleted

  datatype Player = Player(id: string, name: string, seatingPosition: int)

  /** Stakes: a currency symbol and the amount each rank pays, lowest rank first. */
  datatype StakesConfig = StakesConfig(currency: string, amounts: seq<real>)

  datatype PlayerCall = PlayerCall(playerId: string, call: real)

  datatype PlayerResult = PlayerResult(playerId: string, tricksWon: real)

  datatype RoundScore = RoundScore(
    playerId: string,
    playerName: string,
    call: real,
    result: real,
    roundScore: real,
    cumulativeScore: real,
    callMet: bool,
    extraTricks: real)

  datatype Round = Round(
    roundNumber: int,
    dealerIndex: int,
    status: RoundStatus,
    calls: seq<PlayerCall>,
    results: seq<PlayerResult>,
    scores: seq<RoundScore>)

  datatype Game = Game(
    id: string,
    createdAt: int,
    completedAt: Option<int>,
    status: GameStatus,
    players: seq<Player>,
    rounds: seq<Round>,
    currentRound: int,
    initialDealerIndex: int,
    stakes: Option<StakesConfig>)

  datatype GameView =
    | Home
    | PlayerCount
    | PlayerDetails
    | PlayerRoles
    | StakesSetup
    | PlayerCalls
    | PlayerResults
    | RoundSummary
    | CallLog
    | GameComplete
    | GameHistory
}
