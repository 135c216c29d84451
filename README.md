# Call Break score tracker: a verified model of the scoring core

Call Break is a four-player trick-taking card game. Each round every player *calls* a number of
tricks (1 to 13) and then wins some of the 13 tricks. A player who wins fewer tricks than called
loses the call. A player who meets the call earns the call. Every trick above the call adds one
tenth of a point. This project models the engine and the store of a score-tracking app for the
game, and proves properties of that model:

- the scoring rules;
- validation of calls, results and player names;
- the dealer rotation and the calling order;
- round scoring and the cumulative scores;
- stake payouts and how they are displayed;
- the game store's actions;
- three screens that drive the store: player roles, stakes, and home.

One Dafny module models each source file:

| module | source file | form |
|---|---|---|
| `Calculator` | `src/lib/scoring/calculator.ts` | functions and lemmas |
| `Validator` | `src/lib/scoring/validator.ts` | methods with loops, proved against functions |
| `DealerRotation` | `src/lib/game-logic/dealer-rotation.ts` | functions and lemmas |
| `CallOrder` | `src/lib/game-logic/call-order.ts` | a loop method, functions and lemmas |
| `RoundManager` | `src/lib/game-logic/round-manager.ts` | functions, a loop method and lemmas |
| `StakesCalculator` | `src/lib/game-logic/stakes-calculator.ts` | a loop method and lemmas |
| `GameFlow`, `GameStore` | `src/store/gameStore.ts` | the new game values (functions), and the store (a class) |
| `PlayerRolesSetup` | `src/components/game-setup/PlayerRolesSetup.tsx` | a class for the screen state |
| `StakesSetup` | `src/components/game-setup/StakesSetup.tsx` | a class for the screen state |
| `HomeScreen` | `src/components/HomeScreen.tsx` | a class for the screen state |

Some modules support the others:

- `GameTypes` holds the data shapes of `src/types/game.types.ts`.
- `Wrappers` holds `Option` and `Result`.
- `Seqs` holds sums and distinctness.
- `Standings` holds the descending stable sort and the `reduce` that picks the best line.
- `Js` holds the JavaScript built-ins the code relies on:
  - `Math.round`, `Math.abs` and `%`;
  - `toFixed`, `parseFloat` of its output, `trim` and `toLowerCase`;
  - `Number.isInteger`, `indexOf` and `new Set(...).size`.

Every number of the JavaScript code (calls, tricks, scores, amounts) is an exact rational
(`real`). `Math.round(x)` is `floor(x + 0.5)`. JavaScript's `%` keeps the sign of the dividend,
and `Js.Rem` models it that way. Ids from `crypto.randomUUID()` and times from `new Date()` come
in as parameters. So do the answers of the storage layer: whether an operation failed, and which
game was stored. The store records each game that `saveGame()` hands to storage in a ghost log,
`saved`.

Two points about what the code does not do:

- **No overflow carry.** The comment on `applyDecimalOverflow` (`src/lib/scoring/calculator.ts`,
  lines 24-31) describes a carry of 13 extra tricks (1.3) into one point. No modelled file calls that
  function. `calculateCumulativeScore` contains no carry: it adds and rounds to two places.
  `applyDecimalOverflow` contains a carry branch, but that branch can never run (see
  `Calculator.OverflowBranchIsDead`). The comment's own example, 8.13 becoming 9.03, does not
  happen: 8.13 comes back as 8.13 (`Calculator.OverflowDocExampleFails`).
- **No status checks.** `enterCalls`, `enterResults` and `nextRound` never check the current
  round's status. They check only their input and whether a game exists, and so does the model.

## Model

| member | source | states |
|---|---|---|
| Calculator.CalculateRoundScore | src/lib/scoring/calculator.ts:13-22 | the three branches of `calculateRoundScore`: minus the call when it fails, the call when met, the call plus 0.1 per overtrick; what they mean is stated by `RoundScoreOutcome`, `RoundScoreInTenths`, `RoundScoreIsTenths` and `RoundScoreRange` |
| Calculator.RoundScoreOutcome | src/lib/scoring/calculator.ts:13-22 | for a call of at least 1 the score is never 0; it is negative exactly when fewer tricks than called were won, and is then minus the call; it equals the call exactly when the call is met; it exceeds the call exactly when tricks were won above it |
| Calculator.RoundScoreInTenths | src/lib/scoring/calculator.ts:20-21 | with overtricks, ten times the score is ten times the call plus the number of overtricks |
| Calculator.RoundScoreIsTenths | src/lib/scoring/calculator.ts:13-22 | the score of whole-number inputs has at most one decimal |
| Calculator.RoundScoreRange | src/lib/scoring/calculator.ts:13-22 | within the rules (call 1..13, tricks 0..13) the score is in [-13, 13], and an overtrick score stays below call + 1.3 |
| Calculator.CalculateCumulativeScore | src/lib/scoring/calculator.ts:62-70 | the new total is within half a hundredth of previous + round score |
| Calculator.CumulativeIsExactSum | src/lib/scoring/calculator.ts:62-70 | on inputs with at most two decimals the total is the exact sum |
| Calculator.CumulativeOfTenths | src/lib/scoring/calculator.ts:62-70 | for inputs in tenths the total is the exact sum and is still in tenths: there is no carry |
| Calculator.ApplyDecimalOverflow | src/lib/scoring/calculator.ts:36-53 | `applyDecimalOverflow` as written, carry branch included; `OverflowBranchIsDead` and `OverflowDocExampleFails` state what it does |
| Calculator.OverflowBranchIsDead | src/lib/scoring/calculator.ts:36-53 | the fraction tested against 130 hundredths is always in [0, 100), so `applyDecimalOverflow` is exactly two-place rounding |
| Calculator.OverflowDocExampleFails | src/lib/scoring/calculator.ts:31 | the documented example does not hold: 8.13 comes back as 8.13, not 9.03 |
| Calculator.FormatScore | src/lib/scoring/calculator.ts:78-80 | `score.toFixed(1)`; its shape and its round trip are stated by `FormatScoreOneDecimal` and `FormatScoreRoundTrip` |
| Calculator.FormatScoreOneDecimal | src/lib/scoring/calculator.ts:78-80 | the display text has exactly one decimal point and exactly one digit after it |
| Calculator.FormatScoreRoundTrip | src/lib/scoring/calculator.ts:78-80 | the display text reads back as a number within 0.05 of the score, and reads back exactly when, and only when, the score is in tenths |
| Validator.ListErrors | src/lib/scoring/validator.ts:22-30 | the count check and the duplicate-id check shared by calls and results; `ListErrorsIff` states when they pass |
| Validator.ListErrorsIff | src/lib/scoring/validator.ts:22-30 | the list checks pass exactly when there is one entry per player and no id repeats; a wrong count is the first message; a repeated id is reported |
| Validator.CallErrors | src/lib/scoring/validator.ts:15-46 | the messages `validateCalls` produces, in order; the reference for `ValidateCalls`, characterised by `CallsValidIff` and `CallProblemsReported` |
| Validator.ValidateCalls | src/lib/scoring/validator.ts:15-46 | the loop reports exactly `CallErrors`, and the result is valid exactly when there is no error |
| Validator.CallEntriesEmpty | src/lib/scoring/validator.ts:33-40 | the per-call checks report nothing exactly when every call is a whole number from 1 to 13 |
| Validator.CallEntryReported | src/lib/scoring/validator.ts:33-40 | every message about one call appears among the messages for the whole list |
| Validator.CallsValidIff | src/lib/scoring/validator.ts:15-46 | calls are accepted exactly when there is one per player, the ids are distinct and every call is a whole number from 1 to 13 |
| Validator.CallProblemsReported | src/lib/scoring/validator.ts:22-40 | a wrong count is the first message; a repeated id is reported; a call outside 1..13, and a fractional call, get a message with the player's position |
| Validator.ResultErrors | src/lib/scoring/validator.ts:61-99 | the messages `validateResults` produces, in order; the reference for `ValidateResults`, characterised by `ResultsValidIff` and `ResultProblemsReported` |
| Validator.ValidateResults | src/lib/scoring/validator.ts:61-99 | the loop, including its running total, reports exactly `ResultErrors`, and the result is valid exactly when there is no error |
| Validator.ResultEntriesEmpty | src/lib/scoring/validator.ts:79-88 | the per-result checks report nothing exactly when every result is a whole number from 0 to 13 |
| Validator.ResultEntryReported | src/lib/scoring/validator.ts:79-88 | every message about one result appears among the messages for the whole list |
| Validator.ResultsValidIff | src/lib/scoring/validator.ts:61-99 | results are accepted exactly when there is one per player, the ids are distinct, every result is a whole number from 0 to 13 and a non-empty list totals 13 |
| Validator.ResultProblemsReported | src/lib/scoring/validator.ts:68-93 | a wrong count is the first message; a repeated id is reported; a bad trick count names its position; a non-empty list whose tricks do not total 13 has that total as its last message |
| Validator.NameErrors | src/lib/scoring/validator.ts:111-131 | the messages `validatePlayerNames` produces: empty names in order, then the duplicate warning; the reference for `ValidatePlayerNames`, characterised by `NamesValidIff` and `DuplicateNamesWarned` |
| Validator.ValidatePlayerNames | src/lib/scoring/validator.ts:111-131 | the loop reports exactly `NameErrors`, and the names are valid exactly when there is no message or the first one is the duplicate warning |
| Validator.BlankIff | src/lib/scoring/validator.ts:116 | a name is blank exactly when all of its characters are white space (the empty name included) |
| Validator.NameEntriesShape | src/lib/scoring/validator.ts:115-119 | the empty-name checks report nothing exactly when no name is blank; every report is an empty-name message; each blank name is reported with its position |
| Validator.NamesValidIff | src/lib/scoring/validator.ts:111-131 | the names are accepted exactly when none is blank, whether or not any repeat; each blank name is reported |
| Validator.DuplicateNamesWarned | src/lib/scoring/validator.ts:122-125 | names that are equal after trimming and lower-casing add exactly one warning, as the last message, after empty-name errors only |
| Seqs.ToSetSize | src/lib/scoring/validator.ts:27 | `new Set(ids).size === ids.length` holds exactly when no id repeats |
| Js.MathRound | src/lib/scoring/calculator.ts:69 | `Math.round` lands within half of its argument |
| Js.RoundTo2 | src/lib/scoring/calculator.ts:69 | two-place rounding moves a number by at most half a hundredth |
| Js.RoundTo2OfHundredths | src/lib/scoring/calculator.ts:69 | a number with at most two decimals is unchanged by two-place rounding |
| Js.TrimShape | src/lib/scoring/validator.ts:116 | `trim` gives a part of the string that neither starts nor ends with white space |
| Js.TrimEmpty | src/lib/scoring/validator.ts:116 | `trim` gives the empty string exactly when the string is all white space |
| Js.ToLowerCaseAscii | src/lib/scoring/validator.ts:122 | lower-casing keeps the length, maps each ASCII capital to its small letter and keeps every other ASCII character |
| Js.NatToStringInjective | src/lib/scoring/calculator.ts:79 | different whole numbers have different decimal texts |
| Js.ToFixedParses | src/lib/scoring/calculator.ts:79 | the text `toFixed(d)` produces reads back as the number rounded to `d` places |
| Js.ToFixedShape | src/lib/scoring/calculator.ts:79 | the text `toFixed(d)` produces, for d ≥ 1, has exactly one decimal point, followed by exactly `d` digits |
| DealerRotation.GetNextDealerIndex | src/lib/game-logic/dealer-rotation.ts:8-13 | `(currentDealerIndex + 1) % playerCount`; `NextDealerClockwise` states that it is the next seat clockwise |
| DealerRotation.GetDealerForRound | src/lib/game-logic/dealer-rotation.ts:23-32 | `(initialDealerIndex + roundNumber - 1) % playerCount`; `DealerForRoundInRange`, `DealerRecurrence` and `DealerPeriod` state the rotation |
| DealerRotation.NextDealerClockwise | src/lib/game-logic/dealer-rotation.ts:8-13 | the next dealer is always a seat; it is the next seat clockwise, and the last seat wraps to seat 0 |
| DealerRotation.DealerForRoundInRange | src/lib/game-logic/dealer-rotation.ts:23-32 | every round is dealt from some seat, and round 1 is dealt by the chosen dealer |
| DealerRotation.DealerRecurrence | src/lib/game-logic/dealer-rotation.ts:23-32 | each round's dealer is the next dealer after the previous round's dealer |
| DealerRotation.DealerPeriod | src/lib/game-logic/dealer-rotation.ts:23-32 | the deal returns to the same seat after exactly `playerCount` rounds and no earlier |
| CallOrder.CallingOrder | src/lib/game-logic/call-order.ts:9-24 | the order `getCallingOrder` builds, one entry per player; the reference for `GetCallingOrder`, characterised by `CallingOrderIsRotation` |
| CallOrder.GetCallingOrder | src/lib/game-logic/call-order.ts:9-24 | the loop builds exactly the seats after the dealer in clockwise order, `playerCount` of them |
| CallOrder.CallingOrderIsRotation | src/lib/game-logic/call-order.ts:9-24 | the order lists each seat exactly once (a permutation of the seats); the seat after the dealer is first and the dealer is last |
| CallOrder.CallingOrderExample | src/lib/game-logic/call-order.ts:13-15 | with the dealer at seat 2 of 4, the order is 3, 0, 1, 2 |
| CallOrder.GetCurrentCallerIndex | src/lib/game-logic/call-order.ts:34-43 | `getCurrentCallerIndex`: entry `callsMade` of the order, or none; `CurrentCaller` states what it returns |
| CallOrder.CanPlayerCall | src/lib/game-logic/call-order.ts:54-62 | `canPlayerCall`: the seat is the current caller; `EachSeatCallsOnce` states that each seat gets one turn |
| CallOrder.CurrentCaller | src/lib/game-logic/call-order.ts:34-43 | there is a current caller exactly while fewer than `playerCount` calls have been made; it is a seat; it is the seat after the dealer at first and the dealer last |
| CallOrder.EachSeatCallsOnce | src/lib/game-logic/call-order.ts:54-62 | each seat may call at exactly one number of calls made; a number that is not a seat never may |
| RoundManager.CreateRound | src/lib/game-logic/round-manager.ts:11-20 | a new round is pending, with no calls, results or scores, and has the given number and dealer |
| RoundManager.FindCall | src/lib/game-logic/round-manager.ts:38 | there is no call exactly when no call has the id; otherwise the first call with that id |
| RoundManager.FindResult | src/lib/game-logic/round-manager.ts:39 | there is no result exactly when no result has the id; otherwise the first result with that id |
| RoundManager.MaxZero | src/lib/game-logic/round-manager.ts:53 | `Math.max(0, x)` is at least 0 and at least x, and is one of them |
| RoundManager.CalculateRoundScores | src/lib/game-logic/round-manager.ts:31-60 | `calculateRoundScores`: a score line per player, or the error thrown for the first player lacking a call or a result; `RoundScoresSucceedIff`, `RoundScoresLines` and `RoundScoresFailure` state it |
| RoundManager.ScoreForIsScoreLine | src/lib/game-logic/round-manager.ts:37-58 | a player's line is computed exactly when the player has both a call and a result; the line holds the first call and the first result, the round score and the new total |
| RoundManager.RoundScoresSucceedIff | src/lib/game-logic/round-manager.ts:37-43 | the round is scored exactly when every player has a call and a result |
| RoundManager.RoundScoresLines | src/lib/game-logic/round-manager.ts:37-58 | the scores have one line per player, in player order, each that player's score line |
| RoundManager.RoundScoresFailure | src/lib/game-logic/round-manager.ts:41-43 | a failure names the first player, in player order, who lacks a call or a result |
| RoundManager.CumulativeScores | src/lib/game-logic/round-manager.ts:68-78 | the map `getCumulativeScores` builds, as a fold over the rounds; the reference for `GetCumulativeScores`, characterised by `CumulativeScoresKeys` and `CumulativeScoresLast` |
| RoundManager.GetCumulativeScores | src/lib/game-logic/round-manager.ts:68-78 | the nested loops build exactly the fold `CumulativeScores` |
| RoundManager.FoldScoresLastLine | src/lib/game-logic/round-manager.ts:71-75 | folding one round's lines maps an id to the total on its last line |
| RoundManager.CumulativeScoresKeys | src/lib/game-logic/round-manager.ts:68-78 | no rounds give the empty map; the map holds exactly the ids that some round scores |
| RoundManager.CumulativeScoresLast | src/lib/game-logic/round-manager.ts:68-78 | each id maps to the total on the last line scoring it, in the last round that scores it |
| Standings.SortByScore | src/lib/game-logic/stakes-calculator.ts:23 | the stable descending sort of the lines by total; `SortByScoreSpec` and `SortByScoreStable` state what it promises |
| Standings.Best | src/store/gameStore.ts:437-439 | the line `reduce` picks; `BestIsFirstMaximum` states which one |
| Standings.SortByScoreSpec | src/lib/game-logic/stakes-calculator.ts:23 | the ordering is a permutation of the lines, and totals never increase along it |
| Standings.SortByScoreStable | src/lib/game-logic/stakes-calculator.ts:23 | lines with equal totals keep their input order |
| Standings.BestIsFirstMaximum | src/store/gameStore.ts:437-439 | the line `reduce` picks is one of the lines, none has a higher total, and it is the first line with its total |
| Standings.SortByScoreHead | src/lib/game-logic/stakes-calculator.ts:23 | the first line of the ordering is the line `reduce` picks |
| StakesCalculator.Settlement | src/lib/game-logic/stakes-calculator.ts:18-61 | the payouts `calculatePayouts` returns for the ordered lines; the reference for `CalculatePayouts`, characterised by `SettlementStandings`, `SettlementPayments` and `SettlementBalances` |
| StakesCalculator.CalculatePayouts | src/lib/game-logic/stakes-calculator.ts:18-61 | the loop and the patch produce exactly the settlement of the ordered lines, and the amounts paid sum to zero |
| StakesCalculator.PatchedIsSettlement | src/lib/game-logic/stakes-calculator.ts:56-58 | the pushed payouts, with the winner's entry replaced by the pot, are the settlement |
| StakesCalculator.SettlementStandings | src/lib/game-logic/stakes-calculator.ts:23-54 | one payout per line, ranked 1..N, totals never increasing; rank 1 is the first of the tied highest lines |
| StakesCalculator.SettlementPayments | src/lib/game-logic/stakes-calculator.ts:32-58 | rank r > 1 pays table entry N − r, or nothing when the table has no such entry; so last place pays entry 0; the winner collects what the others pay |
| StakesCalculator.SettlementBalances | src/lib/game-logic/stakes-calculator.ts:42-58 | the amounts paid in a settlement sum to zero |
| StakesCalculator.PotIsTableSum | src/lib/game-logic/stakes-calculator.ts:42-58 | with one table entry per loser, the winner collects the sum of the table |
| StakesCalculator.FormatMoney | src/lib/game-logic/stakes-calculator.ts:66-70 | `formatMoney`: a sign, the currency and the magnitude to two decimals; `FormatMoneyParts` and `FormatMoneyRoundTrip` state what the text holds |
| StakesCalculator.FormatMoneyRoundTrip | src/lib/game-logic/stakes-calculator.ts:66-70 | the text starts with `+` exactly when the amount is at least 0, then the currency; the rest reads back as the magnitude rounded to cents, which is exact for whole cents |
| StakesCalculator.FormatMoneyParts | src/lib/game-logic/stakes-calculator.ts:66-70 | the text is the sign, the currency and the magnitude to two decimals |
| StakesCalculator.CentsReadBack | src/lib/game-logic/stakes-calculator.ts:69 | two decimals of a non-negative amount read back as the amount rounded to cents |
| GameFlow.NextView | src/store/gameStore.ts:289-295 | the view `goToNextView` moves to; `ViewFlowSteps`, `ViewStepsInverse` and `ViewOutsideFlow` state it |
| GameFlow.PreviousView | src/store/gameStore.ts:297-303 | the view `goToPreviousView` moves to; stated by the same three lemmas |
| GameFlow.ViewFlowPositions | src/store/gameStore.ts:51-59 | the flow lists seven different views, and `indexOf` finds each at its own position |
| GameFlow.ViewFlowSteps | src/store/gameStore.ts:289-303 | next and previous move one step along the flow; the last view and the first view stay put |
| GameFlow.ViewStepsInverse | src/store/gameStore.ts:289-303 | inside the flow, next and previous undo each other, except at the two ends |
| GameFlow.ViewOutsideFlow | src/store/gameStore.ts:289-303 | from a view outside the flow, next jumps to the player-count view (`indexOf` gives -1) and previous does nothing |
| GameFlow.NewSetupGame | src/store/gameStore.ts:70-88 | the game `setPlayerCount` creates; `NewSetupGameShape` states its shape |
| GameFlow.NewSetupGameShape | src/store/gameStore.ts:70-88 | a new setup game has `count` players with distinct ids `player-i`, empty names and seats 0..n−1; no rounds; round 1; dealer 0; no stakes |
| GameFlow.WithPlayers | src/store/gameStore.ts:90-100 | the game after `setPlayers`: only the roster replaced; the reference for `GameStore.Store.SetPlayers` |
| GameFlow.WithInitialDealer | src/store/gameStore.ts:102-112 | the game after `setInitialDealer`: only the first dealer set; the reference for `GameStore.Store.SetInitialDealer` |
| GameFlow.WithSeatingOrder | src/store/gameStore.ts:114-129 | the game after `updateSeatingOrder`: the roster in the new order, renumbered; `RenumberedSeats` states the renumbering |
| GameFlow.WithStakes | src/store/gameStore.ts:131-141 | the game after `setStakes`: only the stakes set; the reference for `GameStore.Store.SetStakes` |
| GameFlow.Started | src/store/gameStore.ts:143-157 | the game after `startGame`: in progress with one pending round 1; `StartedEstablishes` states the invariant it sets up |
| GameFlow.WithCalls | src/store/gameStore.ts:174-191 | the game after valid calls; `WithCallsChangesCurrentRoundOnly` and `WithCallsKeeps` state what changes and what is kept |
| GameFlow.ScoredRound | src/store/gameStore.ts:196-238 | the game after valid results, or what `enterResults` throws; `ScoredRoundChangesCurrentRoundOnly`, `ScoresUseEarlierRoundsOnly` and `ScoredRoundKeeps` state it |
| GameFlow.Advanced | src/store/gameStore.ts:243-282 | the game after `nextRound`; `AdvancedKeeps` states what it adds and that it keeps the invariant |
| GameFlow.Ended | src/store/gameStore.ts:334-348 | the game after `endGame`: completed now; `EndedKeeps` states that it keeps the invariant |
| GameFlow.Restarted | src/store/gameStore.ts:358-383 | the game `restartGameWithSamePlayers` builds; `RestartedKeeps` states what carries over |
| GameFlow.RenumberedSeats | src/store/gameStore.ts:114-129 | renumbering keeps order, ids and names, sets every seat to its index, and applying it twice is the same as applying it once |
| GameFlow.WithCallsChangesCurrentRoundOnly | src/store/gameStore.ts:174-181 | entering calls changes only the current round's calls and status |
| GameFlow.ScoredRoundChangesCurrentRoundOnly | src/store/gameStore.ts:196-238 | entering results throws exactly when there is no current round or a player lacks a call or a result; otherwise only the current round changes, and it is completed with the results and the computed scores |
| GameFlow.ScoresUseEarlierRoundsOnly | src/store/gameStore.ts:207-219 | the current round is scored from the earlier rounds only, and round 1 starts from an empty map |
| GameFlow.StartedEstablishes | src/store/gameStore.ts:143-160 | starting a game with players, a dealer on a seat, and round 1 establishes the round invariant, with a pending round 1 |
| GameFlow.WithCallsKeeps | src/store/gameStore.ts:163-194 | entering calls keeps the round invariant |
| GameFlow.ScoredRoundKeeps | src/store/gameStore.ts:196-241 | entering results keeps the round invariant |
| GameFlow.AdvancedKeeps | src/store/gameStore.ts:243-282 | moving on keeps the invariant: after round 5 the game completes with no new round; otherwise one pending round is added, dealt from the seat after the previous dealer |
| GameFlow.EndedKeeps | src/store/gameStore.ts:334-348 | ending the game keeps the round invariant |
| GameFlow.RestartedKeeps | src/store/gameStore.ts:358-383 | restarting keeps the roster, the dealer and the stakes, and re-establishes the invariant at round 1 |
| GameFlow.CurrentRound | src/store/gameStore.ts:417-422 | `getCurrentRound`: `rounds[currentRound - 1]` or none; `InvariantGivesCurrentRound` states that it exists once play has started |
| GameFlow.CurrentDealer | src/store/gameStore.ts:407-415 | `getCurrentDealer`: the player at the current round's dealer seat; `InvariantGivesCurrentRound` states which seat that is |
| GameFlow.IsGameComplete | src/store/gameStore.ts:424-427 | `isGameComplete`: the game's status is completed |
| GameFlow.InvariantGivesCurrentRound | src/store/gameStore.ts:407-422 | under the invariant the current round exists, there are at most 5 rounds, and the current dealer sits at the seat the rotation gives for the round |
| GameFlow.Winner | src/store/gameStore.ts:429-442 | `getWinner`; `WinnerIsFirstHighest` states who it is and when there is one |
| GameFlow.WinnerIsFirstHighest | src/store/gameStore.ts:429-442 | there is a winner only in a completed game whose last round has scores; the winner's line has the highest total, is the first line with that total and heads the payout ranking |
| GameStore.Store.constructor | src/store/gameStore.ts:63-67 | the store starts with no game, the home view, no error and nothing unsaved |
| GameStore.Store.SetPlayerCount | src/store/gameStore.ts:70-88 | a fresh setup game replaces the current one; nothing else changes |
| GameStore.Store.SetPlayers | src/store/gameStore.ts:90-100 | the roster is replaced, except when there is no game |
| GameStore.Store.SetInitialDealer | src/store/gameStore.ts:102-112 | the first dealer is set, except when there is no game |
| GameStore.Store.UpdateSeatingOrder | src/store/gameStore.ts:114-129 | the roster takes the given order with seats renumbered, except when there is no game |
| GameStore.Store.SetStakes | src/store/gameStore.ts:131-141 | the stakes are set, except when there is no game |
| GameStore.Store.StartGame | src/store/gameStore.ts:143-160 | the game is in progress and `rounds` becomes one pending round 1 dealt by the chosen initial dealer; `currentRound` is left as it was; the calls view opens and the game is saved; a ready game (players present, dealer on a seat, round 1 current) then satisfies the round invariant |
| GameStore.Store.EnterCalls | src/store/gameStore.ts:163-194 | invalid calls only set the error; valid calls go into the current round, the results view opens, the error and the unsaved flag clear, and the game is saved; the round invariant is kept |
| GameStore.Store.EnterResults | src/store/gameStore.ts:196-241 | invalid results only set the error; a throw changes nothing; otherwise the round is scored and completed, the summary view opens, and the game is saved; the invariant is kept |
| GameStore.Store.NextRound | src/store/gameStore.ts:243-282 | after round 5 the game completes and the completion view opens; otherwise the next round begins at the calls view; either way the game is saved, and the invariant is kept |
| GameStore.Store.SetView | src/store/gameStore.ts:285-287 | only the view changes |
| GameStore.Store.GoToNextView | src/store/gameStore.ts:289-295 | only the view changes, to the next view of the flow |
| GameStore.Store.GoToPreviousView | src/store/gameStore.ts:297-303 | only the view changes, to the previous view of the flow |
| GameStore.Store.SaveGame | src/store/gameStore.ts:306-316 | the current game is handed to storage; a failure sets the error |
| GameStore.Store.LoadActiveGame | src/store/gameStore.ts:318-332 | a stored active game becomes the current game; a failure only sets the error |
| GameStore.Store.EndGame | src/store/gameStore.ts:334-348 | the game completes now, the completion view opens and the game is saved; the invariant is kept |
| GameStore.Store.NewGame | src/store/gameStore.ts:350-356 | no game, the player-count view, no error |
| GameStore.Store.RestartGameWithSamePlayers | src/store/gameStore.ts:358-383 | a new game at round 1 with the same roster, dealer and stakes, at the calls view, saved; the invariant is kept |
| GameStore.Store.DeleteActiveGame | src/store/gameStore.ts:385-396 | after a successful delete there is no game and the home view opens; a failure only sets the error |
| GameStore.Store.DeleteSettled | src/store/gameStore.ts:389-395 | what the delete does once storage has answered for the game it read, whatever happened in between |
| GameStore.Store.GoHome | src/store/gameStore.ts:398-400 | the home view opens and nothing is unsaved |
| GameStore.Store.SetHasUnsavedChanges | src/store/gameStore.ts:402-404 | only the unsaved flag changes |
| PlayerRolesSetup.Removed | src/components/game-setup/PlayerRolesSetup.tsx:34 | `splice(i, 1)` returns the roster without entry i and with the later entries shifted down |
| PlayerRolesSetup.InsertedAt | src/components/game-setup/PlayerRolesSetup.tsx:36 | `splice(i, 0, x)` returns the roster with x at i and the later entries shifted up |
| PlayerRolesSetup.Moved | src/components/game-setup/PlayerRolesSetup.tsx:30-38 | the two splices of a drag; `MovedPermutation` states that they rearrange the roster |
| PlayerRolesSetup.MovedPermutation | src/components/game-setup/PlayerRolesSetup.tsx:30-38 | a drag rearranges the roster: the same players, each as often as before |
| PlayerRolesSetup.Follow | src/components/game-setup/PlayerRolesSetup.tsx:40-47 | the three-way update of the selected dealer seat; `FollowTracksPlayer` and `FollowInjective` state that it follows the player |
| PlayerRolesSetup.FollowTracksPlayer | src/components/game-setup/PlayerRolesSetup.tsx:40-47 | the dealer-seat update follows a player through the move; the dragged player lands on the target seat |
| PlayerRolesSetup.FollowInjective | src/components/game-setup/PlayerRolesSetup.tsx:40-47 | two different seats never land on the same seat |
| PlayerRolesSetup.RolesScreen.constructor | src/components/game-setup/PlayerRolesSetup.tsx:9-11 | the screen opens on the game's roster, with seat 0 as dealer and nothing dragged |
| PlayerRolesSetup.RolesScreen.PlayersChanged | src/components/game-setup/PlayerRolesSetup.tsx:14-19 | a new roster from the store is taken over, and seat 0 is selected again |
| PlayerRolesSetup.RolesScreen.HandleDragStart | src/components/game-setup/PlayerRolesSetup.tsx:21-23 | the drag starts from the given seat |
| PlayerRolesSetup.RolesScreen.SelectDealer | src/components/game-setup/PlayerRolesSetup.tsx:78 | the tapped seat becomes the dealer |
| PlayerRolesSetup.RolesScreen.HandleDragOver | src/components/game-setup/PlayerRolesSetup.tsx:25-50 | with nothing dragged, or over the dragged seat, nothing changes; otherwise the dragged player moves to the target, the drag continues from there, and the selected dealer stays the same player |
| PlayerRolesSetup.RolesScreen.HandleDragEnd | src/components/game-setup/PlayerRolesSetup.tsx:52-54 | the drag ends; nothing else changes |
| PlayerRolesSetup.RolesScreen.HandleSubmit | src/components/game-setup/PlayerRolesSetup.tsx:56-60 | the store takes the order and then the dealer, and the stakes view opens |
| StakesSetup.PlayerCountFor | src/components/game-setup/StakesSetup.tsx:10 | the game's player count, or 4 when there is no game or the roster is empty |
| StakesSetup.DefaultAmounts | src/components/game-setup/StakesSetup.tsx:14-16 | the pre-filled table; `DefaultAmountsShape` and `DefaultPot` state its entries and its total |
| StakesSetup.TotalPot | src/components/game-setup/StakesSetup.tsx:41 | `amounts.reduce((sum, amt) => sum + amt, 0)`; `DefaultPot` and `LabelsMatchSettlement` state what it adds up to |
| StakesSetup.PlaceLabel | src/components/game-setup/StakesSetup.tsx:79-89 | the label of table entry `index`; `LabelsMatchSettlement` states that it names the rank paying that entry |
| StakesSetup.DefaultAmountsShape | src/components/game-setup/StakesSetup.tsx:14-16 | the pre-filled table has one entry per losing place, each exactly 5 more than the next, all positive, from 5·(n−1) down to 5 |
| StakesSetup.DefaultPot | src/components/game-setup/StakesSetup.tsx:41 | the pre-filled pot is 5·(1 + … + (n−1)), that is, twice the pot is 5·(n−1)·n |
| StakesSetup.LabelsMatchSettlement | src/components/game-setup/StakesSetup.tsx:79-89 | entry 0 is labelled "Lowest scorer", and the place a label names is the rank that pays that entry; the winner collects the whole pot |
| StakesSetup.StakesScreen.constructor | src/components/game-setup/StakesSetup.tsx:10-17 | the screen opens with `$`, the pre-filled table for the player count, and stakes turned on |
| StakesSetup.StakesScreen.SetCurrency | src/components/game-setup/StakesSetup.tsx:60-63 | only the currency changes |
| StakesSetup.StakesScreen.HandleAmountChange | src/components/game-setup/StakesSetup.tsx:19-24 | only the edited entry changes; text that is not a number stores 0 |
| StakesSetup.StakesScreen.HandleContinue | src/components/game-setup/StakesSetup.tsx:26-34 | the stakes are stored unless they were skipped, and the game starts at the calls view |
| StakesSetup.StakesScreen.HandleSkip | src/components/game-setup/StakesSetup.tsx:36-39 | the stakes are marked skipped, and the game starts without them |
| HomeScreen.HasActiveGame | src/components/HomeScreen.tsx:61 | a game exists and is in progress; `HomeScreen.Home.HandleNewGame` states what it decides |
| HomeScreen.ResumeView | src/components/HomeScreen.tsx:12-29 | the view `handleResumeGame` opens, by the current round's status; `ResumeReturnsToLastView` states that it is the view last opened |
| HomeScreen.ResumeReturnsToLastView | src/components/HomeScreen.tsx:12-29 | resuming opens the view the store opened last: calls after a start, a restart or a next round; results after the calls; the summary after the results |
| HomeScreen.LastScored | src/components/HomeScreen.tsx:53-56 | the index of the last round with scores; `LastScoredSpec` states it |
| HomeScreen.LastScoredSpec | src/components/HomeScreen.tsx:53-56 | the round found is the last round with scores, and none is found exactly when no round has scores |
| HomeScreen.Home.constructor | src/components/HomeScreen.tsx:10 | the delete confirmation starts hidden |
| HomeScreen.Home.HandleResumeGame | src/components/HomeScreen.tsx:12-29 | the view becomes the resume view of the current game, when it names one; nothing else changes |
| HomeScreen.Home.HandleNewGame | src/components/HomeScreen.tsx:31-37 | with a game in progress the confirmation is shown and nothing else changes; otherwise the store starts over |
| HomeScreen.Home.HandleCancelGame | src/components/HomeScreen.tsx:45-47 | the delete confirmation is shown |
| HomeScreen.Home.HandleConfirmDelete | src/components/HomeScreen.tsx:39-43 | as written: after a successful delete there is no game and the view is Home, not PlayerCount |
| HomeScreen.Home.HandleConfirmDeleteAwaited | src/components/HomeScreen.tsx:39-43 | corrected: whatever storage answers, there is no game, no error, and the player-count view opens |
| HomeScreen.Home.GetCurrentScores | src/components/HomeScreen.tsx:50-58 | the lines of the last round with scores, highest total first, and a permutation of that round; the store's round keeps the sorted order, because `sort` works in place |

## Left out

- Persistence beyond its outcomes. The repository layer is not part of this model. `saveGame()`,
  `loadActiveGame()` and `deleteActiveGame()` take the storage outcome as a parameter. The
  actions that save along the way are modelled with a save that succeeds.
- Asynchrony and the `isLoading` flag. The model runs each action to completion. The one
  interleaving that matters is modelled: the non-awaited delete on the home screen.
- Message text. Validation errors are a datatype holding the kind and the interpolated values.
  The English wording, and the `join(', ')` into the store's error string, are not modelled.
- The zustand wrapper (`create`, `get`, `set`). `crypto.randomUUID()` is a parameter.
- `Date` objects. `createdAt` and `completedAt` hold an integer timestamp where the source
  stores a `Date`. The time `new Date()` reads is passed in as an integer parameter (`now`).
- Rendering, styling, navigation buttons and other glue code in the screens.
- Binary floating point. Numbers are exact rationals, so rounding drift in IEEE doubles is not
  modelled.
- The exponent form `toFixed` uses for numbers of 1e21 and above.
- `parseFloat` in the stakes screen. It is a parameter: `None` when the text is not a number.
- `toLowerCase` beyond Basic Latin and Latin-1.
- GameStore.Store.EnterCalls: requires that a current round exists when the calls are valid. The
  source would then write through `rounds[-1]` or past the end.
- GameStore.Store.NextRound: requires players when another round follows. With no players the
  source computes a NaN dealer.
- DealerRotation.GetNextDealerIndex: requires at least one player. For 0 players the source's `% 0` gives NaN.
- DealerRotation.GetDealerForRound: requires at least one player. For 0 players the source's `% 0` gives NaN.
- StakesCalculator.CalculatePayouts: requires at least one line. The source fails at
  `payouts[0]` on an empty input.
- StakesSetup.StakesScreen.HandleAmountChange: requires an index inside the table. The inputs
  the screen renders always have one, and JavaScript would grow the array for another index.
- PlayerRolesSetup.RolesScreen.HandleDragOver: requires the dragged seat and the target to be
  seats of the roster, as the rendered list gives them.
- CallOrder.GetCurrentCallerIndex: `undefined` (a negative count of calls) and `null` (every
  player has called) are both `None`.
- The selectors `getCurrentDealer`, `getCurrentRound`, `isGameComplete` and `getWinner`. They
  are functions on the game (`GameStore.Store.GetCurrentDealer`, etc.). What they promise is
  stated by `GameFlow.InvariantGivesCurrentRound` and `GameFlow.WinnerIsFirstHighest`.

## Findings

| source | as written | input that shows it | evidently intended | confidence | as-written member | corrected member |
|---|---|---|---|---|---|---|
| src/components/HomeScreen.tsx:39-43 | `deleteActiveGame()` is not awaited. `newGame()` runs first and opens the player-count view. When the delete then succeeds, it sets the view to Home. | a game in progress, the user confirms the delete, and storage succeeds | the screen lands on the player-count view to set up the new game | not executed | HomeScreen.Home.HandleConfirmDelete | HomeScreen.Home.HandleConfirmDeleteAwaited |
