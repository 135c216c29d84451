/**
 * Round manager: a fresh round, the per-player scores of a round, and the map from player id
 * to the cumulative score recorded most recently for that player.
 */
module RoundManager {
  import opened Wrappers
  import opened GameTypes
  import Js
  import Calculator
  import Validator

  /** `createRound(roundNumber, dealerIndex)`: a pending round with nothing entered yet. */
  function CreateRound(roundNumber: int, dealerIndex: int): (r: Round)
    ensures r.status == Pending && r.calls == [] && r.results == [] && r.scores == []
    ensures r.roundNumber == roundNumber && r.dealerIndex == dealerIndex
  {
    Round(roundNumber, dealerIndex, Pending, [], [], [])
  }

  // ---------------------------------------------------------------- one round's scores

  /** `calls.find(c => c.playerId === id)`: the first call for that player, if any. */
  function FindCall(calls: seq<PlayerCall>, id: string): (r: Option<PlayerCall>)
    ensures r.None? <==> forall i :: 0 <= i < |calls| ==> calls[i].playerId != id
    ensures r.Some? ==> exists k :: 0 <= k < |calls| && calls[k] == r.value && FirstWithId(Validator.CallIds(calls), id, k)
  {
    var k := Js.IndexOf(Validator.CallIds(calls), id);
    if k < 0 then None else Some(calls[k])
  }

  /** `results.find(r => r.playerId === id)`: the first result for that player, if any. */
  function FindResult(results: seq<PlayerResult>, id: string): (r: Option<PlayerResult>)
    ensures r.None? <==> forall i :: 0 <= i < |results| ==> results[i].playerId != id
    ensures r.Some? ==> exists k :: 0 <= k < |results| && results[k] == r.value && FirstWithId(Validator.ResultIds(results), id, k)
  {
    var k := Js.IndexOf(Validator.ResultIds(results), id);
    if k < 0 then None else Some(results[k])
  }

  /** Position `k` holds `id` and no earlier position does. */
  predicate FirstWithId(ids: seq<string>, id: string, k: int)
  {
    0 <= k < |ids| && ids[k] == id && forall j :: 0 <= j < k ==> ids[j] != id
  }

  /** `previousScores.get(id) || 0`. */
  function PreviousOrZero(previousScores: map<string, real>, id: string): (r: real)
  {
    if id in previousScores then previousScores[id] else 0.0
  }

  /** `Math.max(0, x)`. */
  function MaxZero(x: real): (r: real)
    ensures r >= 0.0 && r >= x && (r == 0.0 || r == x)
  {
    if 0.0 > x then 0.0 else x
  }

  /** The score line of one player, or the name of the player whose call or result is missing. */
  function ScoreFor(player: Player, calls: seq<PlayerCall>, results: seq<PlayerResult>,
                    previousScores: map<string, real>): (r: Result<RoundScore, string>)
  {
    var call := FindCall(calls, player.id);
    var result := FindResult(results, player.id);
    if call.None? || result.None? then Failure(player.name)
    else
      var roundScore := Calculator.CalculateRoundScore(call.value.call, result.value.tricksWon);
      var previousCumulative := PreviousOrZero(previousScores, player.id);
      var cumulativeScore := Calculator.CalculateCumulativeScore(previousCumulative, roundScore);
      Success(RoundScore(
        player.id,
        player.name,
        call.value.call,
        result.value.tricksWon,
        roundScore,
        cumulativeScore,
        result.value.tricksWon == call.value.call,
        MaxZero(result.value.tricksWon - call.value.call)))
  }

  /**
   * `calculateRoundScores(players, calls, results, previousScores)`: one line per player in
   * player order; `Failure(name)` is the error thrown for the first player, in player order,
   * who has no call or no result.
   */
  function CalculateRoundScores(players: seq<Player>, calls: seq<PlayerCall>, results: seq<PlayerResult>,
                                previousScores: map<string, real>): (r: Result<seq<RoundScore>, string>)
  {
    if players == [] then Success([])
    else
      match ScoreFor(players[0], calls, results, previousScores)
      case Failure(name) => Failure(name)
      case Success(line) =>
        match CalculateRoundScores(players[1..], calls, results, previousScores)
        case Failure(name) => Failure(name)
        case Success(rest) => Success([line] + rest)
  }

  /** A player is scored when both a call and a result carry their id. */
  predicate HasCallAndResult(player: Player, calls: seq<PlayerCall>, results: seq<PlayerResult>)
  {
    FindCall(calls, player.id).Some? && FindResult(results, player.id).Some?
  }

  /** Player `k` is the first, in player order, lacking a call or a result. */
  predicate FirstUnscorable(players: seq<Player>, calls: seq<PlayerCall>, results: seq<PlayerResult>, k: int)
  {
    && 0 <= k < |players|
    && !HasCallAndResult(players[k], calls, results)
    && forall j :: 0 <= j < k ==> HasCallAndResult(players[j], calls, results)
  }

  /** What the score line of a player holds: their first call and first result, and the scores derived from them. */
  predicate IsScoreLine(line: RoundScore, player: Player, calls: seq<PlayerCall>, results: seq<PlayerResult>,
                        previousScores: map<string, real>)
  {
    && HasCallAndResult(player, calls, results)
    && var c := FindCall(calls, player.id).value.call;
    && var t := FindResult(results, player.id).value.tricksWon;
    && line.playerId == player.id
    && line.playerName == player.name
    && line.call == c
    && line.result == t
    && line.roundScore == Calculator.CalculateRoundScore(c, t)
    && line.cumulativeScore == Calculator.CalculateCumulativeScore(PreviousOrZero(previousScores, player.id), line.roundScore)
    && (line.callMet <==> t == c)
    && line.extraTricks >= 0.0
    && line.extraTricks == (if t > c then t - c else 0.0)
  }

  /** One player's line, when it is computed, is that player's score line. */
  lemma ScoreForIsScoreLine(player: Player, calls: seq<PlayerCall>, results: seq<PlayerResult>,
                            previousScores: map<string, real>)
    ensures ScoreFor(player, calls, results, previousScores).Success? <==> HasCallAndResult(player, calls, results)
    ensures ScoreFor(player, calls, results, previousScores).Success? ==>
      IsScoreLine(ScoreFor(player, calls, results, previousScores).value, player, calls, results, previousScores)
  {
  }

  /** The scores are computed exactly when every player has a call and a result. */
  lemma {:induction false} RoundScoresSucceedIff(players: seq<Player>, calls: seq<PlayerCall>, results: seq<PlayerResult>,
                                                 previousScores: map<string, real>)
    ensures CalculateRoundScores(players, calls, results, previousScores).Success? <==>
      forall i :: 0 <= i < |players| ==> HasCallAndResult(players[i], calls, results)
  {
    if players != [] {
      RoundScoresSucceedIff(players[1..], calls, results, previousScores);
      assert forall i :: 0 < i < |players| ==> players[i] == players[1..][i - 1];
    }
  }

  /**
   * Computed scores have one line per player, in player order, built from that player's first
   * call and first result.
   */
  lemma {:induction false} RoundScoresLines(players: seq<Player>, calls: seq<PlayerCall>, results: seq<PlayerResult>,
                                            previousScores: map<string, real>)
    ensures var r := CalculateRoundScores(players, calls, results, previousScores);
      r.Success? ==> (|r.value| == |players| &&
        forall i :: 0 <= i < |players| ==> IsScoreLine(r.value[i], players[i], calls, results, previousScores))
  {
    var r := CalculateRoundScores(players, calls, results, previousScores);
    if players != [] && r.Success? {
      RoundScoresLines(players[1..], calls, results, previousScores);
      var tail := CalculateRoundScores(players[1..], calls, results, previousScores);
      ScoreForIsScoreLine(players[0], calls, results, previousScores);
      forall i | 0 < i < |players| ensures IsScoreLine(r.value[i], players[i], calls, results, previousScores) {
        assert r.value[i] == tail.value[i - 1] && players[i] == players[1..][i - 1];
      }
    }
  }

  /** A failure names the first player, in player order, lacking a call or a result. */
  lemma {:induction false} RoundScoresFailure(players: seq<Player>, calls: seq<PlayerCall>, results: seq<PlayerResult>,
                                              previousScores: map<string, real>)
    ensures var r := CalculateRoundScores(players, calls, results, previousScores);
      r.Failure? ==> exists k :: FirstUnscorable(players, calls, results, k) && r.error == players[k].name
  {
    var r := CalculateRoundScores(players, calls, results, previousScores);
    if players != [] && r.Failure? {
      if HasCallAndResult(players[0], calls, results) {
        RoundScoresFailure(players[1..], calls, results, previousScores);
        var tail := CalculateRoundScores(players[1..], calls, results, previousScores);
        var k :| FirstUnscorable(players[1..], calls, results, k) && tail.error == players[1..][k].name;
        assert players[k + 1] == players[1..][k];
        assert forall j :: 0 < j < k + 1 ==> players[j] == players[1..][j - 1];
        assert FirstUnscorable(players, calls, results, k + 1);
      } else {
        assert FirstUnscorable(players, calls, results, 0);
      }
    }
  }

  // ---------------------------------------------------------------- cumulative scores

  /** Record one round's score lines into the map, later lines overwriting earlier ones. */
  function FoldScores(scores: map<string, real>, lines: seq<RoundScore>): (r: map<string, real>)
  {
    if lines == [] then scores
    else
      var last := lines[|lines| - 1];
      FoldScores(scores, lines[..|lines| - 1])[last.playerId := last.cumulativeScore]
  }

  /** The map `getCumulativeScores(rounds)` builds: every round's lines, in order, into an empty map. */
  function CumulativeScores(rounds: seq<Round>): (r: map<string, real>)
  {
    if rounds == [] then map[]
    else FoldScores(CumulativeScores(rounds[..|rounds| - 1]), rounds[|rounds| - 1].scores)
  }

  /** `getCumulativeScores(rounds)`, with its two nested `forEach` loops and `Map.set`. */
  method GetCumulativeScores(rounds: seq<Round>) returns (scores: map<string, real>)
    ensures scores == CumulativeScores(rounds)
  {
    scores := map[];
    var i := 0;
    while i < |rounds|
      invariant 0 <= i <= |rounds|
      invariant scores == CumulativeScores(rounds[..i])
    {
      var round := rounds[i];
      ghost var before := scores;
      var j := 0;
      while j < |round.scores|
        invariant 0 <= j <= |round.scores|
        invariant scores == FoldScores(before, round.scores[..j])
      {
        var score := round.scores[j];
        assert round.scores[..j + 1][..j] == round.scores[..j];
        scores := scores[score.playerId := score.cumulativeScore];
        j := j + 1;
      }
      assert round.scores[..j] == round.scores;
      assert rounds[..i + 1][..i] == rounds[..i];
      i := i + 1;
    }
    assert rounds[..i] == rounds;
  }

  /** No line carries `id`. */
  predicate Unscored(lines: seq<RoundScore>, id: string)
  {
    forall k :: 0 <= k < |lines| ==> lines[k].playerId != id
  }

  /** Line `j` is the last line carrying `id`. */
  predicate LastLine(lines: seq<RoundScore>, id: string, j: int)
  {
    0 <= j < |lines| && lines[j].playerId == id && forall k :: j < k < |lines| ==> lines[k].playerId != id
  }

  /** Folding lines that never carry `id` leaves the map's entry for `id` as it was. */
  lemma {:induction false} FoldScoresUnscored(scores: map<string, real>, lines: seq<RoundScore>, id: string)
    requires Unscored(lines, id)
    ensures id in FoldScores(scores, lines) <==> id in scores
    ensures id in scores ==> FoldScores(scores, lines)[id] == scores[id]
  {
    if lines != [] {
      var front := lines[..|lines| - 1];
      assert forall k :: 0 <= k < |front| ==> front[k] == lines[k];
      FoldScoresUnscored(scores, front, id);
    }
  }

  /** Folding lines whose last one for `id` is line `j` leaves `id` mapped to that line's total. */
  lemma {:induction false} FoldScoresLastLine(scores: map<string, real>, lines: seq<RoundScore>, id: string, j: int)
    requires LastLine(lines, id, j)
    ensures id in FoldScores(scores, lines)
    ensures FoldScores(scores, lines)[id] == lines[j].cumulativeScore
  {
    var front := lines[..|lines| - 1];
    if j < |lines| - 1 {
      assert forall k :: 0 <= k < |front| ==> front[k] == lines[k];
      assert LastLine(front, id, j);
      FoldScoresLastLine(scores, front, id, j);
    }
  }

  /** Some line carrying `id` is the last one to. */
  lemma {:induction false} HasLastLine(lines: seq<RoundScore>, id: string, k: int)
    requires 0 <= k < |lines| && lines[k].playerId == id
    ensures exists m :: LastLine(lines, id, m)
    decreases |lines| - k
  {
    if exists n :: k < n < |lines| && lines[n].playerId == id {
      var n :| k < n < |lines| && lines[n].playerId == id;
      HasLastLine(lines, id, n);
    } else {
      assert LastLine(lines, id, k);
    }
  }

  /** Some line of some round carries `id`. */
  predicate ScoredIn(rounds: seq<Round>, id: string)
  {
    exists i, j :: 0 <= i < |rounds| && 0 <= j < |rounds[i].scores| && rounds[i].scores[j].playerId == id
  }

  /** `getCumulativeScores` maps exactly the ids some round scores; no rounds give the empty map. */
  lemma {:induction false} CumulativeScoresKeys(rounds: seq<Round>, id: string)
    ensures rounds == [] ==> CumulativeScores(rounds) == map[]
    ensures id in CumulativeScores(rounds) <==> ScoredIn(rounds, id)
  {
    if rounds != [] {
      var front, last := rounds[..|rounds| - 1], rounds[|rounds| - 1];
      CumulativeScoresKeys(front, id);
      assert forall r :: 0 <= r < |front| ==> front[r] == rounds[r];
      if Unscored(last.scores, id) {
        FoldScoresUnscored(CumulativeScores(front), last.scores, id);
        if ScoredIn(rounds, id) {
          var r, k :| 0 <= r < |rounds| && 0 <= k < |rounds[r].scores| && rounds[r].scores[k].playerId == id;
          assert r < |front|;
        }
      } else {
        var k :| 0 <= k < |last.scores| && last.scores[k].playerId == id;
        HasLastLine(last.scores, id, k);
        var m :| LastLine(last.scores, id, m);
        FoldScoresLastLine(CumulativeScores(front), last.scores, id, m);
        assert rounds[|rounds| - 1].scores[k].playerId == id;
      }
    }
  }

  /** No round after round `i` has a line carrying `id`. */
  predicate UnscoredAfter(rounds: seq<Round>, id: string, i: int)
  {
    forall r :: 0 <= r < |rounds| && i < r ==> Unscored(rounds[r].scores, id)
  }

  /**
   * Each scored id maps to the cumulative score on its last line: line `j` of round `i`, when
   * that is the last line for it in that round and no later round scores it.
   */
  lemma {:induction false} CumulativeScoresLast(rounds: seq<Round>, id: string, i: int, j: int)
    requires 0 <= i < |rounds| && LastLine(rounds[i].scores, id, j) && UnscoredAfter(rounds, id, i)
    ensures id in CumulativeScores(rounds)
    ensures CumulativeScores(rounds)[id] == rounds[i].scores[j].cumulativeScore
  {
    var front, last := rounds[..|rounds| - 1], rounds[|rounds| - 1];
    if i == |rounds| - 1 {
      FoldScoresLastLine(CumulativeScores(front), last.scores, id, j);
    } else {
      assert forall r :: 0 <= r < |front| ==> front[r] == rounds[r];
      assert UnscoredAfter(front, id, i);
      CumulativeScoresLast(front, id, i, j);
      FoldScoresUnscored(CumulativeScores(front), last.scores, id);
    }
  }
}
