/**
 * Validation of calls, results and player names. Each validator collects every problem it
 * finds, in a fixed order, and is valid exactly when it found none (names: when every
 * problem found is the duplicate-name warning).
 */
module Validator {
  import opened GameTypes
  import Js
  import Seqs

  /** Which list a message is about: "calls"/"Call" or "results"/"Result". */
  datatype Field = Calls | Results

  /**
   * One message of the validators, with the values the source interpolates into its text:
   * `Expected N calls, got M`, `Duplicate player IDs found`, `Player k: Call must be between
   * 1 and 13`, `Player k: Call must be a whole number`, `Total tricks must equal 13 (current: t)`,
   * `Player k: Name cannot be empty`, `Warning: Some players have the same name`.
   */
  datatype ValidationError =
    | WrongCount(field: Field, expected: int, got: nat)
    | DuplicatePlayerIds
    | OutOfRange(field: Field, player: nat)
    | NotWholeNumber(field: Field, player: nat)
    | WrongTotal(total: real)
    | EmptyName(player: nat)
    | DuplicateNamesWarning

  datatype ValidationResult = ValidationResult(valid: bool, errors: seq<ValidationError>)

  /** The one message that starts with "Warning". */
  predicate IsWarning(e: ValidationError)
  {
    e.DuplicateNamesWarning?
  }

  /**
   * The checks on the list as a whole, shared by calls and results: one entry per player,
   * then no player id twice (`new Set(ids).size !== ids.length`).
   */
  function ListErrors(field: Field, ids: seq<string>, playerCount: int): (r: seq<ValidationError>)
  {
    (if |ids| != playerCount then [WrongCount(field, playerCount, |ids|)] else [])
    + (if |Seqs.ToSet(ids)| != |ids| then [DuplicatePlayerIds] else [])
  }

  /** The list checks pass exactly when the count is right and the ids are distinct. */
  lemma ListErrorsIff(field: Field, ids: seq<string>, playerCount: int)
    ensures ListErrors(field, ids, playerCount) == [] <==> |ids| == playerCount && Seqs.Distinct(ids)
    ensures |ids| != playerCount ==> ListErrors(field, ids, playerCount)[0] == WrongCount(field, playerCount, |ids|)
    ensures !Seqs.Distinct(ids) ==> DuplicatePlayerIds in ListErrors(field, ids, playerCount)
  {
    Seqs.ToSetSize(ids);
  }

  // ---------------------------------------------------------------- calls

  function CallIds(calls: seq<PlayerCall>): (ids: seq<string>)
    ensures |ids| == |calls| && forall i :: 0 <= i < |calls| ==> ids[i] == calls[i].playerId
  {
    seq(|calls|, i requires 0 <= i < |calls| => calls[i].playerId)
  }

  /** A call the rules allow: a whole number from 1 to 13. */
  predicate IsLegalCall(call: real)
  {
    1.0 <= call <= 13.0 && Js.IsInteger(call)
  }

  /** The messages for the call at position `index`. */
  function CallEntryErrors(index: nat, call: real): (r: seq<ValidationError>)
  {
    (if call < 1.0 || call > 13.0 then [OutOfRange(Calls, index + 1)] else [])
    + (if !Js.IsInteger(call) then [NotWholeNumber(Calls, index + 1)] else [])
  }

  /** The messages for the first `k` calls, in order. */
  function CallEntriesErrors(calls: seq<PlayerCall>, k: nat): (r: seq<ValidationError>)
    requires k <= |calls|
  {
    if k == 0 then [] else CallEntriesErrors(calls, k - 1) + CallEntryErrors(k - 1, calls[k - 1].call)
  }

  /** Everything `validateCalls` reports, in the order it reports it. */
  function CallErrors(calls: seq<PlayerCall>, playerCount: int): (r: seq<ValidationError>)
  {
    ListErrors(Calls, CallIds(calls), playerCount) + CallEntriesErrors(calls, |calls|)
  }

  /** `validateCalls(calls, playerCount)`. */
  method ValidateCalls(calls: seq<PlayerCall>, playerCount: int) returns (v: ValidationResult)
    ensures v.errors == CallErrors(calls, playerCount)
    ensures v.valid <==> v.errors == []
  {
    var errors := ListErrors(Calls, CallIds(calls), playerCount);
    ghost var checks := errors;
    for index := 0 to |calls|
      invariant errors == checks + CallEntriesErrors(calls, index)
    {
      var call := calls[index];
      if call.call < 1.0 || call.call > 13.0 {
        errors := errors + [OutOfRange(Calls, index + 1)];
      }
      if !Js.IsInteger(call.call) {
        errors := errors + [NotWholeNumber(Calls, index + 1)];
      }
    }
    v := ValidationResult(|errors| == 0, errors);
  }

  lemma {:induction false} CallEntriesEmpty(calls: seq<PlayerCall>, k: nat)
    requires k <= |calls|
    ensures CallEntriesErrors(calls, k) == [] <==> forall i :: 0 <= i < k ==> IsLegalCall(calls[i].call)
  {
    if k > 0 {
      CallEntriesEmpty(calls, k - 1);
    }
  }

  /**
   * The calls are accepted exactly when there is one per player, no player id repeats and
   * every call is a whole number from 1 to 13.
   */
  lemma CallsValidIff(calls: seq<PlayerCall>, playerCount: int)
    ensures CallErrors(calls, playerCount) == [] <==>
      && |calls| == playerCount
      && Seqs.Distinct(CallIds(calls))
      && forall i :: 0 <= i < |calls| ==> IsLegalCall(calls[i].call)
  {
    ListErrorsIff(Calls, CallIds(calls), playerCount);
    CallEntriesEmpty(calls, |calls|);
  }

  /** Every message about call `i` is among the messages for the first `k` calls, `k > i`. */
  lemma {:induction false} CallEntryReported(calls: seq<PlayerCall>, k: nat, i: nat)
    requires i < k <= |calls|
    ensures forall e :: e in CallEntryErrors(i, calls[i].call) ==> e in CallEntriesErrors(calls, k)
  {
    if i < k - 1 {
      CallEntryReported(calls, k - 1, i);
    }
  }

  /**
   * A wrong number of calls is reported first; a repeated player id is reported; a call
   * outside 1..13 (0 and 14 among them) or a fractional call gets a message naming its
   * player's position.
   */
  lemma CallProblemsReported(calls: seq<PlayerCall>, playerCount: int, i: nat)
    requires i < |calls|
    ensures |calls| != playerCount ==> CallErrors(calls, playerCount)[0] == WrongCount(Calls, playerCount, |calls|)
    ensures !Seqs.Distinct(CallIds(calls)) ==> DuplicatePlayerIds in CallErrors(calls, playerCount)
    ensures (calls[i].call < 1.0 || calls[i].call > 13.0) ==> OutOfRange(Calls, i + 1) in CallErrors(calls, playerCount)
    ensures !Js.IsInteger(calls[i].call) ==> NotWholeNumber(Calls, i + 1) in CallErrors(calls, playerCount)
  {
    ListErrorsIff(Calls, CallIds(calls), playerCount);
    CallEntryReported(calls, |calls|, i);
  }

  // ---------------------------------------------------------------- results

  function ResultIds(results: seq<PlayerResult>): (ids: seq<string>)
    ensures |ids| == |results| && forall i :: 0 <= i < |results| ==> ids[i] == results[i].playerId
  {
    seq(|results|, i requires 0 <= i < |results| => results[i].playerId)
  }

  function Tricks(results: seq<PlayerResult>): (t: seq<real>)
    ensures |t| == |results| && forall i :: 0 <= i < |results| ==> t[i] == results[i].tricksWon
  {
    seq(|results|, i requires 0 <= i < |results| => results[i].tricksWon)
  }

  /** A result the rules allow: a whole number of tricks from 0 to 13. */
  predicate IsLegalResult(tricksWon: real)
  {
    0.0 <= tricksWon <= 13.0 && Js.IsInteger(tricksWon)
  }

  function ResultEntryErrors(index: nat, tricksWon: real): (r: seq<ValidationError>)
  {
    (if tricksWon < 0.0 || tricksWon > 13.0 then [OutOfRange(Results, index + 1)] else [])
    + (if !Js.IsInteger(tricksWon) then [NotWholeNumber(Results, index + 1)] else [])
  }

  function ResultEntriesErrors(results: seq<PlayerResult>, k: nat): (r: seq<ValidationError>)
    requires k <= |results|
  {
    if k == 0 then [] else ResultEntriesErrors(results, k - 1) + ResultEntryErrors(k - 1, results[k - 1].tricksWon)
  }

  /** The total check: only a non-empty list is required to total 13 tricks. */
  function TotalErrors(results: seq<PlayerResult>): (r: seq<ValidationError>)
  {
    var total := Seqs.Sum(Tricks(results));
    if |results| > 0 && total != 13.0 then [WrongTotal(total)] else []
  }

  /** Everything `validateResults` reports, in the order it reports it. */
  function ResultErrors(results: seq<PlayerResult>, playerCount: int): (r: seq<ValidationError>)
  {
    ListErrors(Results, ResultIds(results), playerCount)
    + ResultEntriesErrors(results, |results|)
    + TotalErrors(results)
  }

  /** `validateResults(results, playerCount)`, with its running `total`. */
  method ValidateResults(results: seq<PlayerResult>, playerCount: int) returns (v: ValidationResult)
    ensures v.errors == ResultErrors(results, playerCount)
    ensures v.valid <==> v.errors == []
  {
    var errors := ListErrors(Results, ResultIds(results), playerCount);
    ghost var checks := errors;
    var total := 0.0;
    ghost var tricks := Tricks(results);
    for index := 0 to |results|
      invariant errors == checks + ResultEntriesErrors(results, index)
      invariant total == Seqs.Sum(tricks[..index])
    {
      var result := results[index];
      if result.tricksWon < 0.0 || result.tricksWon > 13.0 {
        errors := errors + [OutOfRange(Results, index + 1)];
      }
      if !Js.IsInteger(result.tricksWon) {
        errors := errors + [NotWholeNumber(Results, index + 1)];
      }
      Seqs.SumStep(tricks, index);
      total := total + result.tricksWon;
    }
    assert tricks[..|results|] == tricks;
    assert total == Seqs.Sum(Tricks(results));
    ghost var entries := errors;
    if |results| > 0 && total != 13.0 {
      errors := errors + [WrongTotal(total)];
    }
    assert errors == entries + TotalErrors(results);
    v := ValidationResult(|errors| == 0, errors);
  }

  lemma {:induction false} ResultEntriesEmpty(results: seq<PlayerResult>, k: nat)
    requires k <= |results|
    ensures ResultEntriesErrors(results, k) == [] <==> forall i :: 0 <= i < k ==> IsLegalResult(results[i].tricksWon)
  {
    if k > 0 {
      ResultEntriesEmpty(results, k - 1);
    }
  }

  /**
   * The results are accepted exactly when there is one per player, no player id repeats,
   * every result is a whole number from 0 to 13 and, for a non-empty list, they total 13.
   */
  lemma ResultsValidIff(results: seq<PlayerResult>, playerCount: int)
    ensures ResultErrors(results, playerCount) == [] <==>
      && |results| == playerCount
      && Seqs.Distinct(ResultIds(results))
      && (forall i :: 0 <= i < |results| ==> IsLegalResult(results[i].tricksWon))
      && (|results| > 0 ==> Seqs.Sum(Tricks(results)) == 13.0)
  {
    ListErrorsIff(Results, ResultIds(results), playerCount);
    ResultEntriesEmpty(results, |results|);
  }

  /** Every message about result `i` is among the messages for the first `k` results, `k > i`. */
  lemma {:induction false} ResultEntryReported(results: seq<PlayerResult>, k: nat, i: nat)
    requires i < k <= |results|
    ensures forall e :: e in ResultEntryErrors(i, results[i].tricksWon) ==> e in ResultEntriesErrors(results, k)
  {
    if i < k - 1 {
      ResultEntryReported(results, k - 1, i);
    }
  }

  /**
   * A wrong number of results is reported first, a repeated id is reported, a result outside
   * 0..13 or a fractional one names its player's position, and a non-empty list whose tricks
   * do not total 13 is rejected with that total as the last message, whatever the player count.
   */
  lemma ResultProblemsReported(results: seq<PlayerResult>, playerCount: int, i: nat)
    requires i < |results|
    ensures |results| != playerCount ==> ResultErrors(results, playerCount)[0] == WrongCount(Results, playerCount, |results|)
    ensures !Seqs.Distinct(ResultIds(results)) ==> DuplicatePlayerIds in ResultErrors(results, playerCount)
    ensures (results[i].tricksWon < 0.0 || results[i].tricksWon > 13.0) ==> OutOfRange(Results, i + 1) in ResultErrors(results, playerCount)
    ensures !Js.IsInteger(results[i].tricksWon) ==> NotWholeNumber(Results, i + 1) in ResultErrors(results, playerCount)
    ensures var e := ResultErrors(results, playerCount);
      Seqs.Sum(Tricks(results)) != 13.0 ==> e != [] && e[|e| - 1] == WrongTotal(Seqs.Sum(Tricks(results)))
  {
    ListErrorsIff(Results, ResultIds(results), playerCount);
    ResultEntryReported(results, |results|, i);
  }

  // ---------------------------------------------------------------- names

  /** Names compared for duplicates: trimmed and lower-cased. */
  function Normalize(name: string): (r: string)
  {
    Js.ToLowerCase(Js.Trim(name))
  }

  function NormalizedNames(names: seq<string>): (r: seq<string>)
    ensures |r| == |names| && forall i :: 0 <= i < |names| ==> r[i] == Normalize(names[i])
  {
    seq(|names|, i requires 0 <= i < |names| => Normalize(names[i]))
  }

  /** `!name || name.trim() === ''`: the empty string trims to itself, so one test covers both. */
  predicate IsBlank(name: string)
  {
    |Js.Trim(name)| == 0
  }

  /** Which names are blank, position by position. */
  function Blanks(names: seq<string>): (b: seq<bool>)
    ensures |b| == |names| && forall i :: 0 <= i < |names| ==> b[i] == IsBlank(names[i])
  {
    seq(|names|, i requires 0 <= i < |names| => IsBlank(names[i]))
  }

  /** The empty-name messages for the first `k` names, given which names are blank. */
  function NameEntriesErrors(blank: seq<bool>, k: nat): (r: seq<ValidationError>)
    requires k <= |blank|
  {
    if k == 0 then []
    else NameEntriesErrors(blank, k - 1) + (if blank[k - 1] then [EmptyName(k)] else [])
  }

  /** Everything `validatePlayerNames` reports: empty names in order, then the duplicate warning. */
  function NameErrors(names: seq<string>): (r: seq<ValidationError>)
  {
    NameEntriesErrors(Blanks(names), |names|)
    + (if |Seqs.ToSet(NormalizedNames(names))| != |names| then [DuplicateNamesWarning] else [])
  }

  /** `validatePlayerNames(names)`: valid when nothing, or only the warning, comes first. */
  method ValidatePlayerNames(names: seq<string>) returns (v: ValidationResult)
    ensures v.errors == NameErrors(names)
    ensures v.valid <==> v.errors == [] || IsWarning(v.errors[0])
  {
    var errors: seq<ValidationError> := [];
    ghost var blank := Blanks(names);
    for index := 0 to |names|
      invariant errors == NameEntriesErrors(blank, index)
    {
      var name := names[index];
      if IsBlank(name) {
        errors := errors + [EmptyName(index + 1)];
      }
    }
    var uniqueNames := Seqs.ToSet(NormalizedNames(names));
    if |uniqueNames| != |names| {
      errors := errors + [DuplicateNamesWarning];
    }
    v := ValidationResult(|errors| == 0 || IsWarning(errors[0]), errors);
  }

  /** A name is blank exactly when it is empty or every character of it is white space. */
  lemma BlankIff(name: string)
    ensures IsBlank(name) <==> Js.AllWhiteSpace(name)
  {
    Js.TrimEmpty(name);
  }

  lemma {:induction false} NameEntriesShape(blank: seq<bool>, k: nat)
    requires k <= |blank|
    ensures NameEntriesErrors(blank, k) == [] <==> forall i :: 0 <= i < k ==> !blank[i]
    ensures forall e :: e in NameEntriesErrors(blank, k) ==> e.EmptyName?
    ensures forall i :: 0 <= i < k && blank[i] ==> EmptyName(i + 1) in NameEntriesErrors(blank, k)
  {
    if k > 0 {
      NameEntriesShape(blank, k - 1);
    }
  }

  /**
   * The names are accepted exactly when none is blank, whether or not any repeat, and each
   * blank name is reported with its position.
   */
  lemma NamesValidIff(names: seq<string>)
    ensures var e := NameErrors(names);
      && ((e == [] || IsWarning(e[0])) <==> forall i :: 0 <= i < |names| ==> !IsBlank(names[i]))
      && (forall i :: 0 <= i < |names| && IsBlank(names[i]) ==> EmptyName(i + 1) in e)
  {
    var blank := Blanks(names);
    NameEntriesShape(blank, |names|);
    var empties := NameEntriesErrors(blank, |names|);
    if empties != [] {
      assert empties[0] in empties;
      assert NameErrors(names)[0] == empties[0];
    } else {
      assert NameErrors(names) == [] || NameErrors(names) == [DuplicateNamesWarning];
    }
  }

  /**
   * Names equal up to case and surrounding white space add exactly one warning, the last
   * message; every message before it is an empty-name error.
   */
  lemma DuplicateNamesWarned(names: seq<string>)
    ensures var e := NameErrors(names);
      && (DuplicateNamesWarning in e <==> !Seqs.Distinct(NormalizedNames(names)))
      && (!Seqs.Distinct(NormalizedNames(names)) ==> e[|e| - 1] == DuplicateNamesWarning)
      && forall i :: 0 <= i < |e| - 1 ==> e[i].EmptyName?
  {
    var blank := Blanks(names);
    NameEntriesShape(blank, |names|);
    Seqs.ToSetSize(NormalizedNames(names));
    var e := NameErrors(names);
    var empties := NameEntriesErrors(blank, |names|);
    assert forall i :: 0 <= i < |empties| ==> e[i] == empties[i];
  }
}
