/**
 * The forced-choice scorer of `experiment.py`: a simulator log is cut into
 * runs, each run's error column is summed, consecutive runs are paired into
 * trials, a Luce-style rule picks one word per trial from an injected uniform
 * draw, the picks are scored against the answer key, and this is repeated to
 * collect one accuracy sample per iteration.
 *
 * Errors are exact reals; floating-point rounding is not modelled. Python's
 * `float(...)` is the injected `Parser` and `random()` the injected stream
 * `rng`, indexed by the number of draws made before.
 */
module Experiment {
  import opened Results
  import opened Strings

  /** Parses one log field as a number, `None` where `float(...)` raises. */
  type Parser = string -> Option<real>

  /** Parses one answer-key field as an integer, `None` where `int(...)` raises. */
  type IntParser = string -> Option<int>

  /** Separates the runs of one condition in the log. */
  const RunMarker: string := "***"
  /** Separates the two conditions of the combined log. */
  const ConditionMarker: string := "######"
  /** Separates the columns of a data line. */
  const FieldSeparator: string := "   "
  /** Non-data lines at the head of every run. */
  const HeaderLines: nat := 3
  /** Resampling iterations `evaluate_experiment` asks of `run_one`. */
  const DefaultIterations: nat := 1000

  /** Why scoring stops; each is an exception of the Python code. */
  datatype Failure =
    | MalformedRun       // neither column of some data line parses (ValueError / IndexError)
    | OddRunCount        // the last run has no partner (IndexError)
    | DegenerateTrial    // a trial's errors sum to zero or are equal (ZeroDivisionError)
    | MalformedKey       // a field of the answer key is not an integer (ValueError)
    | KeyLengthMismatch  // the answer key is not one label per trial (AssertionError)
    | NoSamples          // zero iterations: nothing to describe
    | ConditionCount     // the log does not hold exactly two conditions (ValueError)

  /** What `run_one` reports for one condition (the standard deviation is not modelled). */
  datatype Condition = Condition(
    accuracyMean: real,
    accuracies: seq<real>,
    trialErrors: seq<(real, real)>,
    reactionTimes: seq<real>)

  // ---------------------------------------------------------------------
  // Log parsing (get_error, the first two lines of run_one)
  // ---------------------------------------------------------------------

  function Sum(xs: seq<real>): real
  {
    if |xs| == 0 then 0.0 else xs[0] + Sum(xs[1..])
  }

  /** The lines of a run that carry data: all but the header lines and the final line. */
  function DataLines(run: string): (lines: seq<string>)
    ensures var all := Split(run, "\n");
      |lines| == (if |all| > HeaderLines then |all| - HeaderLines - 1 else 0) &&
      forall k :: 0 <= k < |lines| ==> lines[k] == all[k + HeaderLines]
  {
    var all := Split(run, "\n");
    if |all| > HeaderLines then all[HeaderLines..|all| - 1] else []
  }

  /** Column `col` of a data line as a number; `None` if the column is missing or does not parse. */
  function Field(line: string, col: nat, parse: Parser): Option<real>
  {
    var fields := Split(line, FieldSeparator);
    if col < |fields| then parse(fields[col]) else None
  }

  /** Every data line has a number in column `col`. */
  predicate ColumnParses(lines: seq<string>, col: nat, parse: Parser)
  {
    forall k :: 0 <= k < |lines| ==> Field(lines[k], col, parse).Some?
  }

  /** Reference total of a column, line by line. */
  function ColumnTotal(lines: seq<string>, col: nat, parse: Parser): real
    requires ColumnParses(lines, col, parse)
  {
    if |lines| == 0 then 0.0
    else Field(lines[0], col, parse).value + ColumnTotal(lines[1..], col, parse)
  }

  /** The comprehension `[float(e.split('   ')[col]) for e in examples]`. */
  function Column(lines: seq<string>, col: nat, parse: Parser): (r: Option<seq<real>>)
    ensures r.Some? <==> ColumnParses(lines, col, parse)
    ensures r.Some? ==> Sum(r.value) == ColumnTotal(lines, col, parse)
  {
    var fields := seq(|lines|, k requires 0 <= k < |lines| => Field(lines[k], col, parse));
    assert forall k :: 0 <= k < |lines| ==> fields[k] == Field(lines[k], col, parse);
    var r := AllSome(fields);
    if r.Some? then SumIsColumnTotal(lines, col, parse, r.value); r else r
  }

  /** Summing the parsed column is the line-by-line total. */
  lemma {:induction false} SumIsColumnTotal(lines: seq<string>, col: nat, parse: Parser, values: seq<real>)
    requires ColumnParses(lines, col, parse)
    requires |values| == |lines|
    requires forall k :: 0 <= k < |lines| ==> values[k] == Field(lines[k], col, parse).value
    ensures Sum(values) == ColumnTotal(lines, col, parse)
  {
    if |lines| > 0 {
      SumIsColumnTotal(lines[1..], col, parse, values[1..]);
    }
  }

  /** `get_error`: the total error of one run. */
  function GetError(run: string, parse: Parser): Option<real>
  {
    var lines := DataLines(run);
    match Column(lines, 1, parse)
    case Some(errors) => Some(Sum(errors))
    case None =>
      match Column(lines, 2, parse)
      case Some(errors) => Some(Sum(errors))
      case None => None
  }

  /**
   * A run's error is the total of column 1 over its data lines, or, if any
   * data line fails in column 1, the total of column 2 over every data line
   * (the fallback is all or nothing); it is missing only when both fail.
   */
  lemma GetErrorColumns(run: string, parse: Parser)
    ensures var lines := DataLines(run);
      var r := GetError(run, parse);
      (r.Some? <==> ColumnParses(lines, 1, parse) || ColumnParses(lines, 2, parse)) &&
      (ColumnParses(lines, 1, parse) ==> r == Some(ColumnTotal(lines, 1, parse))) &&
      (!ColumnParses(lines, 1, parse) && ColumnParses(lines, 2, parse) ==>
        r == Some(ColumnTotal(lines, 2, parse)))
  {
  }

  /** The runs of one condition: the pieces after the first run marker. */
  function Runs(log: string): seq<string>
  {
    Split(log, RunMarker)[1..]
  }

  /**
   * The text before the first run marker is discarded, and it holds no
   * marker: the preamble, the marker and the runs rejoined are the log.
   */
  lemma RunsCoverLog(log: string)
    ensures var preamble := Split(log, RunMarker)[0];
      NoOccurrence(preamble, RunMarker) &&
      (|Runs(log)| == 0 ==> log == preamble) &&
      (|Runs(log)| > 0 ==> log == preamble + RunMarker + Join(Runs(log), RunMarker))
  {
    var pieces := Split(log, RunMarker);
    JoinSplit(log, RunMarker);
    SplitPiecesAvoidSep(log, RunMarker);
    if |pieces| > 1 {
      assert pieces[1..] == Runs(log);
    }
  }

  /** `[get_error(run) for run in runs]`. */
  function RunErrors(log: string, parse: Parser): Option<seq<real>>
  {
    var runs := Runs(log);
    AllSome(seq(|runs|, k requires 0 <= k < |runs| => GetError(runs[k], parse)))
  }

  /** One error per run, in run order, present only when every run has one. */
  lemma RunErrorsInOrder(log: string, parse: Parser)
    ensures var r := RunErrors(log, parse);
      var runs := Runs(log);
      (r.Some? <==> forall k :: 0 <= k < |runs| ==> GetError(runs[k], parse).Some?) &&
      (r.Some? ==>
        |r.value| == |runs| &&
        forall k :: 0 <= k < |runs| ==> Some(r.value[k]) == GetError(runs[k], parse))
  {
    var runs := Runs(log);
    var errors := seq(|runs|, k requires 0 <= k < |runs| => GetError(runs[k], parse));
    assert RunErrors(log, parse) == AllSome(errors);
    forall k | 0 <= k < |runs| ensures errors[k] == GetError(runs[k], parse) {
    }
  }

  // ---------------------------------------------------------------------
  // Pairing
  // ---------------------------------------------------------------------

  /** Runs 2k and 2k+1 form trial k. */
  function PairUp(errors: seq<real>): (pairs: seq<(real, real)>)
    requires |errors| % 2 == 0
    ensures |pairs| == |errors| / 2
    ensures forall k :: 0 <= k < |pairs| ==> pairs[k] == (errors[2 * k], errors[2 * k + 1])
  {
    if |errors| == 0 then []
    else [(errors[0], errors[1])] + PairUp(errors[2..])
  }

  /** The run errors of a list of trials, in order. */
  function Unpair(pairs: seq<(real, real)>): seq<real>
  {
    if |pairs| == 0 then [] else [pairs[0].0, pairs[0].1] + Unpair(pairs[1..])
  }

  /** Pairing loses and reorders nothing. */
  lemma {:induction false} UnpairPairUp(errors: seq<real>)
    requires |errors| % 2 == 0
    ensures Unpair(PairUp(errors)) == errors
  {
    if |errors| > 0 {
      UnpairPairUp(errors[2..]);
      assert PairUp(errors)[1..] == PairUp(errors[2..]);
      assert errors == [errors[0], errors[1]] + errors[2..];
    }
  }

  /** Parsing and pairing of one condition's log. */
  function TrialErrors(log: string, parse: Parser): Result<seq<(real, real)>, Failure>
  {
    match RunErrors(log, parse)
    case None => Err(MalformedRun)
    case Some(errors) =>
      if |errors| % 2 != 0 then Err(OddRunCount) else Ok(PairUp(errors))
  }

  /**
   * A log whose runs all parse fails only when the run count is odd; otherwise
   * trial k holds the errors of runs 2k and 2k+1, so there are half as many
   * trials as runs.
   */
  lemma TrialErrorsPairRuns(log: string, parse: Parser)
    ensures var r := TrialErrors(log, parse);
      var runs := Runs(log);
      ((exists k :: 0 <= k < |runs| && GetError(runs[k], parse).None?) ==> r == Err(MalformedRun)) &&
      ((forall k :: 0 <= k < |runs| ==> GetError(runs[k], parse).Some?) ==>
        (r.Err? <==> |runs| % 2 != 0) && (r.Err? ==> r.error == OddRunCount)) &&
      (r.Ok? ==>
        |r.value| * 2 == |runs| &&
        forall k :: 0 <= k < |r.value| ==>
          Some(r.value[k].0) == GetError(runs[2 * k], parse) &&
          Some(r.value[k].1) == GetError(runs[2 * k + 1], parse))
  {
    RunErrorsInOrder(log, parse);
  }

  // ---------------------------------------------------------------------
  // Choice rule (choose, get_network_choices)
  // ---------------------------------------------------------------------

  function Abs(x: real): real
  {
    if x < 0.0 then -x else x
  }

  /** A trial on which `choose` divides by zero. */
  predicate Degenerate(pair: (real, real))
  {
    pair.0 + pair.1 == 0.0 || pair.0 == pair.1
  }

  /** The word `choose` picks for draw `u`, and the reaction time, for a non-degenerate trial. */
  function Choose(pair: (real, real), u: real): (r: Option<(nat, real)>)
    ensures r.Some? <==> !Degenerate(pair)
    ensures r.Some? ==> r.value.0 <= 1 && (r.value.0 == 1 <==> u <= pair.0 / (pair.0 + pair.1))
    ensures r.Some? ==> r.value.1 == (pair.0 + pair.1) / (2.0 * Abs(pair.0 - pair.1))
  {
    if pair.0 + pair.1 == 0.0 then None
    else
      var threshold := pair.0 / (pair.0 + pair.1);
      var choice := if u > threshold then 0 else 1;
      if pair.0 == pair.1 then None
      else
        var rt := 1.0 / (Abs(pair.0 - pair.1) / ((pair.0 + pair.1) / 2.0));
        ReactionTimeClosedForm(pair.0, pair.1);
        Some((choice, rt))
  }

  lemma ReactionTimeClosedForm(e0: real, e1: real)
    requires e0 + e1 != 0.0 && e0 != e1
    ensures 1.0 / (Abs(e0 - e1) / ((e0 + e1) / 2.0)) == (e0 + e1) / (2.0 * Abs(e0 - e1))
  {
    var d := Abs(e0 - e1);
    var s := e0 + e1;
    assert d != 0.0;
    assert d / (s / 2.0) == 2.0 * d / s;
  }

  /** A larger draw never turns a pick of word 0 into a pick of word 1. */
  lemma ChoiceMonotoneInDraw(pair: (real, real), u: real, v: real)
    requires !Degenerate(pair) && u <= v
    ensures Choose(pair, v).value.0 == 1 ==> Choose(pair, u).value.0 == 1
  {
  }

  /**
   * The rule favours the word with the smaller error: with non-negative
   * errors, every draw in [1/2, 1) picks word 0 when word 0 has the smaller
   * error, and every draw in [0, 1/2) picks word 1 when word 1 has.
   */
  lemma ChoiceFavoursSmallerError(e0: real, e1: real, u: real)
    requires 0.0 <= e0 && 0.0 <= e1 && e0 != e1
    ensures e0 < e1 && 0.5 <= u ==> Choose((e0, e1), u).value.0 == 0
    ensures e1 < e0 && u < 0.5 ==> Choose((e0, e1), u).value.0 == 1
  {
    var s := e0 + e1;
    QuotientBelow(e0, s, 0.5);
  }

  /** A trial whose word 0 has zero error picks word 0 on every positive draw. */
  lemma ZeroErrorWordChosen(e1: real, u: real)
    requires e1 > 0.0 && u > 0.0
    ensures Choose((0.0, e1), u) == Some((0, 0.5))
  {
    assert 0.0 / (0.0 + e1) == 0.0;
    assert (0.0 + e1) / (2.0 * Abs(0.0 - e1)) == 0.5 by { assert Abs(0.0 - e1) == e1; }
  }

  /**
   * Swapping the two words mirrors the threshold: the swapped trial picks
   * word 1 for draw `u` exactly when the original threshold is at most
   * `1 - u`, and the reaction time is the same.
   */
  lemma ChoiceSwap(e0: real, e1: real, u: real)
    requires !Degenerate((e0, e1))
    ensures Choose((e1, e0), u).value.0 == 1 <==> e0 / (e0 + e1) <= 1.0 - u
    ensures Choose((e1, e0), u).value.1 == Choose((e0, e1), u).value.1
  {
    var s := e0 + e1;
    var q0 := e0 / s;
    var q1 := e1 / s;
    assert q0 * s == e0 && q1 * s == e1;
    assert (1.0 - q0) * s == s - q0 * s;
    MulCancel(q1, 1.0 - q0, s);
    assert e1 / (e1 + e0) == 1.0 - e0 / s;
  }

  /** For non-negative errors the reaction time is positive. */
  lemma ReactionTimePositive(e0: real, e1: real, u: real)
    requires 0.0 <= e0 && 0.0 <= e1 && e0 != e1
    ensures Choose((e0, e1), u).value.1 > 0.0
  {
  }

  /** For a fixed total error the reaction time falls as the two errors move apart. */
  lemma ReactionTimeDecreasing(p: (real, real), q: (real, real), u: real)
    requires p.0 + p.1 == q.0 + q.1 > 0.0
    requires 0.0 < Abs(p.0 - p.1) < Abs(q.0 - q.1)
    ensures Choose(q, u).value.1 < Choose(p, u).value.1
  {
    var s := p.0 + p.1;
    var a := 2.0 * Abs(p.0 - p.1);
    var b := 2.0 * Abs(q.0 - q.1);
    assert !Degenerate(p) && !Degenerate(q);
    assert Choose(p, u).value.1 == s / a;
    assert Choose(q, u).value.1 == s / b;
    QuotientDecreasing(s, a, b);
  }

  /** A positive quantity divided by a larger divisor is smaller. */
  lemma QuotientDecreasing(s: real, a: real, b: real)
    requires s > 0.0 && 0.0 < a < b
    ensures s / b < s / a
  {
    var slow := s / a;
    assert slow * a == s;
    assert slow > 0.0;
    MulLess(a, b, slow);
    QuotientBelow(s, b, slow);
  }

  lemma MulLess(x: real, y: real, c: real)
    requires x < y && c > 0.0
    ensures x * c < y * c
  {
    assert (y - x) * c > 0.0;
  }

  lemma MulAtMost(x: real, y: real, c: real)
    requires x <= y && c > 0.0
    ensures x * c <= y * c
  {
    assert (y - x) * c >= 0.0;
  }

  lemma MulCancel(x: real, y: real, c: real)
    requires c != 0.0 && x * c == y * c
    ensures x == y
  {
    assert (x - y) * c == 0.0;
  }

  /** Dividing by a positive number preserves a strict bound. */
  lemma QuotientBelow(a: real, s: real, c: real)
    requires s > 0.0
    ensures a / s < c <==> a < c * s
  {
    var q := a / s;
    assert q * s == a;
    if q < c {
      MulLess(q, c, s);
    } else {
      MulAtMost(c, q, s);
    }
  }

  /** Draws `start`, `start + 1`, ... of the random stream. */
  function Draws(rng: nat -> real, start: nat, n: nat): (draws: seq<real>)
    ensures |draws| == n && forall k :: 0 <= k < n ==> draws[k] == rng(start + k)
  {
    seq(n, k requires 0 <= k < n => rng(start + k))
  }

  /** The draws of iteration `t` when every iteration takes `n` draws. */
  function IterationDraws(rng: nat -> real, start: nat, t: nat, n: nat): (draws: seq<real>)
    ensures |draws| == n
  {
    Draws(rng, start + t * n, n)
  }

  /** `get_network_choices`: one pick and one reaction time per trial, from that trial and its draw alone. */
  function GetNetworkChoices(pairs: seq<(real, real)>, draws: seq<real>): (r: Option<(seq<nat>, seq<real>)>)
    requires |draws| == |pairs|
    ensures r.Some? <==> forall k :: 0 <= k < |pairs| ==> !Degenerate(pairs[k])
    ensures r.Some? ==>
      |r.value.0| == |pairs| && |r.value.1| == |pairs| &&
      forall k :: 0 <= k < |pairs| ==>
        r.value.0[k] <= 1 && Choose(pairs[k], draws[k]) == Some((r.value.0[k], r.value.1[k]))
  {
    var results := AllSome(seq(|pairs|, k requires 0 <= k < |pairs| => Choose(pairs[k], draws[k])));
    match results
    case None => None
    case Some(rs) =>
      var choices := seq(|rs|, k requires 0 <= k < |rs| => rs[k].0);
      var times := seq(|rs|, k requires 0 <= k < |rs| => rs[k].1);
      assert forall k :: 0 <= k < |pairs| ==> Choose(pairs[k], draws[k]) == Some((choices[k], times[k]));
      Some((choices, times))
  }

  // ---------------------------------------------------------------------
  // Scoring (test_word_choices)
  // ---------------------------------------------------------------------

  /** The indices of the trials whose pick differs from the key, in order. */
  function Mismatches(choices: seq<nat>, key: seq<int>): (m: seq<nat>)
    requires |choices| == |key|
    ensures |m| <= |choices|
  {
    if |choices| == 0 then []
    else
      var n := |choices| - 1;
      Mismatches(choices[..n], key[..n]) + (if choices[n] != key[n] then [n] else [])
  }

  /**
   * The incorrect trials are listed once each, in increasing order, and an
   * index is listed exactly when the pick at that index differs from the key.
   */
  lemma {:induction false} MismatchesExact(choices: seq<nat>, key: seq<int>)
    requires |choices| == |key|
    ensures var m := Mismatches(choices, key);
      |m| <= |key| &&
      (forall j :: 0 <= j < |m| ==> m[j] < |key|) &&
      (forall j, l :: 0 <= j < l < |m| ==> m[j] < m[l]) &&
      (forall i :: 0 <= i < |key| ==> (i in m <==> choices[i] != key[i]))
  {
    if |choices| > 0 {
      var n := |choices| - 1;
      MismatchesExact(choices[..n], key[..n]);
    }
  }

  /** Every trial is incorrect exactly when the list has one entry per trial. */
  lemma {:induction false} MismatchesAll(choices: seq<nat>, key: seq<int>)
    requires |choices| == |key|
    ensures |Mismatches(choices, key)| == |key| <==> forall i :: 0 <= i < |key| ==> choices[i] != key[i]
  {
    if |choices| > 0 {
      var n := |choices| - 1;
      MismatchesAll(choices[..n], key[..n]);
      MismatchesExact(choices[..n], key[..n]);
      assert forall i :: 0 <= i < n ==> choices[..n][i] == choices[i] && key[..n][i] == key[i];
    }
  }

  /** `test_word_choices`: the indices where the network's pick differs from the key. */
  method TestWordChoices(choices: seq<nat>, key: seq<int>) returns (incorrect: seq<nat>)
    requires |choices| == |key|
    ensures incorrect == Mismatches(choices, key)
    ensures forall j, l :: 0 <= j < l < |incorrect| ==> incorrect[j] < incorrect[l]
    ensures forall j :: 0 <= j < |incorrect| ==> incorrect[j] < |key|
    ensures forall i :: 0 <= i < |key| ==> (i in incorrect <==> choices[i] != key[i])
  {
    incorrect := [];
    for i := 0 to |key|
      invariant incorrect == Mismatches(choices[..i], key[..i])
    {
      assert choices[..i + 1][..i] == choices[..i] && key[..i + 1][..i] == key[..i];
      if choices[i] != key[i] {
        incorrect := incorrect + [i];
      }
    }
    assert choices[..|key|] == choices && key[..|key|] == key;
    MismatchesExact(choices, key);
  }

  /** One accuracy sample: the fraction of trials picked as the key says. */
  function Accuracy(choices: seq<nat>, key: seq<int>): real
    requires |choices| == |key| > 0
  {
    1.0 - (|Mismatches(choices, key)| as real) / (|choices| as real)
  }

  /** An accuracy sample lies in [0, 1]; it is 1 exactly when every pick matches and 0 exactly when none does. */
  lemma AccuracyBounds(choices: seq<nat>, key: seq<int>)
    requires |choices| == |key| > 0
    ensures 0.0 <= Accuracy(choices, key) <= 1.0
    ensures Accuracy(choices, key) == 1.0 <==> forall i :: 0 <= i < |key| ==> choices[i] == key[i]
    ensures Accuracy(choices, key) == 0.0 <==> forall i :: 0 <= i < |key| ==> choices[i] != key[i]
  {
    MismatchesNone(choices, key);
    MismatchesAll(choices, key);
    FractionFacts(|Mismatches(choices, key)| as real, |choices| as real);
  }

  lemma FractionFacts(x: real, n: real)
    requires 0.0 <= x <= n && n > 0.0
    ensures 0.0 <= 1.0 - x / n <= 1.0
    ensures 1.0 - x / n == 1.0 <==> x == 0.0
    ensures 1.0 - x / n == 0.0 <==> x == n
  {
    var q := x / n;
    assert q * n == x;
    QuotientBelow(x, n, 0.0);
    QuotientBelow(x, n, 1.0);
    if q == 1.0 {
      assert x == 1.0 * n;
    }
    if x == n {
      assert q * n == 1.0 * n;
      MulCancel(q, 1.0, n);
    }
    if x == 0.0 {
      assert q * n == 0.0 * n;
      MulCancel(q, 0.0, n);
    }
  }

  /** No trial is incorrect exactly when every pick matches the key. */
  lemma {:induction false} MismatchesNone(choices: seq<nat>, key: seq<int>)
    requires |choices| == |key|
    ensures |Mismatches(choices, key)| == 0 <==> forall i :: 0 <= i < |key| ==> choices[i] == key[i]
  {
    if |choices| > 0 {
      var n := |choices| - 1;
      MismatchesNone(choices[..n], key[..n]);
      assert forall i :: 0 <= i < n ==> choices[..n][i] == choices[i] && key[..n][i] == key[i];
    }
  }

  /** The arithmetic mean `stats.describe` reports, over exact reals. */
  function Mean(xs: seq<real>): real
    requires |xs| > 0
  {
    Sum(xs) / (|xs| as real)
  }

  lemma {:induction false} SumBounds(xs: seq<real>, lo: real, hi: real)
    requires forall k :: 0 <= k < |xs| ==> lo <= xs[k] <= hi
    ensures (|xs| as real) * lo <= Sum(xs) <= (|xs| as real) * hi
  {
    if |xs| > 0 {
      SumBounds(xs[1..], lo, hi);
    }
  }

  /** The mean of samples in [lo, hi] lies in [lo, hi]. */
  lemma MeanBounds(xs: seq<real>, lo: real, hi: real)
    requires |xs| > 0
    requires forall k :: 0 <= k < |xs| ==> lo <= xs[k] <= hi
    ensures lo <= Mean(xs) <= hi
  {
    SumBounds(xs, lo, hi);
    var n := |xs| as real;
    assert Sum(xs) / n * n == Sum(xs);
  }

  // ---------------------------------------------------------------------
  // Resampling (run_one) and the two conditions (evaluate_experiment)
  // ---------------------------------------------------------------------

  /** `get_correct_choices` without the file: one label per carriage-return-separated field. */
  function AnswerKey(text: string, parseInt: IntParser): (r: Option<seq<int>>)
    ensures var fields := Split(text, "\r");
      (r.Some? <==> forall k :: 0 <= k < |fields| ==> parseInt(fields[k]).Some?) &&
      (r.Some? ==>
        |r.value| == |fields| == Count(text, '\r') + 1 &&
        forall k :: 0 <= k < |fields| ==> Some(r.value[k]) == parseInt(fields[k]))
  {
    var fields := Split(text, "\r");
    SplitCharCount(text, '\r');
    var labels := seq(|fields|, k requires 0 <= k < |fields| => parseInt(fields[k]));
    assert forall k :: 0 <= k < |fields| ==> labels[k] == parseInt(fields[k]);
    AllSome(labels)
  }

  /** Scoring can proceed on these trials: every trial has a pick and one key label, and there is a trial. */
  predicate Scorable(trials: seq<(real, real)>, key: seq<int>)
  {
    (forall k :: 0 <= k < |trials| ==> !Degenerate(trials[k])) && |key| == |trials| > 0
  }

  /** The accuracy of the iteration that uses `draws`. */
  function SampleAccuracy(trials: seq<(real, real)>, key: seq<int>, draws: seq<real>): (a: real)
    requires Scorable(trials, key) && |draws| == |trials|
    ensures 0.0 <= a <= 1.0
  {
    var choices := GetNetworkChoices(trials, draws).value.0;
    AccuracyBounds(choices, key);
    Accuracy(choices, key)
  }

  /** The reaction times of the iteration that uses `draws`. */
  function SampleTimes(trials: seq<(real, real)>, draws: seq<real>): seq<real>
    requires (forall k :: 0 <= k < |trials| ==> !Degenerate(trials[k])) && |draws| == |trials|
  {
    GetNetworkChoices(trials, draws).value.1
  }

  /**
   * The outcome of the resampling loop on parsed trials, with `nTrials`
   * iterations whose draws start at index `start` of the stream: iteration t
   * takes the `|trials|` draws after those of iterations 0 .. t-1. The answer
   * key is read from its text in the first iteration, after the picks. The
   * failures come in the order the loop meets them.
   */
  function Score(trials: seq<(real, real)>, keyText: string, parseInt: IntParser, rng: nat -> real, start: nat,
                 nTrials: nat): Result<Condition, Failure>
  {
    var n := |trials|;
    if nTrials == 0 then Err(NoSamples)
    else if exists k :: 0 <= k < n && Degenerate(trials[k]) then Err(DegenerateTrial)
    else
      match AnswerKey(keyText, parseInt)
      case None => Err(MalformedKey)
      case Some(key) =>
        if |key| != n then Err(KeyLengthMismatch)
        else
          var accuracies := Samples(trials, key, rng, start, nTrials);
          Ok(Condition(Mean(accuracies), accuracies, trials,
                       SampleTimes(trials, IterationDraws(rng, start, nTrials - 1, n))))
  }

  /**
   * The outcome of scoring, case by case in the order the loop meets them:
   * no iterations, a degenerate trial, an answer key that does not parse, a
   * key with the wrong number of labels; otherwise scoring succeeds, and then
   * there is at least one trial, since a key text has at least one field.
   */
  lemma ScoreOutcome(trials: seq<(real, real)>, keyText: string, parseInt: IntParser, rng: nat -> real, start: nat,
                     nTrials: nat)
    ensures
      var r := Score(trials, keyText, parseInt, rng, start, nTrials);
      var key := AnswerKey(keyText, parseInt);
      var picks := forall k :: 0 <= k < |trials| ==> !Degenerate(trials[k]);
      (r == Err(NoSamples) <==> nTrials == 0) &&
      (r == Err(DegenerateTrial) <==> nTrials > 0 && !picks) &&
      (r == Err(MalformedKey) <==> nTrials > 0 && picks && key.None?) &&
      (r == Err(KeyLengthMismatch) <==> nTrials > 0 && picks && key.Some? && |key.value| != |trials|) &&
      (r.Ok? <==> nTrials > 0 && picks && key.Some? && |key.value| == |trials|) &&
      (r.Ok? ==> |trials| > 0 && r.value.trialErrors == trials)
  {
  }

  /** The accuracy samples of iterations 0 .. count-1, in iteration order. */
  function Samples(trials: seq<(real, real)>, key: seq<int>, rng: nat -> real, start: nat, count: nat): (samples: seq<real>)
    requires Scorable(trials, key)
    ensures |samples| == count
  {
    if count == 0 then []
    else Samples(trials, key, rng, start, count - 1) + [SampleAccuracy(trials, key, IterationDraws(rng, start, count - 1, |trials|))]
  }

  /**
   * Sample t is the accuracy of iteration t, drawn from its own block of the
   * stream, and lies in [0, 1].
   */
  lemma {:induction false} SamplesAt(trials: seq<(real, real)>, key: seq<int>, rng: nat -> real, start: nat, count: nat, t: nat)
    requires Scorable(trials, key) && t < count
    ensures var samples := Samples(trials, key, rng, start, count);
      samples[t] == SampleAccuracy(trials, key, IterationDraws(rng, start, t, |trials|)) &&
      0.0 <= samples[t] <= 1.0
  {
    var samples := Samples(trials, key, rng, start, count);
    var earlier := Samples(trials, key, rng, start, count - 1);
    var last := SampleAccuracy(trials, key, IterationDraws(rng, start, count - 1, |trials|));
    assert samples == earlier + [last];
    if t < count - 1 {
      SamplesAt(trials, key, rng, start, count - 1, t);
      assert samples[t] == earlier[t];
    } else {
      assert samples[t] == last;
    }
  }

  /** Every accuracy sample lies in [0, 1]. */
  lemma SamplesBounded(trials: seq<(real, real)>, key: seq<int>, rng: nat -> real, start: nat, count: nat)
    requires Scorable(trials, key)
    ensures forall t :: 0 <= t < count ==> 0.0 <= Samples(trials, key, rng, start, count)[t] <= 1.0
  {
    forall t | 0 <= t < count ensures 0.0 <= Samples(trials, key, rng, start, count)[t] <= 1.0 {
      SamplesAt(trials, key, rng, start, count, t);
    }
  }

  /** What `run_one` computes for one condition of the log. */
  function RunOneSpec(log: string, keyText: string, parseInt: IntParser, parse: Parser, rng: nat -> real, start: nat,
                      nTrials: nat): Result<Condition, Failure>
  {
    match TrialErrors(log, parse)
    case Err(e) => Err(e)
    case Ok(trials) => Score(trials, keyText, parseInt, rng, start, nTrials)
  }

  /**
   * The loop of `run_one`: exactly `nTrials` accuracy samples, each in [0, 1],
   * and the reaction times of the last iteration.
   */
  method Resample(trials: seq<(real, real)>, keyText: string, parseInt: IntParser, rng: nat -> real, start: nat,
                  nTrials: nat) returns (r: Result<Condition, Failure>)
    ensures r == Score(trials, keyText, parseInt, rng, start, nTrials)
    ensures r.Ok? ==>
      |r.value.accuracies| == nTrials &&
      (forall t :: 0 <= t < nTrials ==> 0.0 <= r.value.accuracies[t] <= 1.0) &&
      0.0 <= r.value.accuracyMean <= 1.0 &&
      r.value.trialErrors == trials &&
      AnswerKey(keyText, parseInt).Some? &&
      |r.value.reactionTimes| == |trials| == |AnswerKey(keyText, parseInt).value|
  {
    var n := |trials|;
    ghost var answer := AnswerKey(keyText, parseInt);
    var accuracies: seq<real> := [];
    var reactionTimes: seq<real> := [];
    var t := 0;
    while t < nTrials
      invariant 0 <= t <= nTrials
      invariant |accuracies| == t
      invariant t > 0 ==> answer.Some? && Scorable(trials, answer.value)
      invariant t > 0 ==> accuracies == Samples(trials, answer.value, rng, start, t)
      invariant t > 0 ==> reactionTimes == SampleTimes(trials, IterationDraws(rng, start, t - 1, n))
    {
      var draws := IterationDraws(rng, start, t, n);
      var picked := GetNetworkChoices(trials, draws);
      if picked.None? {
        assert exists k :: 0 <= k < n && Degenerate(trials[k]);
        return Err(DegenerateTrial);
      }
      // test_word_choices reads the key afresh on every call
      var answered := AnswerKey(keyText, parseInt);
      if answered.None? {
        assert Score(trials, keyText, parseInt, rng, start, nTrials) == Err(MalformedKey);
        return Err(MalformedKey);
      }
      var key := answered.value;
      var choices := picked.value.0;
      if |choices| != |key| {
        assert Score(trials, keyText, parseInt, rng, start, nTrials) == Err(KeyLengthMismatch);
        return Err(KeyLengthMismatch);
      }
      var incorrect := TestWordChoices(choices, key);
      var accuracy := 1.0 - (|incorrect| as real) / (|choices| as real);
      assert Scorable(trials, key);
      assert accuracy == SampleAccuracy(trials, key, draws) by {
        assert accuracy == Accuracy(choices, key);
      }
      accuracies := accuracies + [accuracy];
      reactionTimes := picked.value.1;
      t := t + 1;
    }
    if t == 0 {
      return Err(NoSamples);
    }
    var key := answer.value;
    assert t == nTrials;
    assert !exists k :: 0 <= k < n && Degenerate(trials[k]);
    assert accuracies == Samples(trials, key, rng, start, nTrials);
    assert reactionTimes == SampleTimes(trials, IterationDraws(rng, start, nTrials - 1, n));
    SamplesBounded(trials, key, rng, start, nTrials);
    MeanBounds(accuracies, 0.0, 1.0);
    r := Ok(Condition(Mean(accuracies), accuracies, trials, reactionTimes));
  }

  /** `run_one`: parse the log of one condition, pair its runs, then resample. */
  method RunOne(log: string, keyText: string, parseInt: IntParser, parse: Parser, rng: nat -> real, start: nat,
                nTrials: nat) returns (r: Result<Condition, Failure>)
    ensures r == RunOneSpec(log, keyText, parseInt, parse, rng, start, nTrials)
    ensures r.Ok? ==>
      |r.value.accuracies| == nTrials &&
      (forall t :: 0 <= t < nTrials ==> 0.0 <= r.value.accuracies[t] <= 1.0) &&
      0.0 <= r.value.accuracyMean <= 1.0 &&
      AnswerKey(keyText, parseInt).Some? &&
      |r.value.reactionTimes| == |r.value.trialErrors| == |AnswerKey(keyText, parseInt).value|
  {
    var parsed := TrialErrors(log, parse);
    if parsed.Err? {
      return Err(parsed.error);
    }
    r := Resample(parsed.value, keyText, parseInt, rng, start, nTrials);
  }

  /** A scored condition has `nTrials` samples, each in [0, 1], and their mean lies in [0, 1]. */
  lemma ScoreBounded(trials: seq<(real, real)>, keyText: string, parseInt: IntParser, rng: nat -> real, start: nat,
                     nTrials: nat)
    requires Score(trials, keyText, parseInt, rng, start, nTrials).Ok?
    ensures var c := Score(trials, keyText, parseInt, rng, start, nTrials).value;
      |c.accuracies| == nTrials &&
      (forall t :: 0 <= t < nTrials ==> 0.0 <= c.accuracies[t] <= 1.0) &&
      0.0 <= c.accuracyMean <= 1.0
  {
    var key := AnswerKey(keyText, parseInt).value;
    SamplesBounded(trials, key, rng, start, nTrials);
    MeanBounds(Samples(trials, key, rng, start, nTrials), 0.0, 1.0);
  }

  /**
   * Scores one segment of the log whose draws start at the given index.
   * `RunAll` assumes that a runner takes `DefaultIterations` draws per trial,
   * as `ConditionRunner` does; its lemmas hold for any runner, but describe
   * the draws of the source only for that one.
   */
  type Runner = (string, nat) -> Result<Condition, Failure>

  /** `run_one` with the key, the parser and the stream of this evaluation, and 1000 iterations. */
  function ConditionRunner(keyText: string, parseInt: IntParser, parse: Parser, rng: nat -> real): Runner
  {
    (segment: string, start: nat) => RunOneSpec(segment, keyText, parseInt, parse, rng, start, DefaultIterations)
  }

  /**
   * Python 2's `map(run_one, segments)`: every segment in order, each one's
   * draws following those of the segments before it; also the index of the
   * next unused draw. A segment of n trials moves that index on by
   * `DefaultIterations * n`, the draws `run_one` takes with its default
   * `ntrials`, so `run` must be a runner that takes that many.
   */
  function RunAll(segments: seq<string>, run: Runner, start: nat): Result<(seq<Condition>, nat), Failure>
  {
    if |segments| == 0 then Ok(([], start))
    else match run(segments[0], start)
      case Err(e) => Err(e)
      case Ok(c) =>
        match RunAll(segments[1..], run, start + DefaultIterations * |c.trialErrors|)
        case Err(e) => Err(e)
        case Ok((cs, next)) => Ok(([c] + cs, next))
  }

  /** Running one more segment after a prefix continues where the prefix left off. */
  lemma {:induction false} RunAllSnoc(segments: seq<string>, s: string, run: Runner, start: nat)
    ensures RunAll(segments + [s], run, start) ==
      match RunAll(segments, run, start)
      case Err(e) => Err(e)
      case Ok((cs, next)) =>
        match run(s, next)
        case Err(e) => Err(e)
        case Ok(c) => Ok((cs + [c], next + DefaultIterations * |c.trialErrors|))
  {
    if |segments| == 0 {
      assert segments + [s] == [s];
      assert [s][1..] == [];
      match run(s, start)
      case Err(e) =>
      case Ok(c) =>
        assert [] + [c] == [c] + [];
    } else {
      assert (segments + [s])[0] == segments[0];
      assert (segments + [s])[1..] == segments[1..] + [s];
      match run(segments[0], start)
      case Err(e) =>
      case Ok(c) =>
        RunAllSnoc(segments[1..], s, run, start + DefaultIterations * |c.trialErrors|);
        match RunAll(segments[1..], run, start + DefaultIterations * |c.trialErrors|)
        case Err(e) =>
        case Ok((cs, next)) =>
          match run(s, next)
          case Err(e) =>
          case Ok(c2) =>
            assert [c] + (cs + [c2]) == ([c] + cs) + [c2];
    }
  }

  /** One more segment that scores extends the prefix's conditions and its draws. */
  lemma RunAllStepOk(segments: seq<string>, i: nat, run: Runner, conditions: seq<Condition>, next: nat,
                     c: Condition, conditions': seq<Condition>, next': nat)
    requires i < |segments|
    requires RunAll(segments[..i], run, 0) == Ok((conditions, next))
    requires run(segments[i], next) == Ok(c)
    requires conditions' == conditions + [c] && next' == next + DefaultIterations * |c.trialErrors|
    ensures RunAll(segments[..i + 1], run, 0) == Ok((conditions', next'))
  {
    RunAllSnoc(segments[..i], segments[i], run, 0);
    assert segments[..i + 1] == segments[..i] + [segments[i]];
  }

  /** One more segment that fails makes the prefix fail with its failure. */
  lemma RunAllStepErr(segments: seq<string>, i: nat, run: Runner, conditions: seq<Condition>, next: nat, e: Failure)
    requires i < |segments|
    requires RunAll(segments[..i], run, 0) == Ok((conditions, next))
    requires run(segments[i], next) == Err(e)
    ensures RunAll(segments[..i + 1], run, 0) == Err(e)
  {
    RunAllSnoc(segments[..i], segments[i], run, 0);
    assert segments[..i + 1] == segments[..i] + [segments[i]];
  }

  /** A property every scored segment has holds of every condition of a successful run. */
  lemma {:induction false} RunAllMeansBounded(segments: seq<string>, run: Runner, start: nat)
    requires forall s, n :: run(s, n).Ok? ==> 0.0 <= run(s, n).value.accuracyMean <= 1.0
    requires RunAll(segments, run, start).Ok?
    ensures var cs := RunAll(segments, run, start).value.0;
      forall j :: 0 <= j < |cs| ==> 0.0 <= cs[j].accuracyMean <= 1.0
  {
    if |segments| > 0 {
      var c := run(segments[0], start).value;
      RunAllMeansBounded(segments[1..], run, start + DefaultIterations * |c.trialErrors|);
    }
  }

  /** Every condition `run_one` scores has its mean accuracy in [0, 1]. */
  lemma ConditionRunnerBounded(keyText: string, parseInt: IntParser, parse: Parser, rng: nat -> real)
    ensures var run := ConditionRunner(keyText, parseInt, parse, rng);
      forall s, n :: run(s, n).Ok? ==> 0.0 <= run(s, n).value.accuracyMean <= 1.0
  {
    var run := ConditionRunner(keyText, parseInt, parse, rng);
    forall s, n | run(s, n).Ok? ensures 0.0 <= run(s, n).value.accuracyMean <= 1.0 {
      ScoreBounded(TrialErrors(s, parse).value, keyText, parseInt, rng, n, DefaultIterations);
    }
  }

  /** A failure on a prefix of the segments is the failure of all of them. */
  lemma {:induction false} RunAllErrPropagates(segments: seq<string>, i: nat, run: Runner)
    requires i <= |segments|
    requires RunAll(segments[..i], run, 0).Err?
    ensures RunAll(segments, run, 0) == RunAll(segments[..i], run, 0)
    decreases |segments| - i
  {
    if i < |segments| {
      RunAllSnoc(segments[..i], segments[i], run, 0);
      assert segments[..i + 1] == segments[..i] + [segments[i]];
      RunAllErrPropagates(segments, i + 1, run);
    } else {
      assert segments[..i] == segments;
    }
  }

  /** A successful run has one condition per segment, the first one drawing from the start. */
  lemma {:induction false} RunAllLength(segments: seq<string>, run: Runner, start: nat)
    requires RunAll(segments, run, start).Ok?
    ensures |RunAll(segments, run, start).value.0| == |segments|
  {
    if |segments| > 0 {
      var c := run(segments[0], start).value;
      RunAllLength(segments[1..], run, start + DefaultIterations * |c.trialErrors|);
    }
  }

  /**
   * The `map(run_one, segments)` loop of `evaluate_experiment`: every segment
   * scored in order with the same key and 1000 iterations, each drawing after
   * the one before.
   */
  method RunConditions(segments: seq<string>, keyText: string, parseInt: IntParser, parse: Parser, rng: nat -> real)
    returns (r: Result<(seq<Condition>, nat), Failure>)
    ensures r == RunAll(segments, ConditionRunner(keyText, parseInt, parse, rng), 0)
  {
    ghost var run := ConditionRunner(keyText, parseInt, parse, rng);
    var conditions: seq<Condition> := [];
    var next: nat := 0;
    var i := 0;
    while i < |segments|
      invariant 0 <= i <= |segments|
      invariant RunAll(segments[..i], run, 0) == Ok((conditions, next))
    {
      var c := RunOne(segments[i], keyText, parseInt, parse, rng, next, DefaultIterations);
      assert c == run(segments[i], next);
      if c.Err? {
        RunAllStepErr(segments, i, run, conditions, next, c.error);
        RunAllErrPropagates(segments, i + 1, run);
        return Err(c.error);
      }
      var conditions' := conditions + [c.value];
      var next' := next + DefaultIterations * |c.value.trialErrors|;
      RunAllStepOk(segments, i, run, conditions, next, c.value, conditions', next');
      conditions, next, i := conditions', next', i + 1;
    }
    assert segments[..i] == segments;
    r := Ok((conditions, next));
  }

  /**
   * `evaluate_experiment`: the `######`-separated segments of the combined log
   * are scored in order; the result is the two conditions A and B, and exists
   * only when the log holds exactly two segments and both score.
   */
  method EvaluateExperiment(log: string, keyText: string, parseInt: IntParser, parse: Parser, rng: nat -> real)
    returns (r: Result<(Condition, Condition), Failure>)
    ensures var segments := Split(log, ConditionMarker);
      var all := RunAll(segments, ConditionRunner(keyText, parseInt, parse, rng), 0);
      (all.Err? ==> r == Err(all.error)) &&
      (all.Ok? && |segments| != 2 ==> r == Err(ConditionCount)) &&
      (r.Ok? <==> all.Ok? && |segments| == 2) &&
      (r.Ok? ==>
        RunOneSpec(segments[0], keyText, parseInt, parse, rng, 0, DefaultIterations) == Ok(r.value.0) &&
        RunOneSpec(segments[1], keyText, parseInt, parse, rng,
          DefaultIterations * |r.value.0.trialErrors|, DefaultIterations) == Ok(r.value.1) &&
        0.0 <= r.value.0.accuracyMean <= 1.0 && 0.0 <= r.value.1.accuracyMean <= 1.0)
  {
    var segments := Split(log, ConditionMarker);
    var all := RunConditions(segments, keyText, parseInt, parse, rng);
    if all.Err? {
      return Err(all.error);
    }
    RunAllLength(segments, ConditionRunner(keyText, parseInt, parse, rng), 0);
    ConditionRunnerBounded(keyText, parseInt, parse, rng);
    RunAllMeansBounded(segments, ConditionRunner(keyText, parseInt, parse, rng), 0);
    var conditions := all.value.0;
    if |conditions| != 2 {
      return Err(ConditionCount);
    }
    r := Ok((conditions[0], conditions[1]));
    assert segments[1..] == [segments[1]];
  }
}
