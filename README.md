# A verified model of the LENS segmentation experiment scripts

Two Python 2 scripts drive a LENS (light, efficient network simulator) study of word segmentation.

- `create_files.py` turns a phoneme corpus into LENS example files.
  - It reads the corpus lines of a language and normalises them into one continuous string.
  - It builds the localist encoding of the cas98 symbols: one output unit number per symbol, with unit `0` for the boundary `#`.
  - It writes one `name: {i -> t}` record per pair of consecutive symbols. Records go into a test window and then a training window over the corpus.
  - It also writes the training file and the 72 trial files of each of the two experiment conditions, A and B.
- `experiment.py` scores the network's output on the experiment.
  - It cuts the LENS log into the two conditions and each condition into runs.
  - It sums each run's error column and pairs consecutive runs into trials.
  - It picks one word per trial with a probabilistic rule driven by `random()`: word 0 is chosen with probability `e1 / (e0 + e1)`.
  - It scores the picks against the answer key, and repeats this 1000 times to get accuracy samples and their mean.

The model is in four files.

- `results.dfy` (module `Results`): `Option` and `Result`, plus `AllSome`, which models a list comprehension over a step that may raise.
- `strings.dfy` (module `Strings`): Python's `split`, `join`, `replace` and `find` on text, with the lemmas that relate them.
- `experiment.dfy` (module `Experiment`): the scorer.
- `create_files.dfy` (module `CreateFiles`): the file writer.

How the model stands in for the program.

- Every loop of the source is a Dafny `method` with its loop and invariants. This includes `for exp in ('A', 'B')`, a loop over the two conditions in `CreateFiles.CreatExpFiles`. Each method is proved equal to a specification function, or to the results of the methods its body calls. The properties are then proved about those functions.
- Each Python exception is a failure value.
  - Scorer: `IndexError`, `ValueError`, `ZeroDivisionError` and `AssertionError` become `Failure` values.
  - Writer: the `IndexError` of an index past the corpus, the `KeyError` of a symbol without a code, and the trial-count assertion become `WriteFailure` values.
  - Encoding table: the `IndexError` from `row[0]` on an empty row of the symbol table (create_files.py:65) is the `None` of `Localist` and `LocalistEncoding`.
- I/O, the float parser and randomness become values or parameters instead.
  - File contents are parameters, and the text a file would receive is a result.
  - `float(...)` and `int(...)` are injected parsers.
  - `random()` is an injected stream `rng: nat -> real`. It is indexed by the number of draws made before, across condition A and then condition B.

## Model

| member | source | states |
|---|---|---|
| Experiment.GetError | experiment.py:7-22 | definition of `get_error`; what it computes is stated by `GetErrorColumns` |
| Experiment.DataLines | experiment.py:17 | the data lines of a run are the lines after the three header lines, without the final line, and none when the run is that short |
| Experiment.Column | experiment.py:19 | a column's values exist exactly when every data line parses in that column, and they then sum to the column total |
| Experiment.GetErrorColumns | experiment.py:17-22 | a run's error is the column-1 total if every line parses there; otherwise it is the column-2 total (all or nothing); it is missing only when both columns fail |
| Experiment.Runs | experiment.py:76 | definition of `out.split('***')[1:]`; see `RunsCoverLog` |
| Experiment.RunsCoverLog | experiment.py:76 | the text before the first `***` holds no marker and is discarded; that preamble, the marker and the runs rejoined give back the log |
| Experiment.RunErrors | experiment.py:77 | definition of the error list; see `RunErrorsInOrder` |
| Experiment.RunErrorsInOrder | experiment.py:77 | one error per run, in run order; the list exists exactly when every run has an error |
| Experiment.PairUp | experiment.py:79 | trial k is the pair of run errors 2k and 2k+1, and there are half as many trials as errors |
| Experiment.UnpairPairUp | experiment.py:79 | pairing neither drops nor reorders any run error |
| Experiment.TrialErrors | experiment.py:76-79 | definition of the parsing and pairing of one condition; see `TrialErrorsPairRuns` |
| Experiment.TrialErrorsPairRuns | experiment.py:76-79 | an unparsable run gives `MalformedRun`; if all runs parse, the only failure is an odd run count (`OddRunCount`); on success there are half as many trials as runs, and each holds the errors of its two runs |
| Experiment.Choose | experiment.py:37-43 | defined exactly when the errors neither sum to zero nor are equal; the pick is word 1 exactly when the draw is at most `e0 / (e0 + e1)`; the reaction time is `(e0 + e1) / (2 abs(e0 - e1))` |
| Experiment.ReactionTimeClosedForm | experiment.py:42 | the source's reaction-time formula equals the closed form above |
| Experiment.ChoiceMonotoneInDraw | experiment.py:40 | a larger draw never turns a pick of word 0 into a pick of word 1 |
| Experiment.ChoiceFavoursSmallerError | experiment.py:38-40 | with non-negative errors, draws in [1/2, 1) pick word 0 when it has the smaller error, and draws in [0, 1/2) pick word 1 when it has |
| Experiment.ZeroErrorWordChosen | experiment.py:39-42 | word 0 with zero error is picked on every positive draw, with reaction time 1/2 |
| Experiment.ChoiceSwap | experiment.py:39-42 | swapping the two words mirrors the threshold to `1 - u` and keeps the reaction time |
| Experiment.ReactionTimePositive | experiment.py:42 | non-negative, distinct errors give a positive reaction time |
| Experiment.ReactionTimeDecreasing | experiment.py:42 | for a fixed total error, the reaction time falls as the two errors move apart |
| Experiment.IterationDraws | experiment.py:40 | definition of the block of `random()` draws that iteration t of a condition takes, one per trial, from the draw index where the condition starts; see `SamplesAt`, `Resample` |
| Experiment.GetNetworkChoices | experiment.py:45-48 | one pick and one reaction time per trial, each from that trial and its own draw; defined exactly when no trial is degenerate |
| Experiment.Mismatches | experiment.py:66-71 | definition of the list `test_word_choices` returns; see `MismatchesExact`, `MismatchesAll`, `MismatchesNone` |
| Experiment.MismatchesExact | experiment.py:66-71 | the incorrect indices are in range, strictly increasing, and list index i exactly when pick i differs from key i |
| Experiment.MismatchesAll | experiment.py:66-71 | every trial is listed exactly when no pick matches the key |
| Experiment.MismatchesNone | experiment.py:66-71 | the list is empty exactly when every pick matches the key |
| Experiment.TestWordChoices | experiment.py:60-71 | the loop returns the mismatching indices in increasing order, with each index present exactly when pick and key differ |
| Experiment.Accuracy | experiment.py:84 | definition of one accuracy sample; see `AccuracyBounds` |
| Experiment.AccuracyBounds | experiment.py:84 | an accuracy sample lies in [0, 1]; it is 1 exactly when all picks match and 0 exactly when none does |
| Experiment.FractionFacts | experiment.py:84 | real-arithmetic helper of `AccuracyBounds`: `1 - x/n` lies in [0, 1] for 0 <= x <= n, is 1 exactly when x = 0, and is 0 exactly when x = n |
| Experiment.Mean | experiment.py:85 | definition of the mean that `stats.describe` reports as `d[2]`; see `MeanBounds` |
| Experiment.SumBounds | experiment.py:85-86 | real-arithmetic helper of `MeanBounds`: a sum of n values in [lo, hi] lies between n·lo and n·hi |
| Experiment.MeanBounds | experiment.py:85-86 | the mean of values in [lo, hi] lies in [lo, hi] |
| Experiment.Score | experiment.py:80-87 | definition of the resampling loop's outcome; see `ScoreOutcome`, `SamplesAt`, `ScoreBounded` |
| Experiment.ScoreOutcome | experiment.py:65-84 | the failures in the order the loop meets them: no iterations, a degenerate trial in `choose`, an answer key that `int` cannot parse (`ValueError`), a key of the wrong length (the assertion); otherwise success, with at least one trial |
| Experiment.SampleAccuracy | experiment.py:82-84 | the accuracy of one iteration lies in [0, 1] |
| Experiment.Samples | experiment.py:80-84 | definition of the `accuracies` list the loop builds, one sample per iteration in order; see `SamplesAt`, `SamplesBounded` |
| Experiment.SamplesAt | experiment.py:80-84 | sample t is the accuracy of iteration t, computed from that iteration's own block of draws, and lies in [0, 1] |
| Experiment.SamplesBounded | experiment.py:80-84 | every accuracy sample lies in [0, 1] |
| Experiment.Resample | experiment.py:80-87 | the resampling loop fails as the loop would (no iterations, a degenerate trial, an unparsable key, a key of the wrong length), rereading the key in every iteration as `test_word_choices` does; otherwise it gives exactly `ntrials` samples, each in [0, 1], a mean in [0, 1], the trials unchanged, and the last iteration's reaction times, one per trial |
| Experiment.RunOneSpec | experiment.py:74-87 | definition of `run_one` on one segment: parsing and pairing, then resampling; see `RunOne`, `ScoreOutcome`, `ScoreBounded` |
| Experiment.RunOne | experiment.py:74-87 | `run_one`: a parse or pairing failure, or the resampled condition with the guarantees above; on success the answer key parses and has one label per trial |
| Experiment.ScoreBounded | experiment.py:80-86 | a scored condition has `ntrials` samples, each in [0, 1], and a mean in [0, 1] |
| Experiment.RunAll | experiment.py:100 | definition of `map(run_one, segments)` with the draw index carried from one segment to the next; see the `RunAll` lemmas below |
| Experiment.RunAllSnoc | experiment.py:100 | scoring one more segment appends its condition and advances the draw index by that condition's draws, or fails |
| Experiment.RunAllStepOk | experiment.py:100 | a prefix that scored, followed by a segment that scores, gives the longer prefix's result |
| Experiment.RunAllStepErr | experiment.py:100 | a failing segment after a prefix that scored makes the longer prefix fail with its error |
| Experiment.RunAllErrPropagates | experiment.py:100 | a failure on a prefix of the segments is the failure of all of them |
| Experiment.RunAllLength | experiment.py:100 | a successful scoring has one condition per segment |
| Experiment.RunAllMeansBounded | experiment.py:100 | if every scored segment has a mean in [0, 1], so does every condition of the list |
| Experiment.ConditionRunner | experiment.py:100 | definition of `run_one` with its default `ntrials=1000` (experiment.py:74), as `map` applies it; see `ConditionRunnerBounded`, `RunConditions` |
| Experiment.ConditionRunnerBounded | experiment.py:100 | `run_one` with 1000 iterations always gives a mean accuracy in [0, 1] |
| Experiment.RunConditions | experiment.py:100 | the map over the `######` segments scores them in order, each drawing after the previous one, and stops at the first failure |
| Experiment.EvaluateExperiment | experiment.py:100-107 | any segment's failure is the result; otherwise the result exists exactly when there are two segments; A is segment 0 scored from draw 0, B is segment 1 scored from the draw after A's, and both means lie in [0, 1] |
| Experiment.AnswerKey | experiment.py:55-56 | the key exists exactly when every `\r`-separated field parses; it then has one label per field, field k giving label k |
| Results.AllSome | experiment.py:77 | a comprehension over a step that may raise gives a list exactly when every step succeeds, holding their values in order |
| Results.AllSomeSnoc | create_files.py:95-98 | one more step extends the list by its value if it and all before it succeed |
| Strings.Split | experiment.py:76 | definition of Python's `str.split(sep)`; it always gives at least one piece; see `JoinSplit`, `SplitPiecesAvoidSep`, `SplitCharCount` |
| Strings.Join | create_files.py:12 | definition of Python's `sep.join(pieces)`; see `JoinSplit`, `JoinSnoc`, `JoinKeepsAbsent` |
| Strings.Replace | create_files.py:13-18 | definition of Python's `str.replace(pat, repl)`; see `ReplaceIsJoinSplit`, `ReplaceKeepsAbsent`, `ReplaceRemovesChar` |
| Strings.Count | create_files.py:142 | a character's count is zero exactly when it is absent |
| Strings.IndexOf | create_files.py:10 | `find` gives the index of the first occurrence of a present character |
| Strings.IndexOfAt | create_files.py:10 | a character found at k and nowhere before has its first occurrence at k |
| Strings.JoinSplit | experiment.py:76 | joining the pieces of a split with the same separator gives back the text |
| Strings.ReplaceIsJoinSplit | create_files.py:13-14 | `replace(p, r)` is `r.join(split(p))` |
| Strings.ReplaceKeepsAbsent | create_files.py:17-18 | `replace` never introduces a character absent from the text and the replacement |
| Strings.ReplaceRemovesChar | create_files.py:17 | replacing a character by text without it removes every occurrence |
| Strings.SplitPiecesAvoidSep | experiment.py:76 | no piece of a split contains the separator |
| Strings.SplitCharPieces | create_files.py:142 | no piece of a split on a character contains that character |
| Strings.SplitKeepsAbsent | create_files.py:142 | a character absent from the text is absent from every piece |
| Strings.SplitCharCount | create_files.py:142 | splitting on a character gives one piece more than it has occurrences |
| Strings.JoinSnoc | create_files.py:94-98 | joining one more piece appends the separator and the piece |
| Strings.JoinKeepsAbsent | create_files.py:12 | a character in no piece and not in the separator is absent from the joined text |
| CreateFiles.CutStress | create_files.py:10 | the text before the first tab; with no tab (`find` gives -1) everything but the last character; never holds a tab |
| CreateFiles.StripEnds | create_files.py:21 | `line[1:-1]`: two characters shorter, shifted by one, and empty for lines shorter than two |
| CreateFiles.GetCorpus | create_files.py:5-29 | definition of `get_corpus` on the lines of the file; see `Cas98CorpusClean`, `OtherCorpusClean`, `CorpusSingleLine` |
| CreateFiles.Cas98Corpus | create_files.py:9-18 | definition of the cas98 branch; see `Cas98CorpusClean` |
| CreateFiles.OtherCorpus | create_files.py:20-28 | definition of the other branch; see `OtherCorpusClean` |
| CreateFiles.Cas98CorpusClean | create_files.py:9-18 | a cas98 corpus holds no tab, no `/` and no `E` |
| CreateFiles.OtherCorpusClean | create_files.py:20-28 | any other corpus holds no `\r`, and no `X` unless word boundaries are kept |
| CreateFiles.CorpusSingleLine | create_files.py:5-29 | on lines as `readlines` gives them, the corpus holds no line break |
| CreateFiles.DecimalString | create_files.py:65 | `str(n)` is a non-empty numeral of digits that starts with `0` only for 0 |
| CreateFiles.DecimalRoundTrip | create_files.py:65 | reading the numeral back gives the number |
| CreateFiles.DecimalStringInjective | create_files.py:65 | different numbers have different numerals |
| CreateFiles.LastRow | create_files.py:64-65 | the last data row with a given symbol, or -1 when none has it |
| CreateFiles.Localist | create_files.py:61-66 | definition of the table the loop builds; see `LocalistDefined`, `LocalistBoundary`, `LocalistLookup` |
| CreateFiles.LocalistDefined | create_files.py:64-65 | the localist table exists exactly when every data row has a first field |
| CreateFiles.LocalistBoundary | create_files.py:66 | `#` maps to `0` once a row has been read, and is absent for a table with no rows |
| CreateFiles.LocalistLookup | create_files.py:64-66 | every other symbol is a key exactly when some row has it, and it maps to the number of its last row, counting from 1 |
| CreateFiles.LocalistCodesDistinct | create_files.py:64-66 | distinct symbols get distinct output units |
| CreateFiles.LocalistCodesNumerals | create_files.py:65-66 | localist codes hold no `t`, so their records read back |
| CreateFiles.LocalistEncoding | create_files.py:61-66 | the loop over the rows after the header builds the table above, or stops at a row without a first field |
| CreateFiles.WriteExample | create_files.py:154-162 | a record is written exactly when the input symbol has an input code and the target has an output code |
| CreateFiles.ExampleRoundTrip | create_files.py:156-162 | a record whose input code has no `t` parses back into its symbols, its two codes and its format (`I:` dense, `i:` sparse) |
| CreateFiles.ParseLaidOut | create_files.py:156-162 | a text with the fixed parts of a record in place parses into its parts |
| CreateFiles.RecordLayout | create_files.py:156-162 | where the fixed parts, the symbols and the codes sit in a record |
| CreateFiles.CodesLayout | create_files.py:160-162 | with no `t` in the input code, the first `t` of the codes is the separator's |
| CreateFiles.WriteRange | create_files.py:95-98 | definition of the `for c in range(lo, hi)` loop writing the pairs `(text[c], text[c + 1])`; see `WriteRangeRecords`, `WriteRangePastEnd`, `WriteRangeErrStays` |
| CreateFiles.Records | create_files.py:95-98 | definition of the records of a window's pairs, one slot per pair; see `RecordsPresent` |
| CreateFiles.RecordsPresent | create_files.py:96-98 | every record of a window is there exactly when each of its pairs has an input code for its symbol and an output code for its target |
| CreateFiles.ConcatIsJoin | create_files.py:94-98 | records written one after the other are their join, and missing once one is missing |
| CreateFiles.WriteRangeConcat | create_files.py:95-98 | inside the text, the window writes the concatenation of its records |
| CreateFiles.WriteRangeRecords | create_files.py:95-98 | inside the text, the window writes the records of its pairs in order, and fails only on a symbol without a code |
| CreateFiles.WriteRangePastEnd | create_files.py:95-97 | a window that reaches past the end of the text fails |
| CreateFiles.WriteRangeErrStays | create_files.py:95-98 | a failure part way through the loop is the failure of the whole loop |
| CreateFiles.TrainingSpec | create_files.py:86-113 | definition of what `create_training_files` writes and returns; see `TestFileRecords`, `TrainFileRecords` |
| CreateFiles.CreateTrainingFiles | create_files.py:86-113 | the two loops compute the test and training text and the count; the count is at most `num_train`, and it is smaller only when the training window reaches the last symbol of the corpus |
| CreateFiles.TestFileRecords | create_files.py:92-98 | the test file is empty for no test pairs; otherwise the window lies inside the corpus and the file holds the records of the first `num_test` pairs, in order |
| CreateFiles.TrainFileRecords | create_files.py:100-113 | the count is `num_train` cut to the pairs the corpus has left; the training file holds the records of that many pairs after the test pairs |
| CreateFiles.ExpTrainSpec | create_files.py:124-134 | definition of a condition's training file; see `ExpTrainRecords` |
| CreateFiles.ExpTrainFile | create_files.py:121-134 | the `while True` loop writes every pair of the training text and fails on an empty text |
| CreateFiles.ExpTrainRecords | create_files.py:125-134 | a successful training file holds the records of all `len(text) - 1` pairs, in order |
| CreateFiles.CleanTrials | create_files.py:139-141 | definition of the removal of `\r` and `\n` and the collapse of `QQ`; see `SplitTrialsShape` |
| CreateFiles.SplitTrials | create_files.py:139-143 | definition of the trial list; see `SplitTrialsShape` |
| CreateFiles.TrialFile | create_files.py:147-151 | definition of one trial's test file; see `TrialFilesAt`, `ExpTestRecords` |
| CreateFiles.SplitTrialsShape | create_files.py:139-143 | there is one trial fewer than the cleaned text has `Q`s (none without a `Q`); each trial ends in its only `Q` and holds no line break |
| CreateFiles.TrialFiles | create_files.py:146-151 | one test file per trial when all succeed |
| CreateFiles.TrialFilesAt | create_files.py:146-151 | test file k is the file of trial k |
| CreateFiles.TrialFilesErrStays | create_files.py:146-151 | a failure among the first trials is the failure of the whole loop |
| CreateFiles.WriteTrial | create_files.py:147-151 | the loop over one trial writes its pairs in the sparse format |
| CreateFiles.ExpTestSpec | create_files.py:139-151 | definition of a condition's test files; see `ExpTestRecords` |
| CreateFiles.ExpTestFiles | create_files.py:139-151 | fails unless there are exactly 72 trials; otherwise it gives one test file per trial, in order, or the first failure |
| CreateFiles.ExpTestRecords | create_files.py:146-151 | test file k holds the records of the `len(trial) - 1` pairs of trial k, in order, in the sparse format |
| CreateFiles.ExpConditionSpec | create_files.py:120-151 | definition of one condition's files; see `ExpCondition` |
| CreateFiles.ExpCondition | create_files.py:120-151 | one condition: its training file, then its 72 test files, or the first failure |
| CreateFiles.CreatExpFiles | create_files.py:116-151 | the loop over the conditions A and B; the first failure stops everything; on success both conditions have 72 test files |

## Left out

- File reading and writing, `logging`, and the log copy written to `experiment-log.out`: file contents are parameters and results instead.
- Floating point: errors, thresholds and accuracies are exact reals, so rounding is not modelled.
- `float(...)` in `get_error` and `int` in `get_correct_choices` are injected parsers (`Parser`, `parseInt`), because their text formats are not part of this model.
- `random()` is the injected stream `rng`; which numbers it produces is not modelled.
- `stats.describe` is reduced to the mean of the samples. The standard deviation (`d[3]**0.5`) is not modelled because it needs a square root.
- Experiment.EvaluateExperiment: does not compute the mean reaction times `sum(A[3]) / len(A[3])` (experiment.py:108-109); it returns the reaction-time lists they are computed from.
- The distributed encoding of cas98 (create_files.py:52-58) uses `str(list).translate`, a Python 2 rendering of lists that is not modelled. The non-cas98 table read from CSV (create_files.py:77-80) and the assertion at line 70 are not modelled either. The writers take both encodings as parameters, so they cover these tables too.
- `lens.py` is not part of this model. It fills fixed LENS script templates with the network parameters and writes three `.in` files; it calls none of the modelled functions.
- `write_example_files` is not part of this model. It only reads the corpus and the encodings and calls the modelled writers in order.
- `num_train` and `num_test` are natural numbers; negative counts, which Python's `range` would treat as empty, are not modelled.
- CreateFiles.WriteExample: a `KeyError` is a missing record. The first two lines, which the source writes before looking up the codes, are not kept.
- On any failure the writers return the failure alone and keep none of the partial output. The source leaves that output on disk:
  - the records written before a failing pair, such as the test records before a `KeyError` at `c` (create_files.py:95-98);
  - a complete test file when the training loop then fails;
  - condition A's files when condition B fails (create_files.py:119-151).
- `lang is 'cas98'` and `len(trials) is 72` are modelled as equality. This is what CPython gives for interned strings and small integers.
- Python 2 `map(run_one, ...)` scores every `######` segment before the unpacking into `A, B` checks there are two. So a failing segment is reported before a wrong segment count, as the model does.
- Where the documented behaviour and the code disagree, the model follows the code.
  - An odd number of runs does not drop the last run: `errors[i+1]` raises `IndexError` (`OddRunCount`).
  - A trial whose two errors are equal, or sum to zero, raises `ZeroDivisionError` in `choose` (`DegenerateTrial`).
- A condition with no trials never reaches the division in `run_one`. `split('\r')` always gives the key at least one field, so `test_word_choices` fails first: `int` rejects a field (`MalformedKey`), or the length assertion fails (`KeyLengthMismatch`).
