# vlm-ui-eval and ui-design-demo selection logic, in Dafny

This project models the parts of two programs that compute something. The first
is the `vlm-ui-eval` benchmark harness, which scores screenshots of a UI with
four vision-language models. The second is a pair of components from the
`ui-design-demo` React application.

From the harness it models:

- the result records and their pass rule (`Types`);
- the evaluator contract: load, which may fail; evaluate, which never fails;
  unload (`Evaluators.Evaluator`);
- the score extraction of each evaluator family:
  - SmolVLM and MobileVLM read `Label: n` patterns from generated text. This
    lives in `Pattern` (the regular expressions), `Extraction` (the shared
    dictionary and fallback logic), `SmolVlm` and `MobileVlm`.
  - Qwen2-VL post-processes the match list of its line pattern (`QwenVl`).
  - UIClip turns four softmax probabilities into two criteria (`UiClip`).
- the orchestrator (`Runner`): it runs the evaluators one at a time over every
  screenshot and aggregates each run into `BenchmarkMetrics`. It also
  selects evaluators by name or tag.
- the computations behind the console report (`Report`): the ranking by
  average score, the per-image cells and the light/dark comparison.

From the demo it models:

- the row selection of the user table (`DataTable`): toggle one row, toggle
  all rows, and the header checkbox's checked and indeterminate flags;
- the id and ARIA wiring of the text input (`Input`). This covers the id
  derived from the label, `aria-invalid` and `aria-describedby` (WAI-ARIA 1.2),
  and when the error and hint paragraphs render.

The model follows the source's own structure:

- Scores are `real`: the harness only adds, subtracts, divides and compares
  them.
- Python dictionaries that keep insertion order are association lists
  (`Extraction.Found`). Dictionaries whose order nobody reads are `map`s.
- The parsing loops and the orchestration loops are methods with loop
  invariants. Each method is proved equal to a specification function, and
  the properties are proved about those functions.
- The table's selection state is a class whose methods update it.
- The model weights, the accelerator, the clock and the file system are
  outside the model. The outcome of loading and of each inference is given as
  data (`Evaluators.Inference`), and so are the screenshot names.

## Model

| member | source | states |
|---|---|---|
| `Types.NewResult` | vlm-ui-eval/src/types.py:22-31 | a result built from its three required fields has no criteria, empty raw output, zero time and memory and no error |
| `Types.NewMetrics` | vlm-ui-eval/src/types.py:50-59 | metrics built from their five required fields have no per-image scores, no capabilities and no errors |
| `Types.ErrorResult` | vlm-ui-eval/src/evaluators/smolvlm.py:146-152 | the result of every evaluator's exception handler names the evaluator and the image, has overall 0.0, no criteria and the exception's message as its error, and keeps the defaults: empty raw output, zero inference time and zero memory |
| `Types.PassedWithoutCriteria` | vlm-ui-eval/src/types.py:33-35 | without criteria a result passes exactly when its overall score is at least 7.0 |
| `Types.ErrorResultNeverPasses` | vlm-ui-eval/src/types.py:27-35 | the default-built error result never passes |
| `Types.ThresholdGap` | vlm-ui-eval/src/types.py:33-35 | an overall score in [6.0, 7.0) fails the result even when every criterion passed and a criterion with that score would pass |
| `Types.PassedCriterion` | vlm-ui-eval/src/types.py:33-35 | a passing result has overall at least 7.0 and every one of its criteria passed |
| `Types.EvaluatorTypeValuesDistinct` | vlm-ui-eval/src/types.py:7-11 | two evaluator types have the same tag string exactly when they are the same type |
| `Evaluators.Evaluator.constructor` | vlm-ui-eval/src/evaluators/base.py:11-15 | a fresh evaluator has no model loaded and no calls made |
| `Evaluators.Evaluator.LoadModel` | vlm-ui-eval/src/evaluators/base.py:22-24 | loading reports the load failure, if any, and leaves the model loaded exactly when there was none; the call is recorded |
| `Evaluators.Evaluator.EvaluateImage` | vlm-ui-eval/src/evaluators/base.py:26-28 | evaluating a screenshot on a loaded model returns that evaluator's result for it and never fails; the call is recorded |
| `Evaluators.Evaluator.UnloadModel` | vlm-ui-eval/src/evaluators/base.py:48-56 | unloading is allowed in any state and leaves no model loaded; the call is recorded |
| `Pattern.SearchFrom` | vlm-ui-eval/src/evaluators/smolvlm.py:63 | the search returns a match at the first position where the pattern matches, and no earlier position matches |
| `Pattern.MatchAtExact` | vlm-ui-eval/src/evaluators/smolvlm.py:63 | for a pattern that needs no backtracking, the greedy scan matches at a position exactly when the regular expression does there; its digits start where every match's digits start, and it takes the longest digit run |
| `Pattern.SearchLeftmost` | vlm-ui-eval/src/evaluators/smolvlm.py:63 | `re.search` finds the leftmost position where the regular expression matches; when it finds nothing, no position matches |
| `Extraction.Scale` | vlm-ui-eval/src/evaluators/smolvlm.py:66-68 | a captured number up to 10 is the score itself; a larger one is ten times the score, with no clamp |
| `Extraction.Criterion` | vlm-ui-eval/src/evaluators/smolvlm.py:78-83 | a criterion keeps its name, score and explanation and passes exactly when the score is at least 6.0 |
| `Extraction.Remove` | vlm-ui-eval/src/evaluators/smolvlm.py:74 | popping a name leaves exactly the entries with other names |
| `Extraction.ToCriteria` | vlm-ui-eval/src/evaluators/smolvlm.py:76-84 | one criterion per dictionary entry, in dictionary order, with an empty explanation |
| `Extraction.BuildCriteria` | vlm-ui-eval/src/evaluators/smolvlm.py:74-89 | the loop that pops "overall", builds the criteria and falls back to their mean returns what `Finish` specifies |
| `Extraction.CollectFirstWins` | vlm-ui-eval/src/evaluators/smolvlm.py:61-72 | the dictionary holds each name once; a name is present exactly when some pattern of that name matches, with the score of the first such pattern in list order |
| `Extraction.CollectOrder` | vlm-ui-eval/src/evaluators/smolvlm.py:61-72 | the dictionary entries appear in the list order of the first pattern that filled them |
| `Extraction.CollectKeysFromPatterns` | vlm-ui-eval/src/evaluators/smolvlm.py:61-72 | every dictionary key is the name of some pattern |
| `Extraction.OverwriteIsFirstWins` | vlm-ui-eval/src/evaluators/mobilevlm.py:54-64 | when no two patterns share a name, overwriting and first-wins fill the same dictionary |
| `Extraction.MeanBounds` | vlm-ui-eval/src/evaluators/smolvlm.py:86-87 | the mean of the criteria lies between their smallest and largest score |
| `Extraction.FinishMeaning` | vlm-ui-eval/src/evaluators/smolvlm.py:74-89 | "overall" is never a criterion; every other entry becomes one, passed at 6.0 with an empty explanation; overall is the "overall" entry unless it is missing or 0, and then the criteria's mean, or 0.0 without criteria |
| `Extraction.NothingFound` | vlm-ui-eval/src/evaluators/smolvlm.py:61-89 | when no pattern matches, the parser returns no criteria and 0.0 |
| `Extraction.CriterionPresent` | vlm-ui-eval/src/evaluators/smolvlm.py:61-84 | a criterion other than "overall" is present exactly when a pattern of its name matches, and it carries the first such pattern's score |
| `Extraction.OverallScore` | vlm-ui-eval/src/evaluators/smolvlm.py:74-89 | overall is the first "overall" score if that is non-zero, otherwise the criteria's mean, otherwise 0.0 |
| `Extraction.CriteriaInRankOrder` | vlm-ui-eval/src/evaluators/smolvlm.py:51-84 | when the patterns are grouped by criterion, the criteria come out in group order, each name once |
| `Extraction.RankedCriteria` | vlm-ui-eval/src/evaluators/smolvlm.py:51-84 | with patterns for color, layout, typography and overall in that grouped order, the criteria are among color, layout and typography, in that order |
| `SmolVlm.ParseScores` | vlm-ui-eval/src/evaluators/smolvlm.py:47-89 | the pattern loop with `if name not in found_scores`, followed by the second half, returns what `Extract` specifies |
| `SmolVlm.ResultOf` | vlm-ui-eval/src/evaluators/smolvlm.py:133-152 | the result names the evaluator and the image; a completed inference gives the parsed criteria and overall with its raw text, its measured time and memory and no error; a raised exception gives the error result |
| `SmolVlm.PatternsUnambiguous` | vlm-ui-eval/src/evaluators/smolvlm.py:51-59 | none of the seven patterns needs backtracking, so the greedy matcher is exact for each |
| `SmolVlm.PatternNames` | vlm-ui-eval/src/evaluators/smolvlm.py:51-59 | the seven patterns fill color, layout twice, typography twice and overall twice |
| `SmolVlm.PatternsGrouped` | vlm-ui-eval/src/evaluators/smolvlm.py:51-59 | the patterns are grouped by criterion in the order color, layout, typography, overall |
| `SmolVlm.CriteriaNamesAndOrder` | vlm-ui-eval/src/evaluators/smolvlm.py:51-84 | the criteria are among color, layout and typography, in that order, each once; "overall" is never one |
| `SmolVlm.ColorScore` | vlm-ui-eval/src/evaluators/smolvlm.py:51-70 | the color score is the Color pattern's |
| `SmolVlm.LayoutScore` | vlm-ui-eval/src/evaluators/smolvlm.py:51-70 | Layout beats White space wherever they sit in the text |
| `SmolVlm.TypographyScore` | vlm-ui-eval/src/evaluators/smolvlm.py:51-70 | Typography beats Font wherever they sit in the text |
| `SmolVlm.OverallCandidate` | vlm-ui-eval/src/evaluators/smolvlm.py:51-70 | Overall beats Quality wherever they sit in the text |
| `SmolVlm.ColorCriterion` | vlm-ui-eval/src/evaluators/smolvlm.py:61-84 | the color criterion is present exactly when Color matches, with its score, an empty explanation and passed at 6.0 |
| `SmolVlm.LayoutCriterion` | vlm-ui-eval/src/evaluators/smolvlm.py:61-84 | the layout criterion is present exactly when Layout or White space matches, with the first one's score, an empty explanation and passed at 6.0 |
| `SmolVlm.TypographyCriterion` | vlm-ui-eval/src/evaluators/smolvlm.py:61-84 | the typography criterion is present exactly when Typography or Font matches, with the first one's score, an empty explanation and passed at 6.0 |
| `SmolVlm.OverallFromOverallOrQuality` | vlm-ui-eval/src/evaluators/smolvlm.py:74-87 | overall is the first of Overall and Quality that matches unless it is 0, otherwise the criteria's mean, otherwise 0.0 |
| `SmolVlm.NoLabelNoScores` | vlm-ui-eval/src/evaluators/smolvlm.py:61-89 | text with no recognised label gives no criteria and 0.0 |
| `SmolVlm.HyphenSeparates` | vlm-ui-eval/src/evaluators/smolvlm.py:52 | a hyphen separates label and score: "Color - 8" scores color 8 |
| `SmolVlm.ErrorBranch` | vlm-ui-eval/src/evaluators/smolvlm.py:146-152 | an exception yields overall 0.0, no criteria, the message as error, and a result that does not pass |
| `MobileVlm.ParseScores` | vlm-ui-eval/src/evaluators/mobilevlm.py:45-81 | the pattern loop that overwrites `found_scores[name]`, followed by the second half, returns what `Extract` specifies |
| `MobileVlm.ResultOf` | vlm-ui-eval/src/evaluators/mobilevlm.py:119-138 | the result names the evaluator and the image; a completed inference gives the parsed criteria and overall with its raw text, its measured time and memory and no error; a raised exception gives the error result |
| `MobileVlm.PatternNames` | vlm-ui-eval/src/evaluators/mobilevlm.py:47-52 | the four patterns fill color, layout, typography and overall, in that order |
| `MobileVlm.PatternsGrouped` | vlm-ui-eval/src/evaluators/mobilevlm.py:47-52 | the patterns are grouped by criterion in the order color, layout, typography, overall |
| `MobileVlm.NamesDistinct` | vlm-ui-eval/src/evaluators/mobilevlm.py:47-52 | no two patterns share a name, so a score is never overwritten |
| `MobileVlm.PatternsUnambiguous` | vlm-ui-eval/src/evaluators/mobilevlm.py:47-52 | none of the four patterns needs backtracking |
| `MobileVlm.CriterionFromItsPattern` | vlm-ui-eval/src/evaluators/mobilevlm.py:54-76 | color, layout and typography are each present exactly when their own pattern matches, with its scaled score, an empty explanation and passed at 6.0 |
| `MobileVlm.CriteriaNamesAndOrder` | vlm-ui-eval/src/evaluators/mobilevlm.py:47-76 | the criteria are among color, layout and typography, in that order, each once; "overall" is never one |
| `MobileVlm.OverallFromOverall` | vlm-ui-eval/src/evaluators/mobilevlm.py:66-79 | overall is the Overall score unless it is missing or 0, otherwise the criteria's mean, otherwise 0.0 |
| `MobileVlm.HyphenDoesNotSeparate` | vlm-ui-eval/src/evaluators/mobilevlm.py:48 | a hyphen is not a separator: "Color - 8" gives no color score |
| `MobileVlm.UpperCaseLabelIgnored` | vlm-ui-eval/src/evaluators/mobilevlm.py:11-51 | only the first letter may be upper case: "COLOR: 8", the format the prompt asks for, gives no color score |
| `MobileVlm.ErrorBranch` | vlm-ui-eval/src/evaluators/mobilevlm.py:132-138 | an exception yields overall 0.0, no criteria, the message as error, and a result that does not pass |
| `QwenVl.DecimalValueOfNatText` | vlm-ui-eval/src/evaluators/qwen_vl.py:70-78 | a whole number written in decimal is read back by `float()` as that number |
| `QwenVl.DecimalFraction` | vlm-ui-eval/src/evaluators/qwen_vl.py:70-78 | a decimal score is read as written: "7.5" is 7.5 |
| `QwenVl.WholeScores` | vlm-ui-eval/src/evaluators/qwen_vl.py:70-78 | "85" is read as 85.0 and "7" as 7.0 |
| `QwenVl.ParseScores` | vlm-ui-eval/src/evaluators/qwen_vl.py:68-96 | the loop over the match list, then the OVERALL value and its fallback, returns what `Parse` specifies |
| `QwenVl.ResultOf` | vlm-ui-eval/src/evaluators/qwen_vl.py:140-159 | the result names the evaluator and the image; a completed inference gives the parsed criteria and overall with its raw text, its measured time and memory and no error; a raised exception gives the error result |
| `QwenVl.KeptMeaning` | vlm-ui-eval/src/evaluators/qwen_vl.py:73-76 | a match is kept exactly when its label is not "overall" in any case |
| `QwenVl.CriteriaOfKept` | vlm-ui-eval/src/evaluators/qwen_vl.py:73-88 | one criterion per kept match, in order, duplicates included: the lower-cased label, the score as written with no rescaling, the stripped explanation, passed at 6.0 |
| `QwenVl.CriterionNames` | vlm-ui-eval/src/evaluators/qwen_vl.py:74-81 | every criterion name is lower case and none is "overall" |
| `QwenVl.OverallMeaning` | vlm-ui-eval/src/evaluators/qwen_vl.py:90-96 | overall is the OVERALL capture when it is present and non-zero, otherwise the criteria's mean, otherwise 0.0 |
| `QwenVl.NothingMatched` | vlm-ui-eval/src/evaluators/qwen_vl.py:68-96 | with no match and no OVERALL line the parser returns no criteria and 0.0 |
| `QwenVl.StripExample` | vlm-ui-eval/src/evaluators/qwen_vl.py:84 | the explanation " bold " is stored as "bold" |
| `QwenVl.DuplicatesAndNoRescaling` | vlm-ui-eval/src/evaluators/qwen_vl.py:73-88 | two lines with the same label in different cases both stay, and "85/10" is stored as 85.0 |
| `QwenVl.OverallLineSkipped` | vlm-ui-eval/src/evaluators/qwen_vl.py:74-76 | an OVERALL line never becomes a criterion, whatever its case |
| `QwenVl.ErrorBranch` | vlm-ui-eval/src/evaluators/qwen_vl.py:153-159 | an exception yields overall 0.0, no criteria, the message as error, and a result that does not pass |
| `Text.Strip` | vlm-ui-eval/src/evaluators/qwen_vl.py:84 | `str.strip()` returns a slice of its input that neither starts nor ends with whitespace, and only whitespace was dropped |
| `Text.StripIdempotent` | vlm-ui-eval/src/evaluators/qwen_vl.py:84 | stripping twice is stripping once |
| `UiClip.ResultOf` | vlm-ui-eval/src/evaluators/uiclip.py:56-97 | the result names the evaluator and the image; a completed inference gives the two criteria, their mean as overall, the formatted probabilities, its measured time and memory and no error; a raised exception gives the error result |
| `UiClip.NormalizeBounds` | vlm-ui-eval/src/evaluators/uiclip.py:58-62 | two probabilities give a score in [0, 10] |
| `UiClip.NormalizeLandmarks` | vlm-ui-eval/src/evaluators/uiclip.py:58-62 | an equal pair gives exactly 5; certainty for gives 10, certainty against gives 0 |
| `UiClip.NormalizeMonotone` | vlm-ui-eval/src/evaluators/uiclip.py:58-59 | the score strictly increases with the positive probability and strictly decreases with the negative one |
| `UiClip.NormalizeInvertible` | vlm-ui-eval/src/evaluators/uiclip.py:58-59 | the probability difference can be read back from the score |
| `UiClip.TwoCriteria` | vlm-ui-eval/src/evaluators/uiclip.py:64-79 | exactly two criteria, design_quality then description_match, with the two normalised scores, each passed at 6.0; overall is their mean |
| `UiClip.SoftmaxOverallBounds` | vlm-ui-eval/src/evaluators/uiclip.py:53-64 | with four non-negative probabilities summing to 1, overall lies in [2.5, 7.5] |
| `UiClip.SoftmaxBoundsReached` | vlm-ui-eval/src/evaluators/uiclip.py:53-64 | both bounds are reached |
| `UiClip.ErrorBranch` | vlm-ui-eval/src/evaluators/uiclip.py:91-97 | an exception yields overall 0.0, no criteria, the message as error, and a result that does not pass |
| `Runner.RunSingleEvaluator` | vlm-ui-eval/src/runner.py:35-108 | the loop returns the metrics and results `SingleRun` specifies. The evaluator is left unloaded. Its calls are a load, then, if that succeeded, one evaluate per screenshot in order and one unload |
| `Runner.RunBenchmark` | vlm-ui-eval/src/runner.py:276-313 | without screenshots nothing runs and nothing is returned. Otherwise the selected evaluators run in registry order, one at a time, and the others are never called. The metrics list and results map are the ones `MetricsOf` and `ResultsOf` specify |
| `Runner.RunsExtend` | vlm-ui-eval/src/runner.py:306-313 | one more evaluator appends its metrics and sets its results under its model name |
| `Runner.PeakVramIsMax` | vlm-ui-eval/src/runner.py:64-77 | the peak is at least 0.0 and at least every result's memory use, and it is 0.0 or some result's memory use |
| `Runner.ErrorsPartition` | vlm-ui-eval/src/runner.py:82-83 | every result is either valid or contributes exactly one error message |
| `Runner.ValidMembers` | vlm-ui-eval/src/runner.py:82 | the valid results are exactly the results without an error |
| `Runner.ErrorMembers` | vlm-ui-eval/src/runner.py:83 | the error messages are exactly the errors of the errored results |
| `Runner.ErroredResultIgnored` | vlm-ui-eval/src/runner.py:82-92 | an errored result, wherever it sits, changes neither average nor the valid results |
| `Runner.AvgScoreBounds` | vlm-ui-eval/src/runner.py:85-87 | the average is 0.0 without valid results; otherwise it lies between the lowest and the highest valid score |
| `Runner.AvgTimeBounds` | vlm-ui-eval/src/runner.py:85-88 | the average inference time is 0.0 without valid results; otherwise it lies between the lowest and the highest valid time |
| `Runner.ScoresByImageKeys` | vlm-ui-eval/src/runner.py:94 | an image has a score exactly when some result for it has no error |
| `Runner.ScoresByImageLast` | vlm-ui-eval/src/runner.py:94 | the score of an image is that of its last result without an error |
| `Runner.LoadFailure` | vlm-ui-eval/src/runner.py:46-61 | a failed load gives no results, zeroed averages and peak, the load message as the only error, no per-image scores, the screenshot count, and no call after the load |
| `Runner.LoadSuccess` | vlm-ui-eval/src/runner.py:63-80 | a successful load gives one result per screenshot, in order. The calls are load, evaluate each, unload. Each result is either valid or one error |
| `Runner.SelectionMeaning` | vlm-ui-eval/src/runner.py:293-301 | the selection keeps exactly the wanted evaluators, in registry order, without repeats |
| `Runner.SelectAllByDefault` | vlm-ui-eval/src/runner.py:293-294 | without a model list, or with an empty one, every evaluator runs |
| `Runner.SelectByTag` | vlm-ui-eval/src/runner.py:295-301 | the type tag "qwen-vl" selects the Qwen evaluator |
| `Runner.SingleEntryWanted` | vlm-ui-eval/src/runner.py:295-301 | with a single model entry, an evaluator runs exactly when the lower-cased entry equals its lower-cased name or its type tag |
| `Runner.OtherTagSkips` | vlm-ui-eval/src/runner.py:295-301 | another evaluator's tag does not select SmolVLM |
| `Runner.SelectByNameAnyCase` | vlm-ui-eval/src/runner.py:295-301 | a display name matches in any ASCII case |
| `Runner.ClassesDistinct` | vlm-ui-eval/src/runner.py:23-28 | the four evaluator classes carry four distinct tags |
| `Report.RankingIsStableSort` | vlm-ui-eval/src/runner.py:124 | the ranking lists every model once. Average scores never rise along it, and models with equal scores keep their run order |
| `Report.RankingExample` | vlm-ui-eval/src/runner.py:124 | scores 5, 8, 5 rank as the second, the first, the third |
| `Report.ScoreCellMeaning` | vlm-ui-eval/src/runner.py:142-143 | a cell shows 0.0 when no valid result names the image, and otherwise the last valid score for it |
| `Report.ResultsByNameKeys` | vlm-ui-eval/src/runner.py:194 | an image has an entry exactly when some result is for that image |
| `Report.ResultsByNameLast` | vlm-ui-eval/src/runner.py:194 | the entry for an image is its last result: later results overwrite |
| `Report.CriteriaMapKeys` | vlm-ui-eval/src/runner.py:220-221 | a criterion name has an entry exactly when some criterion carries it |
| `Report.PairSkipped` | vlm-ui-eval/src/runner.py:196-201 | a pair is skipped exactly when either image has no result or the last result of either carries a non-empty error |
| `Report.CompareRows` | vlm-ui-eval/src/runner.py:213-227 | the "Overall" row comes first, with dark minus light. Then there is one row per criterion name of either result, ascending and without repeats, with dark minus light and a missing criterion counted as 0 |
| `Report.SwapNegates` | vlm-ui-eval/src/runner.py:213-227 | exchanging light and dark gives the same rows with the columns swapped and every difference negated |
| `Report.DarkScoresLower` | vlm-ui-eval/src/runner.py:189-218 | a light 8.0 and a dark 6.0 without criteria give one table with the single row Overall, 8.0, 6.0, -2.0 |
| `Report.ErroredPairSkipped` | vlm-ui-eval/src/runner.py:196-201 | an errored dark screenshot drops the comparison, but an error that is the empty string does not |
| `Text.SortedDistinct` | vlm-ui-eval/src/runner.py:222-224 | `sorted(set(names))` is strictly ascending and holds exactly the names given |
| `DataTable.Table.constructor` | ui-design-demo/src/pages/examples/DataTable.tsx:115-116 | given distinct row ids, the table starts with its rows, nothing selected, the header neither checked nor indeterminate, and its invariant holding: distinct row ids, only row ids selected |
| `DataTable.Table.ToggleSelectAll` | ui-design-demo/src/pages/examples/DataTable.tsx:121-127 | select-all clears the selection when its size equals the row count, and otherwise selects exactly the row ids; it keeps the invariant, clears a checked header and checks an unchecked one |
| `DataTable.Table.ToggleSelectItem` | ui-design-demo/src/pages/examples/DataTable.tsx:129-137 | toggling a row's own id removes it when selected and adds it otherwise, and keeps the invariant |
| `DataTable.ToggleFlipsOnlyItsId` | ui-design-demo/src/pages/examples/DataTable.tsx:129-137 | toggling flips the membership of that id and of no other |
| `DataTable.ToggleTwice` | ui-design-demo/src/pages/examples/DataTable.tsx:129-137 | toggling the same id twice restores the selection |
| `DataTable.SelectionStaysWithinRows` | ui-design-demo/src/pages/examples/DataTable.tsx:121-137 | a selection of row ids stays within the row ids under select-all and under toggling a row's own id |
| `DataTable.Table.IsAllSelected` | ui-design-demo/src/pages/examples/DataTable.tsx:139 | on a table that keeps its invariant, the header is checked exactly when there are rows and every row id is selected |
| `DataTable.Table.IsIndeterminate` | ui-design-demo/src/pages/examples/DataTable.tsx:140 | on a table that keeps its invariant, the header is indeterminate exactly when some but not all row ids are selected; it is never both checked and indeterminate |
| `DataTable.FlagsExclusive` | ui-design-demo/src/pages/examples/DataTable.tsx:139-140 | the header is never both checked and indeterminate |
| `DataTable.FlagsMeaning` | ui-design-demo/src/pages/examples/DataTable.tsx:139-140 | with distinct row ids and only row ids selected, the header is checked exactly when every row is selected, and indeterminate exactly when some but not all are |
| `DataTable.ToggleAllFlags` | ui-design-demo/src/pages/examples/DataTable.tsx:121-140 | select-all clears a fully selected table and otherwise leaves the header checked |
| `DataTable.BulkActionsWhenSelected` | ui-design-demo/src/pages/examples/DataTable.tsx:214-223 | the "N selected" bar shows exactly when something is selected |
| `DataTable.MockIdsDistinct` | ui-design-demo/src/pages/examples/DataTable.tsx:101-112 | the ten mock users have distinct ids |
| `Input.IdPropWins` | ui-design-demo/src/components/ui/Input.tsx:15 | a non-empty `id` prop is the input's id |
| `Input.IdFromLabel` | ui-design-demo/src/components/ui/Input.tsx:15 | without an `id` prop the id is derived from the label, and there is no id exactly when there is no label |
| `Input.DerivedIdShape` | ui-design-demo/src/components/ui/Input.tsx:15 | the derived id has the label's length and no whitespace. It is the label lower-cased with exactly its whitespace turned into hyphens |
| `Input.DeriveIdIdempotent` | ui-design-demo/src/components/ui/Input.tsx:15 | deriving an id from a derived id changes nothing |
| `Input.DeriveIdExample` | ui-design-demo/src/components/ui/Input.tsx:15 | "First Name" gives "first-name" |
| `Input.InvalidIffError` | ui-design-demo/src/components/ui/Input.tsx:16 | `aria-invalid` holds exactly for a non-empty error |
| `Input.DescribedByNamesRenderedParagraph` | ui-design-demo/src/components/ui/Input.tsx:38-71 | `aria-describedby` is set exactly when a paragraph renders. It names the error paragraph when there is an error, and otherwise the hint paragraph |
| `Input.AtMostOneParagraph` | ui-design-demo/src/components/ui/Input.tsx:62-71 | the error and hint paragraphs never both render |
| `Input.NoIdNoLabel` | ui-design-demo/src/components/ui/Input.tsx:38-40 | an error on an input without id or label points at "undefined-error" |

## Left out

- Model inference is not modelled: loading weights, chat templates, generation, the CLIP forward pass and the softmax are foreign library calls. Their outcome is an input: the generated text, the four probabilities, or the exception's message.
- The measurements in `base.py` are inputs: the inference time from `time.perf_counter` and the memory from `torch.cuda`.
- Image loading with PIL is not modelled. A failure there arrives as a raised exception, like any other.
- Console output is not modelled: the rich `Table`, `Panel` and `Progress` rendering, the colour thresholds, and the `:.0f`, `:.1f`, `:.2f` and `:+.1f` formatting. Only the values behind the cells are modelled.
- The per-criteria breakdown table (runner.py lines 149-183) is not modelled. It only prints criterion scores that the model already carries.
- The Title-casing of aspect names in the light/dark table is not modelled. The rows keep the raw criterion name.
- `save_results` and its timestamped JSON file, the `get_screenshots` glob and sort, `html_report.py` and the `run_eval.py` command line are file and process plumbing. The screenshots are given as a sequence of file names.
- The `description` argument of `evaluate` is not modelled. Only UIClip uses it, inside the model's prompts.
- Each evaluator class is instantiated afresh for every run. The model passes one fresh `Evaluators.Evaluator` per class instead.
- The extra instantiation inside the selection filter is not modelled either. It has no observable effect.
- The light/dark comparison runs over `all_results.items()`. The model computes the tables of one model's results; the order in which models are visited is left to the caller.
- Qwen2-VL's regular expressions are not modelled. The `re.findall` match list and the first group of the `OVERALL` search are inputs, and both are assumed to have the shape the expressions guarantee (`QwenVl.WellFormed`). So `float()` never raises there, and the `ValueError` branches, which no input can reach, are not modelled.
- The `except ValueError` branches of the SmolVLM and MobileVLM parsers are not modelled either: `\d+` always captures digits.
- Character classes are ASCII-only:
  - `\d` is ASCII digits only, so Unicode decimal digits are not modelled.
  - Case folding (`str.lower`, `toLowerCase`, `re.IGNORECASE`) is ASCII-only.
  - `\s` is the exact whitespace set of each engine.
- Floating-point rounding is not modelled: scores are exact reals.
- `Evaluators.Evaluator.EvaluateImage`: the source does not guard against evaluating an unloaded model. The contract requires a loaded model, and the orchestrator always has one at that point.
- `DataTable.Table.ToggleSelectItem`: requires the id of one of the table's rows, because the only caller is a row's own checkbox (DataTable.tsx line 291). The handler itself accepts any id; `DataTable.Toggle` states that general case.
- `DataTable.Table.constructor`: requires distinct row ids. The mock users have them (`DataTable.MockIdsDistinct`).
