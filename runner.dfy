/**
 * The benchmark orchestrator: each selected evaluator is loaded, run over
 * every screenshot in order and unloaded, one at a time, and its results are
 * aggregated into `BenchmarkMetrics`. Console output, the progress bar and
 * the JSON file are outside the model.
 */
module Runner {
  import opened Wrappers
  import opened Text
  import opened Types
  import opened Evaluators
  import Extraction
  import UiClip
  import SmolVlm
  import MobileVlm
  import QwenVl

  /** `EVALUATOR_CLASSES`, by their capabilities, in run order. */
  const EvaluatorClasses: seq<ModelCapabilities> :=
    [UiClip.Capabilities, SmolVlm.Capabilities, MobileVlm.Capabilities, QwenVl.Capabilities]

  // ---------------------------------------------------------------------
  // Aggregation of one evaluator's results.
  // ---------------------------------------------------------------------

  /** `[r for r in results if r.error is None]` */
  function Valid(rs: seq<EvaluationResult>): seq<EvaluationResult> {
    if rs == [] then []
    else (if rs[0].error.None? then [rs[0]] else []) + Valid(rs[1..])
  }

  /** `[r.error for r in results if r.error is not None]` */
  function ErrorMessages(rs: seq<EvaluationResult>): seq<string> {
    if rs == [] then []
    else (if rs[0].error.Some? then [rs[0].error.value] else []) + ErrorMessages(rs[1..])
  }

  function ScoreSum(rs: seq<EvaluationResult>): real {
    if rs == [] then 0.0 else rs[0].overallScore + ScoreSum(rs[1..])
  }

  function TimeSum(rs: seq<EvaluationResult>): real {
    if rs == [] then 0.0 else rs[0].inferenceTimeMs + TimeSum(rs[1..])
  }

  /** The mean overall score of the results without an error, or 0.0 when there are none. */
  function AvgScore(rs: seq<EvaluationResult>): real {
    var v := Valid(rs);
    if v == [] then 0.0 else ScoreSum(v) / |v| as real
  }

  /** The mean inference time of the results without an error, or 0.0 when there are none. */
  function AvgTime(rs: seq<EvaluationResult>): real {
    var v := Valid(rs);
    if v == [] then 0.0 else TimeSum(v) / |v| as real
  }

  function Max(a: real, b: real): real {
    if a >= b then a else b
  }

  /** `peak_vram`: 0.0, raised by `max` with each result's memory use in turn. */
  function PeakVram(rs: seq<EvaluationResult>): real
    decreases |rs|
  {
    if rs == [] then 0.0 else Max(PeakVram(rs[..|rs| - 1]), rs[|rs| - 1].vramUsedMb)
  }

  /** `{r.image_path.name: r.overall_score for r in valid_results}`: a later result for a name overwrites. */
  function ScoresByImage(rs: seq<EvaluationResult>): map<string, real>
    decreases |rs|
  {
    if rs == [] then map[]
    else
      var m := ScoresByImage(rs[..|rs| - 1]);
      var r := rs[|rs| - 1];
      if r.error.None? then m[r.image := r.overallScore] else m
  }

  /** The metrics of a run whose model loaded. */
  function Aggregate(caps: ModelCapabilities, total: nat, rs: seq<EvaluationResult>): BenchmarkMetrics {
    BenchmarkMetrics(caps.name, total, AvgScore(rs), AvgTime(rs), PeakVram(rs), ScoresByImage(rs), Some(caps), ErrorMessages(rs))
  }

  /** The metrics of a run whose model failed to load with `message`. */
  function LoadFailedMetrics(caps: ModelCapabilities, total: nat, message: string): BenchmarkMetrics {
    BenchmarkMetrics(caps.name, total, 0.0, 0.0, 0.0, map[], Some(caps), [message])
  }

  /** One `evaluate` per screenshot, in order. */
  function Evaluations(evaluate: string -> EvaluationResult, screenshots: seq<string>): seq<EvaluationResult> {
    seq(|screenshots|, k requires 0 <= k < |screenshots| => evaluate(screenshots[k]))
  }

  function EvaluateCalls(screenshots: seq<string>): seq<Call> {
    seq(|screenshots|, k requires 0 <= k < |screenshots| => Evaluate(screenshots[k]))
  }

  /** What `run_single_evaluator` returns for an evaluator with these capabilities, load outcome and results. */
  function SingleRun(caps: ModelCapabilities, loadFailure: Option<string>, evaluate: string -> EvaluationResult,
                     screenshots: seq<string>): (BenchmarkMetrics, seq<EvaluationResult>)
  {
    match loadFailure
    case Some(message) => (LoadFailedMetrics(caps, |screenshots|, message), [])
    case None =>
      var rs := Evaluations(evaluate, screenshots);
      (Aggregate(caps, |screenshots|, rs), rs)
  }

  /** The calls `run_single_evaluator` makes: a load, then (if it succeeded) one evaluate per screenshot and an unload. */
  function SingleTrace(loadFailure: Option<string>, screenshots: seq<string>): seq<Call> {
    [Load] + (if loadFailure.None? then EvaluateCalls(screenshots) + [Unload] else [])
  }

  /** `run_single_evaluator` on a freshly constructed evaluator. */
  method RunSingleEvaluator(ev: Evaluator, screenshots: seq<string>)
    returns (metrics: BenchmarkMetrics, results: seq<EvaluationResult>)
    requires !ev.loaded
    modifies ev
    ensures (metrics, results) == SingleRun(ev.caps, ev.loadFailure, ev.evaluate, screenshots)
    ensures !ev.loaded && ev.trace == old(ev.trace) + SingleTrace(ev.loadFailure, screenshots)
  {
    var failure := ev.LoadModel();
    if failure.Some? {
      metrics := BenchmarkMetrics(ev.caps.name, |screenshots|, 0.0, 0.0, 0.0, map[], Some(ev.caps), [failure.value]);
      results := [];
      return;
    }
    results := [];
    var peak := 0.0;
    var i := 0;
    while i < |screenshots|
      invariant 0 <= i <= |screenshots|
      invariant ev.loaded
      invariant results == Evaluations(ev.evaluate, screenshots[..i])
      invariant peak == PeakVram(results)
      invariant ev.trace == old(ev.trace) + [Load] + EvaluateCalls(screenshots[..i])
    {
      var r := ev.EvaluateImage(screenshots[i]);
      assert (results + [r])[..|results|] == results;
      results := results + [r];
      peak := Max(peak, r.vramUsedMb);
      assert EvaluateCalls(screenshots[..i + 1]) == EvaluateCalls(screenshots[..i]) + [Evaluate(screenshots[i])];
      i := i + 1;
    }
    ev.UnloadModel();
    assert screenshots[..i] == screenshots;
    var valid := Valid(results);
    var avgScore := if valid != [] then ScoreSum(valid) / |valid| as real else 0.0;
    var avgTime := if valid != [] then TimeSum(valid) / |valid| as real else 0.0;
    metrics := BenchmarkMetrics(ev.caps.name, |screenshots|, avgScore, avgTime, peak, ScoresByImage(results),
                                Some(ev.caps), ErrorMessages(results));
  }

  // ---------------------------------------------------------------------
  // Selection and the benchmark loop.
  // ---------------------------------------------------------------------

  function LowerAll(models: seq<string>): seq<string> {
    seq(|models|, k requires 0 <= k < |models| => Lower(models[k]))
  }

  /** An evaluator runs when no model list is given (or it is empty), or its lower-cased name or its tag is listed. */
  predicate Wanted(caps: ModelCapabilities, models: Option<seq<string>>) {
    models.None? || models.value == [] ||
    Lower(caps.name) in LowerAll(models.value) || caps.evaluatorType.Value() in LowerAll(models.value)
  }

  /** `evaluators_to_run`: the wanted evaluators, in registry order. */
  function Selection(registry: seq<Evaluator>, models: Option<seq<string>>): seq<Evaluator>
    decreases |registry|
  {
    if registry == [] then []
    else
      var last := registry[|registry| - 1];
      Selection(registry[..|registry| - 1], models) + (if Wanted(last.caps, models) then [last] else [])
  }

  /** The metrics list `run_benchmark` returns for these evaluators. */
  function MetricsOf(evs: seq<Evaluator>, screenshots: seq<string>): seq<BenchmarkMetrics>
    decreases |evs|
  {
    if evs == [] then []
    else
      var ev := evs[|evs| - 1];
      MetricsOf(evs[..|evs| - 1], screenshots) + [SingleRun(ev.caps, ev.loadFailure, ev.evaluate, screenshots).0]
  }

  /** `all_results[metrics.model_name] = results`, evaluator by evaluator: a later equal name overwrites. */
  function ResultsOf(evs: seq<Evaluator>, screenshots: seq<string>): map<string, seq<EvaluationResult>>
    decreases |evs|
  {
    if evs == [] then map[]
    else
      var ev := evs[|evs| - 1];
      var (m, rs) := SingleRun(ev.caps, ev.loadFailure, ev.evaluate, screenshots);
      ResultsOf(evs[..|evs| - 1], screenshots)[m.modelName := rs]
  }

  predicate Distinct(evs: seq<Evaluator>) {
    forall i, j :: 0 <= i < j < |evs| ==> evs[i] != evs[j]
  }

  /**
   * `run_benchmark` over one fresh instance per evaluator class: nothing runs
   * without screenshots; otherwise each wanted evaluator runs to completion
   * (so at most one model is loaded at any time) and the others are never touched.
   */
  method RunBenchmark(screenshots: seq<string>, models: Option<seq<string>>, registry: seq<Evaluator>)
    returns (allMetrics: seq<BenchmarkMetrics>, allResults: map<string, seq<EvaluationResult>>)
    requires Distinct(registry)
    requires forall ev :: ev in registry ==> !ev.loaded
    modifies set ev | ev in registry
    ensures screenshots == [] ==> allMetrics == [] && allResults == map[]
    ensures screenshots != [] ==>
      allMetrics == MetricsOf(Selection(registry, models), screenshots) &&
      allResults == ResultsOf(Selection(registry, models), screenshots)
    ensures forall ev :: ev in registry ==> !ev.loaded
    ensures forall ev :: ev in registry && screenshots != [] && ev in Selection(registry, models) ==>
      ev.trace == old(ev.trace) + SingleTrace(ev.loadFailure, screenshots)
    ensures forall ev :: ev in registry && (screenshots == [] || ev !in Selection(registry, models)) ==>
      ev.trace == old(ev.trace)
  {
    if screenshots == [] {
      return [], map[];
    }
    var chosen := Selection(registry, models);
    SelectionMeaning(registry, models);
    allMetrics := [];
    allResults := map[];
    var k := 0;
    while k < |chosen|
      invariant 0 <= k <= |chosen|
      invariant allMetrics == MetricsOf(chosen[..k], screenshots)
      invariant allResults == ResultsOf(chosen[..k], screenshots)
      invariant forall ev :: ev in registry ==> !ev.loaded
      invariant forall ev :: ev in registry && ev in chosen[..k] ==>
        ev.trace == old(ev.trace) + SingleTrace(ev.loadFailure, screenshots)
      invariant forall ev :: ev in registry && ev !in chosen[..k] ==> ev.trace == old(ev.trace)
    {
      var ev := chosen[k];
      assert ev in chosen;
      assert ev !in chosen[..k];
      var metrics, results := RunSingleEvaluator(ev, screenshots);
      RunsExtend(chosen, k, screenshots);
      allMetrics := allMetrics + [metrics];
      allResults := allResults[metrics.modelName := results];
      k := k + 1;
    }
    assert chosen[..k] == chosen;
  }

  /** One more evaluator extends the metrics list by its metrics and the results map by its results. */
  lemma RunsExtend(evs: seq<Evaluator>, k: nat, screenshots: seq<string>)
    requires k < |evs|
    ensures var (m, rs) := SingleRun(evs[k].caps, evs[k].loadFailure, evs[k].evaluate, screenshots);
      MetricsOf(evs[..k + 1], screenshots) == MetricsOf(evs[..k], screenshots) + [m] &&
      ResultsOf(evs[..k + 1], screenshots) == ResultsOf(evs[..k], screenshots)[m.modelName := rs]
    ensures forall e :: e in evs[..k + 1] <==> e in evs[..k] || e == evs[k]
  {
    assert evs[..k + 1][..k] == evs[..k];
    assert evs[..k + 1] == evs[..k] + [evs[k]];
  }

  // ---------------------------------------------------------------------
  // Properties of the aggregation.
  // ---------------------------------------------------------------------

  /** The peak is the maximum of 0.0 and every result's memory use. */
  lemma {:induction false} PeakVramIsMax(rs: seq<EvaluationResult>)
    ensures PeakVram(rs) >= 0.0
    ensures forall r :: r in rs ==> r.vramUsedMb <= PeakVram(rs)
    ensures PeakVram(rs) == 0.0 || exists r :: r in rs && r.vramUsedMb == PeakVram(rs)
    decreases |rs|
  {
    if rs != [] {
      var init := rs[..|rs| - 1];
      PeakVramIsMax(init);
      assert rs == init + [rs[|rs| - 1]];
      if PeakVram(rs) != 0.0 && PeakVram(rs) == PeakVram(init) {
        var r :| r in init && r.vramUsedMb == PeakVram(init);
        assert r in rs;
      }
    }
  }

  lemma {:induction false} ValidAppend(a: seq<EvaluationResult>, b: seq<EvaluationResult>)
    ensures Valid(a + b) == Valid(a) + Valid(b)
  {
    if a == [] {
      assert a + b == b;
    } else {
      var h := if a[0].error.None? then [a[0]] else [];
      ValidAppend(a[1..], b);
      assert (a + b)[0] == a[0];
      assert (a + b)[1..] == a[1..] + b;
      assert Valid(a + b) == h + (Valid(a[1..]) + Valid(b));
      assert h + (Valid(a[1..]) + Valid(b)) == (h + Valid(a[1..])) + Valid(b);
    }
  }

  lemma {:induction false} ErrorMessagesAppend(a: seq<EvaluationResult>, b: seq<EvaluationResult>)
    ensures ErrorMessages(a + b) == ErrorMessages(a) + ErrorMessages(b)
  {
    if a == [] {
      assert a + b == b;
    } else {
      var h := if a[0].error.Some? then [a[0].error.value] else [];
      ErrorMessagesAppend(a[1..], b);
      assert (a + b)[0] == a[0];
      assert (a + b)[1..] == a[1..] + b;
      assert ErrorMessages(a + b) == h + (ErrorMessages(a[1..]) + ErrorMessages(b));
      assert h + (ErrorMessages(a[1..]) + ErrorMessages(b)) == (h + ErrorMessages(a[1..])) + ErrorMessages(b);
    }
  }

  /** Every result is either valid or contributes exactly one error message. */
  lemma {:induction false} ErrorsPartition(rs: seq<EvaluationResult>)
    ensures |Valid(rs)| + |ErrorMessages(rs)| == |rs|
  {
    if rs != [] {
      ErrorsPartition(rs[1..]);
    }
  }

  /** The valid results are exactly the results without an error. */
  lemma {:induction false} ValidMembers(rs: seq<EvaluationResult>)
    ensures forall r :: r in Valid(rs) <==> r in rs && r.error.None?
  {
    if rs != [] {
      ValidMembers(rs[1..]);
      assert rs == [rs[0]] + rs[1..];
    }
  }

  /** The messages are exactly the errors of the errored results. */
  lemma {:induction false} ErrorMembers(rs: seq<EvaluationResult>)
    ensures forall e :: e in ErrorMessages(rs) <==> exists r :: r in rs && r.error == Some(e)
  {
    if rs != [] {
      var rest := rs[1..];
      ErrorMembers(rest);
      assert rs == [rs[0]] + rest;
      forall e | (exists r :: r in rs && r.error == Some(e)) ensures e in ErrorMessages(rs) {
        var r :| r in rs && r.error == Some(e);
        if r != rs[0] {
          assert r in rest;
        }
      }
      forall e | e in ErrorMessages(rest) ensures exists r :: r in rs && r.error == Some(e) {
        var r :| r in rest && r.error == Some(e);
        assert r in rs;
      }
    }
  }

  /** An errored result changes neither average nor the per-image scores, wherever it sits. */
  lemma ErroredResultIgnored(a: seq<EvaluationResult>, e: EvaluationResult, b: seq<EvaluationResult>)
    requires e.error.Some?
    ensures AvgScore(a + [e] + b) == AvgScore(a + b)
    ensures AvgTime(a + [e] + b) == AvgTime(a + b)
    ensures Valid(a + [e] + b) == Valid(a + b)
  {
    ValidAppend(a, [e]);
    ValidAppend(a + [e], b);
    ValidAppend(a, b);
    assert [e][1..] == [];
    assert Valid([e]) == [];
    assert Valid(a + [e] + b) == Valid(a + b);
    var v := Valid(a + b);
    assert AvgScore(a + [e] + b) == (if v == [] then 0.0 else ScoreSum(v) / |v| as real);
    assert AvgTime(a + [e] + b) == (if v == [] then 0.0 else TimeSum(v) / |v| as real);
  }

  /** The valid scores add up to between `|Valid(rs)|` times the lowest and times the highest. */
  lemma {:induction false} ValidScoreSumBounds(rs: seq<EvaluationResult>, lo: real, hi: real)
    requires forall k :: 0 <= k < |rs| && rs[k].error.None? ==> lo <= rs[k].overallScore <= hi
    ensures Extraction.Times(|Valid(rs)|, lo) <= ScoreSum(Valid(rs)) <= Extraction.Times(|Valid(rs)|, hi)
  {
    if rs != [] {
      var v := Valid(rs[1..]);
      ValidScoreSumBounds(rs[1..], lo, hi);
      if rs[0].error.None? {
        assert Valid(rs) == [rs[0]] + v;
        assert ([rs[0]] + v)[1..] == v;
      } else {
        assert Valid(rs) == v;
      }
    }
  }

  /** When every valid score lies in [lo, hi], so does the average (0.0 when nothing is valid). */
  lemma AvgScoreBounds(rs: seq<EvaluationResult>, lo: real, hi: real)
    requires forall r :: r in rs && r.error.None? ==> lo <= r.overallScore <= hi
    ensures Valid(rs) == [] ==> AvgScore(rs) == 0.0
    ensures Valid(rs) != [] ==> lo <= AvgScore(rs) <= hi
  {
    var v := Valid(rs);
    forall k | 0 <= k < |rs| && rs[k].error.None? ensures lo <= rs[k].overallScore <= hi {
      assert rs[k] in rs;
    }
    ValidScoreSumBounds(rs, lo, hi);
    if v != [] {
      Extraction.QuotientBounds(ScoreSum(v), |v|, lo, hi);
    }
  }

  lemma {:induction false} ValidTimeSumBounds(rs: seq<EvaluationResult>, lo: real, hi: real)
    requires forall k :: 0 <= k < |rs| && rs[k].error.None? ==> lo <= rs[k].inferenceTimeMs <= hi
    ensures Extraction.Times(|Valid(rs)|, lo) <= TimeSum(Valid(rs)) <= Extraction.Times(|Valid(rs)|, hi)
  {
    if rs != [] {
      var v := Valid(rs[1..]);
      ValidTimeSumBounds(rs[1..], lo, hi);
      if rs[0].error.None? {
        assert Valid(rs) == [rs[0]] + v;
        assert ([rs[0]] + v)[1..] == v;
      } else {
        assert Valid(rs) == v;
      }
    }
  }

  /** When every valid inference time lies in [lo, hi], so does the average time (0.0 when nothing is valid). */
  lemma AvgTimeBounds(rs: seq<EvaluationResult>, lo: real, hi: real)
    requires forall r :: r in rs && r.error.None? ==> lo <= r.inferenceTimeMs <= hi
    ensures Valid(rs) == [] ==> AvgTime(rs) == 0.0
    ensures Valid(rs) != [] ==> lo <= AvgTime(rs) <= hi
  {
    var v := Valid(rs);
    forall k | 0 <= k < |rs| && rs[k].error.None? ensures lo <= rs[k].inferenceTimeMs <= hi {
      assert rs[k] in rs;
    }
    ValidTimeSumBounds(rs, lo, hi);
    if v != [] {
      Extraction.QuotientBounds(TimeSum(v), |v|, lo, hi);
    }
  }

  /** No valid result after position `j` names `image`. */
  predicate LastFor(rs: seq<EvaluationResult>, j: nat, image: string) {
    forall l :: j < l < |rs| ==> rs[l].error.Some? || rs[l].image != image
  }

  /** An image has a score exactly when some result for it has no error. */
  lemma {:induction false} ScoresByImageKeys(rs: seq<EvaluationResult>, image: string)
    ensures image in ScoresByImage(rs) <==> exists r :: r in rs && r.error.None? && r.image == image
    decreases |rs|
  {
    if rs != [] {
      var init, last := rs[..|rs| - 1], rs[|rs| - 1];
      ScoresByImageKeys(init, image);
      assert rs == init + [last];
      if exists r :: r in rs && r.error.None? && r.image == image {
        var r :| r in rs && r.error.None? && r.image == image;
        if r != last {
          assert r in init;
        }
      }
    }
  }

  /** The score of an image is the one of its LAST result without an error. */
  lemma {:induction false} ScoresByImageLast(rs: seq<EvaluationResult>, image: string, j: nat)
    requires j < |rs| && rs[j].error.None? && rs[j].image == image && LastFor(rs, j, image)
    ensures image in ScoresByImage(rs) && ScoresByImage(rs)[image] == rs[j].overallScore
    decreases |rs|
  {
    var init := rs[..|rs| - 1];
    if j < |rs| - 1 {
      assert init[j] == rs[j];
      assert LastFor(init, j, image) by {
        forall l | j < l < |init| ensures init[l].error.Some? || init[l].image != image {
          assert init[l] == rs[l];
        }
      }
      ScoresByImageLast(init, image, j);
    }
  }

  /** A model that fails to load: no results, zeroed metrics, the one message, no per-image scores. */
  lemma LoadFailure(caps: ModelCapabilities, message: string, evaluate: string -> EvaluationResult, screenshots: seq<string>)
    ensures var (m, rs) := SingleRun(caps, Some(message), evaluate, screenshots);
      rs == [] && m.modelName == caps.name && m.totalImages == |screenshots| &&
      m.avgScore == 0.0 && m.avgInferenceTimeMs == 0.0 && m.peakVramMb == 0.0 &&
      m.errors == [message] && m.scoresByImage == map[] && m.capabilities == Some(caps)
    ensures SingleTrace(Some(message), screenshots) == [Load]
  {
  }

  /** A model that loads: one result per screenshot in order, and the trace load, evaluate each, unload. */
  lemma LoadSuccess(caps: ModelCapabilities, evaluate: string -> EvaluationResult, screenshots: seq<string>)
    ensures var (m, rs) := SingleRun(caps, None, evaluate, screenshots);
      |rs| == |screenshots| && (forall k :: 0 <= k < |rs| ==> rs[k] == evaluate(screenshots[k])) &&
      m.totalImages == |screenshots| && m.capabilities == Some(caps) &&
      |m.errors| + |Valid(rs)| == |rs|
    ensures var t := SingleTrace(None, screenshots);
      |t| == |screenshots| + 2 && t[0] == Load && t[|t| - 1] == Unload &&
      forall k :: 0 <= k < |screenshots| ==> t[k + 1] == Evaluate(screenshots[k])
  {
    ErrorsPartition(Evaluations(evaluate, screenshots));
  }

  // ---------------------------------------------------------------------
  // Properties of the selection.
  // ---------------------------------------------------------------------

  /** The selection keeps exactly the wanted evaluators, in registry order, without repeats. */
  lemma {:induction false} SelectionMeaning(registry: seq<Evaluator>, models: Option<seq<string>>)
    ensures forall ev :: ev in Selection(registry, models) ==> ev in registry && Wanted(ev.caps, models)
    ensures forall ev :: ev in registry && Wanted(ev.caps, models) ==> ev in Selection(registry, models)
    ensures Distinct(registry) ==> Distinct(Selection(registry, models))
    decreases |registry|
  {
    if registry != [] {
      var init, last := registry[..|registry| - 1], registry[|registry| - 1];
      SelectionMeaning(init, models);
      assert registry == init + [last];
      if Distinct(registry) {
        assert Distinct(init);
        assert last !in init;
      }
    }
  }

  /** Without a model list, or with an empty one, every evaluator runs. */
  lemma {:induction false} SelectAllByDefault(registry: seq<Evaluator>, models: Option<seq<string>>)
    requires models.None? || models.value == []
    ensures Selection(registry, models) == registry
    decreases |registry|
  {
    if registry != [] {
      SelectAllByDefault(registry[..|registry| - 1], models);
    }
  }

  /** A model is selected by its tag: "qwen-vl" selects the Qwen evaluator. */
  lemma SelectByTag()
    ensures Wanted(QwenVl.Capabilities, Some(["qwen-vl"]))
  {
    SingleEntryWanted(QwenVl.Capabilities, "qwen-vl");
    LowerSame("qwen-vl");
  }

  /** With a single entry, an evaluator runs exactly when the lower-cased entry is its lower-cased name or its tag. */
  lemma SingleEntryWanted(caps: ModelCapabilities, m: string)
    ensures Wanted(caps, Some([m])) <==> Lower(m) == Lower(caps.name) || Lower(m) == caps.evaluatorType.Value()
  {
    LowerAllOne(m);
  }

  /** Another evaluator's tag does not select SmolVLM. */
  lemma OtherTagSkips()
    ensures !Wanted(SmolVlm.Capabilities, Some(["qwen-vl"]))
  {
    LowerSame("qwen-vl");
    SingleEntryWanted(SmolVlm.Capabilities, "qwen-vl");
    assert Lower(SmolVlm.Capabilities.name)[0] == 's';
  }

  /** A model is selected by its display name in any ASCII case. */
  lemma SelectByNameAnyCase()
    ensures Wanted(SmolVlm.Capabilities, Some(["SMOLVLM2-256M"]))
  {
    SingleEntryWanted(SmolVlm.Capabilities, "SMOLVLM2-256M");
    var name := SmolVlm.Capabilities.name;
    var shout := "SMOLVLM2-256M";
    assert |name| == |shout|;
    forall k | 0 <= k < |name| ensures Lower(name)[k] == Lower(shout)[k] {
      assert LowerChar(name[k]) == LowerChar(shout[k]);
    }
    assert Lower(name) == Lower(shout);
  }

  lemma LowerAllOne(m: string)
    ensures LowerAll([m]) == [Lower(m)]
  {
  }

  /** A string without upper-case ASCII letters is its own lower-case form. */
  lemma LowerSame(s: string)
    requires forall k :: 0 <= k < |s| ==> !('A' <= s[k] <= 'Z')
    ensures Lower(s) == s
  {
  }

  /** The four classes carry four distinct tags, in the order UIClip, SmolVLM, MobileVLM, Qwen-VL. */
  lemma ClassesDistinct()
    ensures |EvaluatorClasses| == 4
    ensures forall i, j :: 0 <= i < j < 4 ==>
      EvaluatorClasses[i].evaluatorType.Value() != EvaluatorClasses[j].evaluatorType.Value()
  {
  }
}
