/**
 * The records of the evaluation harness: criterion scores, per-image results
 * with their pass rule, capability descriptors and per-evaluator metrics.
 * Scores are `real`: the harness only adds, subtracts, divides and compares.
 */
module Types {
  import opened Wrappers

  /** The tag of each evaluator family; `Value()` is the enum's string value. */
  datatype EvaluatorType = UiClip | SmolVlm | MobileVlm | QwenVl {
    function Value(): string {
      match this
      case UiClip => "uiclip"
      case SmolVlm => "smolvlm"
      case MobileVlm => "mobilevlm"
      case QwenVl => "qwen-vl"
    }
  }

  /** A criterion passes at 6.0, a result at 7.0. */
  const CriterionThreshold: real := 6.0
  const ResultThreshold: real := 7.0

  datatype CriteriaScore = CriteriaScore(name: string, score: real, passed: bool, explanation: string)

  /**
   * One evaluator's verdict on one screenshot. `image` is the file name of
   * the screenshot (the harness only ever reads `image_path.name`).
   */
  datatype EvaluationResult = EvaluationResult(
    evaluator: string,
    image: string,
    overallScore: real,
    criteriaScores: seq<CriteriaScore>,
    rawOutput: string,
    inferenceTimeMs: real,
    vramUsedMb: real,
    error: Option<string>)
  {
    /** The result passes when its overall score reaches 7.0 and every criterion passed. */
    predicate Passed() {
      overallScore >= ResultThreshold && forall c :: c in criteriaScores ==> c.passed
    }
  }

  /** An `EvaluationResult` built with only its three required fields; the rest take their defaults. */
  function NewResult(evaluator: string, image: string, overallScore: real): (r: EvaluationResult)
    ensures r.criteriaScores == [] && r.rawOutput == "" && r.error == None
    ensures r.inferenceTimeMs == 0.0 && r.vramUsedMb == 0.0
    ensures r.evaluator == evaluator && r.image == image && r.overallScore == overallScore
  {
    EvaluationResult(evaluator, image, overallScore, [], "", 0.0, 0.0, None)
  }

  /** The result every evaluator returns from its exception handler. */
  function ErrorResult(evaluator: string, image: string, message: string): (r: EvaluationResult)
    ensures r.overallScore == 0.0 && r.criteriaScores == [] && r.error == Some(message)
    ensures r.rawOutput == "" && r.inferenceTimeMs == 0.0 && r.vramUsedMb == 0.0
    ensures r.evaluator == evaluator && r.image == image
  {
    NewResult(evaluator, image, 0.0).(error := Some(message))
  }

  datatype ModelCapabilities = ModelCapabilities(
    name: string,
    evaluatorType: EvaluatorType,
    parameters: string,
    vramRequiredGb: real,
    supportsQualityScore: bool,
    supportsTextMatching: bool,
    supportsDesignSuggestions: bool,
    quantization: string)

  datatype BenchmarkMetrics = BenchmarkMetrics(
    modelName: string,
    totalImages: nat,
    avgScore: real,
    avgInferenceTimeMs: real,
    peakVramMb: real,
    scoresByImage: map<string, real>,
    capabilities: Option<ModelCapabilities>,
    errors: seq<string>)

  /** A `BenchmarkMetrics` built with only its five required fields; the rest take their defaults. */
  function NewMetrics(modelName: string, totalImages: nat, avgScore: real, avgTime: real, peakVram: real): (m: BenchmarkMetrics)
    ensures m.scoresByImage == map[] && m.capabilities == None && m.errors == []
    ensures m.modelName == modelName && m.totalImages == totalImages
    ensures m.avgScore == avgScore && m.avgInferenceTimeMs == avgTime && m.peakVramMb == peakVram
  {
    BenchmarkMetrics(modelName, totalImages, avgScore, avgTime, peakVram, map[], None, [])
  }

  /** A result without criteria passes exactly when its overall score reaches 7.0. */
  lemma PassedWithoutCriteria(r: EvaluationResult)
    requires r.criteriaScores == []
    ensures r.Passed() <==> r.overallScore >= 7.0
  {
  }

  /** The result every exception handler builds never passes. */
  lemma ErrorResultNeverPasses(evaluator: string, image: string, message: string)
    ensures !ErrorResult(evaluator, image, message).Passed()
  {
  }

  /**
   * The two thresholds differ: an overall score in [6.0, 7.0) fails the result
   * even though every criterion (including one scoring the same) passed.
   */
  lemma ThresholdGap(r: EvaluationResult)
    requires CriterionThreshold <= r.overallScore < ResultThreshold
    requires forall c :: c in r.criteriaScores ==> c.passed
    ensures !r.Passed()
    ensures CriteriaScore("overall", r.overallScore, r.overallScore >= CriterionThreshold, "").passed
  {
  }

  /** A passing result has at least 7.0 overall and every criterion flagged as passed. */
  lemma PassedCriterion(r: EvaluationResult, k: nat)
    requires r.Passed() && k < |r.criteriaScores|
    ensures r.criteriaScores[k].passed && r.overallScore >= 7.0
  {
    assert r.criteriaScores[k] in r.criteriaScores;
  }

  /** The four tag values are pairwise distinct, so a tag value selects one family. */
  lemma EvaluatorTypeValuesDistinct(a: EvaluatorType, b: EvaluatorType)
    ensures a.Value() == b.Value() <==> a == b
  {
  }
}
