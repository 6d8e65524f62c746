/**
 * The UIClip evaluator: CLIP scores the screenshot against four prompts
 * (good design, bad design, the description, its negation); the softmax of
 * those four logits becomes two criteria and their mean.
 */
module UiClip {
  import opened Wrappers
  import opened Types
  import opened Extraction
  import opened Evaluators

  const Capabilities: ModelCapabilities :=
    ModelCapabilities("UIClip", EvaluatorType.UiClip, "400M", 2.0, true, true, false, "none")

  /** `probs[0..3]`: high quality, low quality, the description, "NOT" the description. */
  datatype Probs = Probs(good: real, bad: real, matching: real, notMatching: real)

  /** `(pos - neg + 1) * 5`: a probability difference in [-1, 1] spread over [0, 10]. */
  function Normalize(pos: real, neg: real): real {
    (pos - neg + 1.0) * 5.0
  }

  /** Reading the difference back from a normalised score. */
  function Difference(score: real): real {
    score / 5.0 - 1.0
  }

  /** The two criteria, design quality first; `fmt` is the `:.3f` formatting of a probability. */
  function CriteriaOf(p: Probs, fmt: real -> string): seq<CriteriaScore> {
    var q := Normalize(p.good, p.bad);
    var d := Normalize(p.matching, p.notMatching);
    [Criterion("design_quality", q, "Quality prob: " + fmt(p.good) + " vs bad: " + fmt(p.bad)),
     Criterion("description_match", d, "Match prob: " + fmt(p.matching) + " vs not: " + fmt(p.notMatching))]
  }

  function OverallOf(p: Probs): real {
    (Normalize(p.good, p.bad) + Normalize(p.matching, p.notMatching)) / 2.0
  }

  function RawOutput(p: Probs, fmt: real -> string): string {
    "Probs: quality=" + fmt(p.good) + ", bad=" + fmt(p.bad) + ", match=" + fmt(p.matching) + ", not=" + fmt(p.notMatching)
  }

  /** `evaluate`: the two criteria and their mean for a completed inference, or the errored result. */
  function ResultOf(image: string, outcome: Inference<Probs>, fmt: real -> string): (r: EvaluationResult)
    ensures outcome.Raised? ==> r == ErrorResult(Capabilities.name, image, outcome.message)
    ensures r.evaluator == Capabilities.name && r.image == image
    ensures outcome.Completed? ==> r.inferenceTimeMs == outcome.timeMs && r.vramUsedMb == outcome.vramMb
    ensures outcome.Completed? ==>
      r.error == None && r.criteriaScores == CriteriaOf(outcome.output, fmt) &&
      r.overallScore == OverallOf(outcome.output) && r.rawOutput == RawOutput(outcome.output, fmt)
  {
    match outcome
    case Raised(message) => ErrorResult(Capabilities.name, image, message)
    case Completed(p, timeMs, vramMb) =>
      EvaluationResult(Capabilities.name, image, OverallOf(p), CriteriaOf(p, fmt), RawOutput(p, fmt), timeMs, vramMb, None)
  }

  // ---------------------------------------------------------------------
  // Properties.
  // ---------------------------------------------------------------------

  predicate Probability(x: real) {
    0.0 <= x <= 1.0
  }

  /** Two probabilities give a score in [0, 10]. */
  lemma NormalizeBounds(pos: real, neg: real)
    requires Probability(pos) && Probability(neg)
    ensures 0.0 <= Normalize(pos, neg) <= 10.0
  {
  }

  /** An equal pair gives exactly 5; 10 needs certainty for, 0 certainty against. */
  lemma NormalizeLandmarks(p: real)
    ensures Normalize(p, p) == 5.0
    ensures Normalize(1.0, 0.0) == 10.0 && Normalize(0.0, 1.0) == 0.0
  {
  }

  /** The score strictly increases with the positive probability and strictly decreases with the negative one. */
  lemma NormalizeMonotone(pos: real, pos': real, neg: real, neg': real)
    ensures pos < pos' ==> Normalize(pos, neg) < Normalize(pos', neg)
    ensures neg < neg' ==> Normalize(pos, neg') < Normalize(pos, neg)
  {
  }

  /** The normalisation loses nothing: the probability difference can be read back. */
  lemma NormalizeInvertible(pos: real, neg: real)
    ensures Difference(Normalize(pos, neg)) == pos - neg
  {
  }

  /** Exactly two criteria, design_quality then description_match, each passed at 6.0; overall is their mean. */
  lemma TwoCriteria(p: Probs, fmt: real -> string)
    ensures var cs := CriteriaOf(p, fmt);
      |cs| == 2 && cs[0].name == "design_quality" && cs[1].name == "description_match" &&
      cs[0].score == Normalize(p.good, p.bad) && cs[1].score == Normalize(p.matching, p.notMatching) &&
      (forall c :: c in cs ==> (c.passed <==> c.score >= 6.0)) &&
      OverallOf(p) == Mean(cs)
  {
    var cs := CriteriaOf(p, fmt);
    assert cs[1..][1..] == [];
    assert Sum(cs[1..][1..]) == 0.0;
    assert Sum(cs[1..]) == cs[1].score;
    assert Sum(cs) == cs[0].score + cs[1].score;
  }

  /** With a softmax (four non-negative probabilities summing to 1) the overall score lies in [2.5, 7.5]. */
  lemma SoftmaxOverallBounds(p: Probs)
    requires p.good >= 0.0 && p.bad >= 0.0 && p.matching >= 0.0 && p.notMatching >= 0.0
    requires p.good + p.bad + p.matching + p.notMatching == 1.0
    ensures 2.5 <= OverallOf(p) <= 7.5
  {
    assert OverallOf(p) == 5.0 + 2.5 * ((p.good + p.matching) - (p.bad + p.notMatching));
  }

  /** The bounds are reached: all mass on the good prompts gives 7.5, all on the bad ones 2.5. */
  lemma SoftmaxBoundsReached()
    ensures OverallOf(Probs(0.5, 0.0, 0.5, 0.0)) == 7.5
    ensures OverallOf(Probs(0.0, 0.5, 0.0, 0.5)) == 2.5
  {
  }

  /** An exception while evaluating yields overall 0.0, no criteria and the error message. */
  lemma ErrorBranch(image: string, message: string, fmt: real -> string)
    ensures var r := ResultOf(image, Raised(message), fmt);
      r.overallScore == 0.0 && r.criteriaScores == [] && r.error == Some(message) && !r.Passed()
  {
  }
}
