/**
 * The computations behind the console report: the ranking of the models by
 * average score, the per-image score cells and the light/dark comparison.
 * Colours, number formatting and the tables themselves are outside the model.
 */
module Report {
  import opened Wrappers
  import opened Text
  import opened Types
  import Runner

  // ---------------------------------------------------------------------
  // Ranking: `sorted(all_metrics, key=avg_score, reverse=True)`.
  // ---------------------------------------------------------------------

  /** Index `a` is ranked before index `b`: a higher score, or an equal score and an earlier position. */
  predicate Before(xs: seq<real>, a: nat, b: nat)
    requires a < |xs| && b < |xs|
  {
    xs[a] > xs[b] || (xs[a] == xs[b] && a < b)
  }

  predicate InRange(order: seq<nat>, n: nat) {
    forall k :: 0 <= k < |order| ==> order[k] < n
  }

  predicate Ranked(xs: seq<real>, order: seq<nat>)
    requires InRange(order, |xs|)
  {
    forall a, b :: 0 <= a < b < |order| ==> Before(xs, order[a], order[b])
  }

  /** Insert index `i`, later than every index in `order`, after every index whose score is not lower. */
  function Insert(xs: seq<real>, order: seq<nat>, i: nat): (r: seq<nat>)
    requires i < |xs| && InRange(order, i) && Ranked(xs, order)
    ensures |r| == |order| + 1 && InRange(r, i + 1) && Ranked(xs, r)
    ensures forall j :: j in r <==> j in order || j == i
  {
    if order == [] then [i]
    else if xs[order[0]] < xs[i] then
      [i] + order
    else
      var t := Insert(xs, order[1..], i);
      var r := [order[0]] + t;
      assert forall k :: 0 <= k < |t| ==> Before(xs, order[0], t[k]) by {
        forall k | 0 <= k < |t| ensures Before(xs, order[0], t[k]) {
          if t[k] != i {
            assert t[k] in t;
            var m :| 0 <= m < |order[1..]| && order[1..][m] == t[k];
            assert order[m + 1] == t[k];
          }
        }
      }
      assert Ranked(xs, r) by {
        forall a, b | 0 <= a < b < |r| ensures Before(xs, r[a], r[b]) {
          if a > 0 {
            assert r[a] == t[a - 1] && r[b] == t[b - 1];
          }
        }
      }
      assert order == [order[0]] + order[1..];
      r
  }

  /** The ranking of the first `n` positions of `xs`, as positions. */
  function RankOrder(xs: seq<real>, n: nat): (r: seq<nat>)
    requires n <= |xs|
    ensures |r| == n && InRange(r, n) && Ranked(xs, r)
    ensures forall j :: 0 <= j < n ==> j in r
  {
    if n == 0 then [] else Insert(xs, RankOrder(xs, n - 1), n - 1)
  }

  function Scores(ms: seq<BenchmarkMetrics>): seq<real> {
    seq(|ms|, k requires 0 <= k < |ms| => ms[k].avgScore)
  }

  /** The metrics in ranking order. */
  function Ranking(ms: seq<BenchmarkMetrics>): seq<BenchmarkMetrics> {
    var order := RankOrder(Scores(ms), |ms|);
    seq(|order|, k requires 0 <= k < |order| => ms[order[k]])
  }

  /**
   * The ranking is a stable sort by descending average score: it lists every
   * entry exactly once, scores never rise, and equal scores keep their order.
   */
  lemma RankingIsStableSort(ms: seq<BenchmarkMetrics>)
    ensures var order := RankOrder(Scores(ms), |ms|);
      var r := Ranking(ms);
      |order| == |ms| && |r| == |ms| &&
      (forall k :: 0 <= k < |ms| ==> order[k] < |ms| && r[k] == ms[order[k]]) &&
      (forall j :: 0 <= j < |ms| ==> j in order) &&
      (forall a, b :: 0 <= a < b < |ms| ==> order[a] != order[b]) &&
      (forall a, b :: 0 <= a < b < |r| ==> r[a].avgScore >= r[b].avgScore) &&
      (forall a, b :: 0 <= a < b < |r| && r[a].avgScore == r[b].avgScore ==> order[a] < order[b])
  {
    var xs := Scores(ms);
    var order := RankOrder(xs, |ms|);
    forall a, b | 0 <= a < b < |ms| ensures order[a] != order[b] {
      assert Before(xs, order[a], order[b]);
    }
  }

  /** Two models in the order they ran: the lower-scoring one first comes out second. */
  lemma RankingExample(m1: BenchmarkMetrics, m2: BenchmarkMetrics, m3: BenchmarkMetrics)
    requires m1.avgScore == 5.0 && m2.avgScore == 8.0 && m3.avgScore == 5.0
    ensures Ranking([m1, m2, m3]) == [m2, m1, m3]
  {
    var xs := Scores([m1, m2, m3]);
    assert xs == [5.0, 8.0, 5.0];
    assert RankOrder(xs, 1) == [0];
    assert RankOrder(xs, 2) == [1, 0];
    assert [1, 0][1..] == [0];
    assert Insert(xs, [], 2) == [2];
    assert Insert(xs, [0], 2) == [0, 2];
    assert RankOrder(xs, 3) == [1, 0, 2];
  }

  // ---------------------------------------------------------------------
  // The "Scores by Image" cells.
  // ---------------------------------------------------------------------

  /** `m.scores_by_image.get(image, 0.0)` */
  function ScoreCell(m: BenchmarkMetrics, image: string): real {
    if image in m.scoresByImage then m.scoresByImage[image] else 0.0
  }

  /** A cell shows the last valid score for the image, or 0.0 when no valid result names it. */
  lemma ScoreCellMeaning(caps: ModelCapabilities, total: nat, rs: seq<EvaluationResult>, image: string)
    ensures (forall r :: r in rs && r.error.None? ==> r.image != image) ==>
      ScoreCell(Runner.Aggregate(caps, total, rs), image) == 0.0
    ensures forall j :: 0 <= j < |rs| && rs[j].error.None? && rs[j].image == image && Runner.LastFor(rs, j, image) ==>
      ScoreCell(Runner.Aggregate(caps, total, rs), image) == rs[j].overallScore
  {
    Runner.ScoresByImageKeys(rs, image);
    forall j | 0 <= j < |rs| && rs[j].error.None? && rs[j].image == image && Runner.LastFor(rs, j, image)
      ensures ScoreCell(Runner.Aggregate(caps, total, rs), image) == rs[j].overallScore
    {
      Runner.ScoresByImageLast(rs, image, j);
    }
  }

  // ---------------------------------------------------------------------
  // Light versus dark mode.
  // ---------------------------------------------------------------------

  /** The screenshot pairs compared, light first. */
  const LightDarkPairs: seq<(string, string)> := [("components.png", "components-dark.png")]

  /** One table row: the aspect (a criterion name, or "Overall"), both scores and dark minus light. */
  datatype Row = Row(aspect: string, light: real, dark: real, diff: real)

  /** `{r.image_path.name: r for r in results}`: a later result for a name overwrites. */
  function ResultsByName(rs: seq<EvaluationResult>): map<string, EvaluationResult>
    decreases |rs|
  {
    if rs == [] then map[]
    else
      var r := rs[|rs| - 1];
      ResultsByName(rs[..|rs| - 1])[r.image := r]
  }

  /** `{c.name: c.score for c in criteria}`: a later criterion of a name overwrites. */
  function CriteriaMap(cs: seq<CriteriaScore>): map<string, real>
    decreases |cs|
  {
    if cs == [] then map[]
    else
      var c := cs[|cs| - 1];
      CriteriaMap(cs[..|cs| - 1])[c.name := c.score]
  }

  function CriteriaNames(cs: seq<CriteriaScore>): seq<string> {
    seq(|cs|, k requires 0 <= k < |cs| => cs[k].name)
  }

  /** `d.get(name, 0)` */
  function Get(d: map<string, real>, name: string): real {
    if name in d then d[name] else 0.0
  }

  /** A truthy `error`: present and not the empty string. */
  predicate Errored(r: EvaluationResult) {
    r.error.Some? && r.error.value != ""
  }

  function CriterionRows(lightCrit: map<string, real>, darkCrit: map<string, real>, names: seq<string>): (rows: seq<Row>) {
    seq(|names|, k requires 0 <= k < |names| =>
      Row(names[k], Get(lightCrit, names[k]), Get(darkCrit, names[k]), Get(darkCrit, names[k]) - Get(lightCrit, names[k])))
  }

  /** The rows of one light/dark table: "Overall", then every criterion of either result in sorted order. */
  function CompareResults(light: EvaluationResult, dark: EvaluationResult): seq<Row> {
    var lightCrit := CriteriaMap(light.criteriaScores);
    var darkCrit := CriteriaMap(dark.criteriaScores);
    var names := SortedDistinct(CriteriaNames(light.criteriaScores) + CriteriaNames(dark.criteriaScores));
    [Row("Overall", light.overallScore, dark.overallScore, dark.overallScore - light.overallScore)] +
      CriterionRows(lightCrit, darkCrit, names)
  }

  /** The table for one pair, or None when either image is missing or errored. */
  function ComparePair(rs: seq<EvaluationResult>, lightName: string, darkName: string): Option<seq<Row>> {
    var byName := ResultsByName(rs);
    if lightName !in byName || darkName !in byName then None
    else
      var light, dark := byName[lightName], byName[darkName];
      if Errored(light) || Errored(dark) then None else Some(CompareResults(light, dark))
  }

  /** The tables printed for one model's results, pair by pair. */
  function Comparisons(rs: seq<EvaluationResult>): seq<Option<seq<Row>>> {
    seq(|LightDarkPairs|, k requires 0 <= k < |LightDarkPairs| =>
      ComparePair(rs, LightDarkPairs[k].0, LightDarkPairs[k].1))
  }

  // ---------------------------------------------------------------------
  // Properties of the comparison.
  // ---------------------------------------------------------------------

  /** An image has an entry exactly when some result is for that image. */
  lemma {:induction false} ResultsByNameKeys(rs: seq<EvaluationResult>, name: string)
    ensures name in ResultsByName(rs) <==> exists r :: r in rs && r.image == name
    decreases |rs|
  {
    if rs != [] {
      var init, last := rs[..|rs| - 1], rs[|rs| - 1];
      ResultsByNameKeys(init, name);
      assert rs == init + [last];
      if exists r :: r in rs && r.image == name {
        var r :| r in rs && r.image == name;
        if r != last {
          assert r in init;
        }
      }
    }
  }

  /** The entry for an image is the LAST result for that image: later results overwrite. */
  lemma {:induction false} ResultsByNameLast(rs: seq<EvaluationResult>, name: string)
    requires name in ResultsByName(rs)
    ensures exists j :: (0 <= j < |rs| && ResultsByName(rs)[name] == rs[j] && rs[j].image == name &&
      forall l :: j < l < |rs| ==> rs[l].image != name)
    decreases |rs|
  {
    var init, last := rs[..|rs| - 1], rs[|rs| - 1];
    if last.image == name {
      assert ResultsByName(rs)[name] == rs[|rs| - 1];
    } else {
      assert name in ResultsByName(init);
      ResultsByNameLast(init, name);
      var j :| 0 <= j < |init| && ResultsByName(init)[name] == init[j] && init[j].image == name &&
        forall l :: j < l < |init| ==> init[l].image != name;
      assert rs[j] == init[j];
      assert forall l :: j < l < |rs| ==> rs[l].image != name by {
        forall l | j < l < |rs| ensures rs[l].image != name {
          if l < |init| {
            assert rs[l] == init[l];
          }
        }
      }
    }
  }

  /** A criterion name has an entry exactly when some criterion carries it. */
  lemma {:induction false} CriteriaMapKeys(cs: seq<CriteriaScore>)
    ensures forall name :: name in CriteriaMap(cs) <==> name in CriteriaNames(cs)
    decreases |cs|
  {
    if cs != [] {
      var init := cs[..|cs| - 1];
      CriteriaMapKeys(init);
      assert CriteriaNames(cs) == CriteriaNames(init) + [cs[|cs| - 1].name];
    }
  }

  /** A pair is compared exactly when both images have a result and neither result carries a non-empty error. */
  lemma PairSkipped(rs: seq<EvaluationResult>, lightName: string, darkName: string)
    ensures ComparePair(rs, lightName, darkName).None? <==>
      (forall r :: r in rs ==> r.image != lightName) ||
      (forall r :: r in rs ==> r.image != darkName) ||
      (lightName in ResultsByName(rs) && Errored(ResultsByName(rs)[lightName])) ||
      (darkName in ResultsByName(rs) && Errored(ResultsByName(rs)[darkName]))
  {
    ResultsByNameKeys(rs, lightName);
    ResultsByNameKeys(rs, darkName);
  }

  /**
   * A compared pair gives the overall row first, with dark minus light, then
   * one row per criterion name of either result, in ascending order without
   * repeats, each with dark minus light and a missing criterion counted as 0.
   */
  lemma CompareRows(light: EvaluationResult, dark: EvaluationResult)
    ensures var rows := CompareResults(light, dark);
      var lightCrit := CriteriaMap(light.criteriaScores);
      var darkCrit := CriteriaMap(dark.criteriaScores);
      |rows| >= 1 && rows[0] == Row("Overall", light.overallScore, dark.overallScore, dark.overallScore - light.overallScore) &&
      (forall a, b :: 1 <= a < b < |rows| ==> LexLess(rows[a].aspect, rows[b].aspect)) &&
      (forall name :: (exists k :: 1 <= k < |rows| && rows[k].aspect == name) <==>
         name in CriteriaNames(light.criteriaScores) || name in CriteriaNames(dark.criteriaScores)) &&
      (forall k :: 1 <= k < |rows| ==>
         rows[k].diff == rows[k].dark - rows[k].light &&
         (rows[k].light == if rows[k].aspect in lightCrit then lightCrit[rows[k].aspect] else 0.0) &&
         (rows[k].dark == if rows[k].aspect in darkCrit then darkCrit[rows[k].aspect] else 0.0))
  {
    var all := CriteriaNames(light.criteriaScores) + CriteriaNames(dark.criteriaScores);
    var names := SortedDistinct(all);
    var rows := CompareResults(light, dark);
    assert forall k :: 1 <= k < |rows| ==> rows[k].aspect == names[k - 1];
    forall name
      ensures (exists k :: 1 <= k < |rows| && rows[k].aspect == name) <==>
        name in CriteriaNames(light.criteriaScores) || name in CriteriaNames(dark.criteriaScores)
    {
      if name in all {
        assert name in Elems(all);
        assert name in Elems(names);
        var m :| 0 <= m < |names| && names[m] == name;
        assert rows[m + 1].aspect == name;
      }
      if exists k :: 1 <= k < |rows| && rows[k].aspect == name {
        var k :| 1 <= k < |rows| && rows[k].aspect == name;
        assert names[k - 1] in Elems(names);
        assert name in Elems(all);
      }
    }
  }

  /** `swapped` is `rows` with the light and dark columns exchanged and every difference negated. */
  predicate Mirrored(rows: seq<Row>, swapped: seq<Row>) {
    |swapped| == |rows| &&
    forall k :: 0 <= k < |rows| ==>
      swapped[k].aspect == rows[k].aspect && swapped[k].light == rows[k].dark &&
      swapped[k].dark == rows[k].light && swapped[k].diff == -rows[k].diff
  }

  /**
   * Exchanging the light and dark results gives the same table with the two
   * columns swapped and every difference negated: the criterion names are the
   * same sorted union either way.
   */
  lemma SwapNegates(light: EvaluationResult, dark: EvaluationResult)
    ensures Mirrored(CompareResults(light, dark), CompareResults(dark, light))
  {
    var ln, dn := CriteriaNames(light.criteriaScores), CriteriaNames(dark.criteriaScores);
    var lc, dc := CriteriaMap(light.criteriaScores), CriteriaMap(dark.criteriaScores);
    assert Elems(ln + dn) == Elems(ln) + Elems(dn);
    assert Elems(dn + ln) == Elems(dn) + Elems(ln);
    var names := SortedDistinct(ln + dn);
    SortedUnique(names, SortedDistinct(dn + ln));
    RowsSwap(lc, dc, names);
    MirroredCons(Row("Overall", light.overallScore, dark.overallScore, dark.overallScore - light.overallScore),
                 Row("Overall", dark.overallScore, light.overallScore, light.overallScore - dark.overallScore),
                 CriterionRows(lc, dc, names), CriterionRows(dc, lc, names));
  }

  /** Swapping the two criteria maps swaps the columns of every row and negates its difference. */
  lemma RowsSwap(lc: map<string, real>, dc: map<string, real>, names: seq<string>)
    ensures Mirrored(CriterionRows(lc, dc, names), CriterionRows(dc, lc, names))
  {
  }

  lemma MirroredCons(h: Row, g: Row, rows: seq<Row>, swapped: seq<Row>)
    requires g.aspect == h.aspect && g.light == h.dark && g.dark == h.light && g.diff == -h.diff
    requires Mirrored(rows, swapped)
    ensures Mirrored([h] + rows, [g] + swapped)
  {
    var a, b := [h] + rows, [g] + swapped;
    forall k | 0 <= k < |a| ensures b[k].aspect == a[k].aspect && b[k].light == a[k].dark &&
      b[k].dark == a[k].light && b[k].diff == -a[k].diff
    {
      if k > 0 {
        assert a[k] == rows[k - 1] && b[k] == swapped[k - 1];
      }
    }
  }

  lemma NonEmptyHasElems(s: seq<string>)
    ensures s != [] ==> s[0] in Elems(s)
  {
    if s != [] {
      assert s[0] in s;
    }
  }

  /** Two strictly sorted sequences with the same strings are equal. */
  lemma {:induction false} SortedUnique(s: seq<string>, t: seq<string>)
    requires StrictlySorted(s) && StrictlySorted(t) && Elems(s) == Elems(t)
    ensures s == t
    decreases |s|
  {
    if s != [] && t != [] {
      assert s[0] in Elems(t) && t[0] in Elems(s);
      if s[0] != t[0] {
        var i :| 0 <= i < |t| && t[i] == s[0];
        var j :| 0 <= j < |s| && s[j] == t[0];
        assert LexLess(t[0], s[0]);
        assert LexLess(s[0], t[0]);
        LexAsymmetric(t[0], s[0]);
        assert false;
      }
      assert Elems(s[1..]) == Elems(s) - {s[0]} by {
        forall x | x in Elems(s[1..]) ensures x != s[0] {
          var m :| 0 <= m < |s[1..]| && s[1..][m] == x;
          LexIrreflexive(s[0]);
          assert LexLess(s[0], s[m + 1]);
        }
        assert s == [s[0]] + s[1..];
      }
      assert Elems(t[1..]) == Elems(t) - {t[0]} by {
        forall x | x in Elems(t[1..]) ensures x != t[0] {
          var m :| 0 <= m < |t[1..]| && t[1..][m] == x;
          LexIrreflexive(t[0]);
          assert LexLess(t[0], t[m + 1]);
        }
        assert t == [t[0]] + t[1..];
      }
      SortedUnique(s[1..], t[1..]);
      assert s == [s[0]] + s[1..] && t == [t[0]] + t[1..];
    } else {
      NonEmptyHasElems(s);
      NonEmptyHasElems(t);
    }
  }

  /** A light 8.0 and a dark 6.0 with no criteria: one row, "Overall", difference -2.0. */
  lemma DarkScoresLower(light: EvaluationResult, dark: EvaluationResult)
    requires light.image == "components.png" && dark.image == "components-dark.png"
    requires light.error == None && dark.error == None
    requires light.overallScore == 8.0 && dark.overallScore == 6.0
    requires light.criteriaScores == [] && dark.criteriaScores == []
    ensures Comparisons([light, dark]) == [Some([Row("Overall", 8.0, 6.0, -2.0)])]
  {
    assert [light, dark][..1] == [light];
    assert [light][..0] == [];
    assert ResultsByName([light]) == map["components.png" := light];
    assert ResultsByName([light, dark]) == map["components.png" := light, "components-dark.png" := dark];
    assert SortedDistinct([]) == [];
    assert CompareResults(light, dark) == [Row("Overall", 8.0, 6.0, -2.0)];
  }

  /** An errored dark screenshot drops the comparison, but an error that is the empty string does not. */
  lemma ErroredPairSkipped(light: EvaluationResult, dark: EvaluationResult)
    requires light.image == "components.png" && dark.image == "components-dark.png"
    requires light.error == None && dark.error.Some?
    ensures dark.error.value != "" ==> Comparisons([light, dark]) == [None]
    ensures dark.error.value == "" ==> Comparisons([light, dark])[0].Some?
  {
    assert [light, dark][..1] == [light];
    assert [light][..0] == [];
    assert ResultsByName([light]) == map["components.png" := light];
    assert ResultsByName([light, dark]) == map["components.png" := light, "components-dark.png" := dark];
  }
}
