/** Confidence-aware scores (internal/scoring/scoring.go), over the reals. */
module Scoring {
  import opened Wrappers
  import opened Numbers

  // Missing metrics are None; a metric that is present may still be NonFinite.
  datatype Metrics = Metrics(capability: Option<Float>, availability: Option<Float>, intelligence: Option<Float>)

  const NO_METRICS := Metrics(None, None, None)

  datatype ScoreResult = ScoreResult(
    performance: real, effectivePerformance: real, latency: real, routingScore: real, confidence: real, hasPerformanceData: bool)

  function ClampUnit(x: Float): real {
    if x.NonFinite? || x.value < 0.0 then 0.0 else if x.value > 1.0 then 1.0 else x.value
  }

  function MetricOrNeutral(m: Option<Float>): (real, bool) {
    if m.None? || m.value.NonFinite? then (UNKNOWN_SCORE, false) else (ClampScore(m.value.value), true)
  }

  function Performance(m: Metrics): real {
    ClampScore(0.55 * MetricOrNeutral(m.capability).0 + 0.30 * MetricOrNeutral(m.availability).0
               + 0.15 * MetricOrNeutral(m.intelligence).0)
  }

  predicate HasPerformanceData(m: Metrics) {
    MetricOrNeutral(m.capability).1 || MetricOrNeutral(m.availability).1 || MetricOrNeutral(m.intelligence).1
  }

  function Effective(performance: real, confidence: Float): real {
    var p, c := ClampScore(performance), ClampUnit(confidence);
    ClampScore(Mix(c, p))
  }

  function Mix(c: real, p: real): real {
    c * p + (1.0 - c) * UNKNOWN_SCORE
  }

  function Routing(effective: real, latency: real): real {
    ClampScore(0.70 * ClampScore(effective) + 0.30 * ClampScore(latency))
  }

  function LatencyOrNeutral(latency: Float): real {
    if latency.NonFinite? then UNKNOWN_SCORE else latency.value
  }

  function Score(m: Metrics, confidence: Float, latency: Float): ScoreResult {
    var has := HasPerformanceData(m);
    var c := if has then confidence else Finite(0.0);
    var effective := Effective(Performance(m), c);
    var l := LatencyOrNeutral(latency);
    ScoreResult(Performance(m), effective, ClampScore(l), Routing(effective, l), ClampUnit(c), has)
  }

  datatype SourceBinding = SourceBinding(sourceModelID: string, confidence: Float)

  // An unbound model, or a binding to a record that is gone, scores as unknown.
  function ScoreBinding(models: map<string, Metrics>, binding: Option<SourceBinding>, latency: Float): ScoreResult {
    if binding.None? || binding.value.sourceModelID == "" || binding.value.sourceModelID !in models
    then Score(NO_METRICS, Finite(0.0), latency)
    else Score(models[binding.value.sourceModelID], binding.value.confidence, latency)
  }

  // ----- what the clamps can and cannot do

  lemma Fraction(c: real, d: real)
    requires 0.0 <= c <= 1.0 && d >= 0.0
    ensures 0.0 <= c * d <= d
  {
    assert (1.0 - c) * d == d - c * d;
    Product(c, d);
    Product(1.0 - c, d);
  }

  lemma Product(a: real, b: real)
    requires a >= 0.0 && b >= 0.0
    ensures a * b >= 0.0
  {
  }

  lemma MixBounds(c: real, p: real)
    requires 0.0 <= c <= 1.0 && 0.0 <= p <= 100.0
    ensures p >= 50.0 ==> 50.0 <= Mix(c, p) <= p
    ensures p <= 50.0 ==> p <= Mix(c, p) <= 50.0
  {
    if p >= 50.0 {
      Fraction(c, p - 50.0);
      assert Mix(c, p) == 50.0 + c * (p - 50.0);
    } else {
      Fraction(c, 50.0 - p);
      assert Mix(c, p) == 50.0 - c * (50.0 - p);
    }
  }

  lemma MixMonotone(c: real, p: real, p': real)
    requires 0.0 <= c <= 1.0 && p <= p'
    ensures Mix(c, p) <= Mix(c, p')
  {
    Product(c, p' - p);
    assert Mix(c, p') - Mix(c, p) == c * (p' - p);
  }

  // Confidence pulls a performance towards neutral and never past it.
  lemma EffectiveIsBetween(p: real, confidence: Float)
    requires 0.0 <= p <= 100.0
    ensures p >= 50.0 ==> 50.0 <= Effective(p, confidence) <= p
    ensures p <= 50.0 ==> p <= Effective(p, confidence) <= 50.0
    ensures confidence == Finite(0.0) ==> Effective(p, confidence) == 50.0
    ensures confidence == Finite(1.0) ==> Effective(p, confidence) == p
  {
    MixBounds(ClampUnit(confidence), p);
  }

  // Two candidates of equal effective performance are separated by latency alone, strictly.
  lemma LatencyDecides(effective: real, slower: real, faster: real)
    requires 0.0 <= effective <= 100.0 && 0.0 <= slower < faster <= 100.0
    ensures Routing(effective, slower) < Routing(effective, faster)
  {
  }

  // At equal latency the better effective performance gives the strictly better routing score.
  lemma PerformanceDecides(worse: real, better: real, latency: real)
    requires 0.0 <= worse < better <= 100.0
    ensures Routing(worse, latency) < Routing(better, latency)
  {
  }

  // Without data the performance is neutral, and so the confidence, which is then ignored, makes no difference.
  lemma ConfidenceIsIgnored(m: Metrics, confidence: Float, latency: Float)
    ensures Score(m, confidence, latency).routingScore ==
      Routing(Effective(Performance(m), confidence), LatencyOrNeutral(latency))
  {
    if !HasPerformanceData(m) {
      assert Performance(m) == 50.0;
      EffectiveIsBetween(50.0, confidence);
      EffectiveIsBetween(50.0, Finite(0.0));
    }
  }

  lemma EffectiveIsMonotone(p: real, p': real, confidence: Float)
    requires p <= p'
    ensures Effective(p, confidence) <= Effective(p', confidence)
  {
    MixMonotone(ClampUnit(confidence), ClampScore(p), ClampScore(p'));
  }

  lemma BothRaiseRouting(effective: real, effective': real, latency: real, latency': real)
    requires effective <= effective' && latency <= latency'
    ensures Routing(effective, latency) <= Routing(effective', latency')
  {
  }

  lemma PerformanceIsMonotone(m: Metrics, m': Metrics)
    requires MetricOrNeutral(m.capability).0 <= MetricOrNeutral(m'.capability).0
    requires MetricOrNeutral(m.availability).0 <= MetricOrNeutral(m'.availability).0
    requires MetricOrNeutral(m.intelligence).0 <= MetricOrNeutral(m'.intelligence).0
    ensures Performance(m) <= Performance(m')
  {
  }

  predicate InRange(x: real) {
    0.0 <= x <= 100.0
  }

  // A metric, with a missing or unusable one counted as neutral.
  function Known(m: Option<Float>): real {
    if m.Some? && m.value.Finite? then m.value.value else 50.0
  }

  // The scores are weighted means: within their ranges no clamp acts.
  lemma ScoresAreWeightedMeans(m: Metrics, confidence: Float, latency: Float, performance: real)
    requires performance == 0.55 * Known(m.capability) + 0.30 * Known(m.availability) + 0.15 * Known(m.intelligence)
    requires InRange(Known(m.capability)) && InRange(Known(m.availability)) && InRange(Known(m.intelligence))
    requires confidence.Finite? && 0.0 <= confidence.value <= 1.0 && latency.Finite? && InRange(latency.value)
    ensures var effective := confidence.value * performance + (1.0 - confidence.value) * 50.0;
      Score(m, confidence, latency).routingScore == 0.70 * effective + 0.30 * latency.value
  {
    ConfidenceIsIgnored(m, confidence, latency);
    PerformanceIsMean(m, performance);
    EffectiveIsMean(performance, confidence.value);
    RoutingIsMean(Effective(performance, confidence), latency.value);
  }

  lemma PerformanceIsMean(m: Metrics, performance: real)
    requires performance == 0.55 * Known(m.capability) + 0.30 * Known(m.availability) + 0.15 * Known(m.intelligence)
    requires InRange(Known(m.capability)) && InRange(Known(m.availability)) && InRange(Known(m.intelligence))
    ensures Performance(m) == performance && InRange(performance)
  {
  }

  lemma EffectiveIsMean(p: real, c: real)
    requires InRange(p) && 0.0 <= c <= 1.0
    ensures Effective(p, Finite(c)) == c * p + (1.0 - c) * 50.0 && InRange(Effective(p, Finite(c)))
  {
    MixBounds(c, p);
  }

  lemma RoutingIsMean(effective: real, latency: real)
    requires InRange(effective) && InRange(latency)
    ensures Routing(effective, latency) == 0.70 * effective + 0.30 * latency
  {
  }

  // Raising any metric or the latency score never lowers the routing score.
  lemma RoutingIsMonotone(m: Metrics, m': Metrics, confidence: Float, latency: Float, latency': Float)
    requires MetricOrNeutral(m.capability).0 <= MetricOrNeutral(m'.capability).0
    requires MetricOrNeutral(m.availability).0 <= MetricOrNeutral(m'.availability).0
    requires MetricOrNeutral(m.intelligence).0 <= MetricOrNeutral(m'.intelligence).0
    requires LatencyOrNeutral(latency) <= LatencyOrNeutral(latency')
    ensures Score(m, confidence, latency).routingScore <= Score(m', confidence, latency').routingScore
  {
    ConfidenceIsIgnored(m, confidence, latency);
    ConfidenceIsIgnored(m', confidence, latency');
    assert Effective(Performance(m), confidence) <= Effective(Performance(m'), confidence) by {
      PerformanceIsMonotone(m, m');
      EffectiveIsMonotone(Performance(m), Performance(m'), confidence);
    }
    BothRaiseRouting(Effective(Performance(m), confidence), Effective(Performance(m'), confidence),
      LatencyOrNeutral(latency), LatencyOrNeutral(latency'));
  }
}
