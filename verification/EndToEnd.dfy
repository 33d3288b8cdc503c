/**
 Detection on a prediction: what predict guarantees is what detect_anomalies relies on.
 */
module EndToEnd {
  import opened Prelude
  import opened Rounding
  import opened MemBuckets
  import Predictions
  import Detection = AnomalyDetection

  // ---------------------------------------------------------------- scoring

  /** 2 * cdf(...) - 1 for bucket i and what was observed there: the foreign part of a score. */
  type Distribution = (nat, real) -> Value

  /** What the normal distribution can give: a NaN, or a number in [0, 1]. */
  ghost predicate IsDistribution(dist: Distribution) {
    forall i: nat, v: real :: dist(i, v).Num? ==> 0.0 <= dist(i, v).v <= 1.0
  }

  function Difference(a: Value, b: Value): Value {
    if a.Num? && b.Num? then Num(a.v - b.v) else NaN
  }

  function Unit(dist: Distribution, i: nat, observed: Value): Value {
    if observed.Num? then dist(i, observed.v) else NaN
  }

  /** compute_scores for one bucket of a prediction. */
  function ScoredBucket(p: Predictions.Prediction, kind: Detection.AnomalyType, dist: Distribution, i: nat): Detection.Bucket
    requires i < |p.timestamps| == |p.observed| == |p.predicted|
  {
    var diff := Difference(p.observed[i], p.predicted[i]);
    var unit := Unit(dist, i, p.observed[i]);
    Detection.ScoreIsBounded(diff, unit, kind);
    Detection.Bucket(
      p.timestamps[i] as real,
      Detection.BucketScore(diff, unit, kind).v,
      if diff.NaN? then None else Some(diff.v * diff.v),
      Detection.Less(p.observed[i], p.predicted[i]))
  }

  /** The buckets detect_anomalies runs over. */
  function Scored(p: Predictions.Prediction, kind: Detection.AnomalyType, dist: Distribution): (bs: seq<Detection.Bucket>)
    requires |p.timestamps| == |p.observed| == |p.predicted|
    ensures |bs| == |p.timestamps|
  {
    seq(|p.timestamps|, i requires 0 <= i < |p.timestamps| => ScoredBucket(p, kind, dist, i))
  }

  /** What becomes of observation o, prediction q and the p that the distribution gives for them: the
      score is 100 * p if the deviation is on a side the feature looks for, zero otherwise; the
      bucket is below if o is less than q, and its error is the square of the deviation. */
  lemma ScoreOfObservation(p: Predictions.Prediction, kind: Detection.AnomalyType, dist: Distribution, i: nat)
    requires i < |p.timestamps| == |p.observed| == |p.predicted| && IsDistribution(dist)
    requires p.observed[i].Num? && p.predicted[i].Num?
    ensures var b := Scored(p, kind, dist)[i];
      var o, q, unit := p.observed[i].v, p.predicted[i].v, dist(i, p.observed[i].v);
      && b.ts == p.timestamps[i] as real
      && (b.below <==> o < q)
      && b.mse.Some? && b.mse.value == (o - q) * (o - q)
      && (unit.NaN? ==> b.score == 100.0)
      && (unit.Num? && (kind.LowHigh? || (kind.OnlyLow? && o < q) || (kind.OnlyHigh? && o >= q)) ==> b.score == 100.0 * unit.v)
      && (unit.Num? && ((kind.OnlyLow? && o >= q) || (kind.OnlyHigh? && o < q)) ==> b.score == 0.0)
  {
    var o, q, diff := p.observed[i].v, p.predicted[i].v, Difference(p.observed[i], p.predicted[i]);
    assert diff.v * diff.v == (o - q) * (o - q);
    Detection.ScoreIsBounded(Difference(p.observed[i], p.predicted[i]), Unit(dist, i, p.observed[i]), kind);
  }

  /** Without an observation or a prediction there is no error, and the bucket is not below. */
  lemma ErrorOfMissing(p: Predictions.Prediction, kind: Detection.AnomalyType, dist: Distribution, i: nat)
    requires i < |p.timestamps| == |p.observed| == |p.predicted|
    requires p.observed[i].NaN? || p.predicted[i].NaN?
    ensures Scored(p, kind, dist)[i].mse == None && !Scored(p, kind, dist)[i].below
    ensures p.observed[i].NaN? ==> Scored(p, kind, dist)[i].score == 100.0
    ensures Scored(p, kind, dist)[i].ts == p.timestamps[i] as real
  {
    Detection.ScoreIsBounded(Difference(p.observed[i], p.predicted[i]), Unit(dist, i, p.observed[i]), kind);
  }

  /** A score above zero means a deviation in the direction looked for, if the distribution gives a
      number; otherwise the score is 100, and a missing observation counts as high. */
  lemma ScoreAndDirection(p: Predictions.Prediction, kind: Detection.AnomalyType, dist: Distribution, i: nat)
    requires i < |p.timestamps| == |p.observed| == |p.predicted| && IsDistribution(dist)
    ensures var b := ScoredBucket(p, kind, dist, i);
      && (Unit(dist, i, p.observed[i]).NaN? ==> b.score == 100.0)
      && (p.observed[i].NaN? ==> b.score == 100.0 && Detection.DirectionOf(b) == Detection.High)
      && (Unit(dist, i, p.observed[i]).Num? && b.score > 0.0 ==>
            && (kind.OnlyLow? ==> Detection.DirectionOf(b) == Detection.Low)
            && (kind.OnlyHigh? ==> Detection.DirectionOf(b) == Detection.High))
  {
    Detection.ScoreIsBounded(Difference(p.observed[i], p.predicted[i]), Unit(dist, i, p.observed[i]), kind);
  }

  // ---------------------------------------------------------------- detection

  lemma PredictionIsInTimeOrder(
      m: Predictions.Model, h: seq<Value>, from: int, n: nat, p: Predictions.Prediction,
      kind: Detection.AnomalyType, dist: Distribution)
    requires Predictions.IsPrediction(m, h, from, n, p)
    ensures Detection.Nondecreasing(from as real, Scored(p, kind, dist))
    ensures forall i :: 0 <= i < n ==> Scored(p, kind, dist)[i].ts <= (from + n * m.interval) as real
  {
    hide Detection.BucketScore;
    var bs := Scored(p, kind, dist);
    forall i, j | 0 <= i <= j < |bs|
      ensures from as real <= bs[i].ts <= bs[j].ts <= (from + n * m.interval) as real
    {
      MultiplyMonotone(0, i, m.interval);
      MultiplyMonotone(i, j, m.interval);
      MultiplyMonotone(j, n, m.interval);
    }
  }

  /** Detection over any scored prediction, by a model that starts afresh or carries on a coherent
      state: the hooks are told exactly the episodes, the recorded score is the highest of the open
      one, and no anomaly is open in a grace period. */
  lemma DetectionOnPrediction(
      m: Predictions.Model, h: seq<Value>, from: int, n: nat, p: Predictions.Prediction,
      kind: Detection.AnomalyType, dist: Distribution, c: Detection.Thresholds, s: Detection.State)
    requires Predictions.IsPrediction(m, h, from, n, p) && Detection.Coherent(c, s, from as real)
    ensures var bs := Scored(p, kind, dist);
      forall fired :: Detection.IsTrace(c, s, bs, fired) <==> fired == Detection.Fired(c, s, bs)
    ensures var bs := Scored(p, kind, dist); var t := Detection.StateAfter(c, s, bs);
      t.anomaly.Some? ==> Detection.IsPeak(s, bs, Detection.Fired(c, s, bs), t.anomaly.value.maxScore)
    ensures forall t: real :: t >= (from + n * m.interval) as real ==>
      Detection.Coherent(c, Detection.StateAfter(c, s, Scored(p, kind, dist)), t)
  {
    hide Detection.IsTrace, Detection.IsPeak, Detection.StateAfter, Detection.Fired, Detection.Coherent, ScoredBucket;
    var bs := Scored(p, kind, dist);
    PredictionIsInTimeOrder(m, h, from, n, p, kind, dist);
    Detection.RecordedScoreIsPeak(c, s, from as real, bs);
    forall fired
      ensures Detection.IsTrace(c, s, bs, fired) <==> fired == Detection.Fired(c, s, bs)
    {
      Detection.TraceIsExact(c, s, from as real, bs, fired);
    }
    forall t: real | t >= (from + n * m.interval) as real
      ensures Detection.Coherent(c, Detection.StateAfter(c, s, bs), t)
    {
      MultiplyMonotone(0, n, m.interval);
      Detection.NeverOpenInGrace(c, s, from as real, bs, t);
    }
  }

  /** Every start a hook is told is at a bucket of the prediction, and in the direction the feature
      looks for, unless the distribution gave no number there. */
  lemma StartsHaveTheDirection(
      p: Predictions.Prediction, kind: Detection.AnomalyType, dist: Distribution,
      c: Detection.Thresholds, s: Detection.State, j: nat)
    requires |p.timestamps| == |p.observed| == |p.predicted| && IsDistribution(dist) && c.max > 0.0
    requires var events := Detection.Events(c, s, Scored(p, kind, dist)); j < |events| && events[j].Start?
    ensures var e := Detection.Events(c, s, Scored(p, kind, dist))[j];
      exists i :: 0 <= i < |p.timestamps| && e.ts == p.timestamps[i] as real && e.score >= c.max &&
        (Unit(dist, i, p.observed[i]).Num? ==>
           && (kind.OnlyLow? ==> e.direction == Detection.Low)
           && (kind.OnlyHigh? ==> e.direction == Detection.High))
  {
    hide Detection.Events, Detection.Fired, ScoredBucket, Unit, IsDistribution;
    var bs := Scored(p, kind, dist);
    var fired, events := Detection.Fired(c, s, bs), Detection.Events(c, s, bs);
    Detection.EventsAreFired(c, s, bs);
    var i := fired[j];
    assert events[j] == Detection.EventAt(bs[i], false);
    Detection.StartsAreHigh(c, s, bs, j);
    ScoreAndDirection(p, kind, dist, i);
    assert bs[i] == ScoredBucket(p, kind, dist, i);
    TimeOfScored(p, kind, dist, i);
  }

  lemma TimeOfScored(p: Predictions.Prediction, kind: Detection.AnomalyType, dist: Distribution, i: nat)
    requires i < |p.timestamps| == |p.observed| == |p.predicted|
    ensures ScoredBucket(p, kind, dist, i).ts == p.timestamps[i] as real
  {
  }

  /** A bucket without an observation is an anomaly unless it falls between episodes and within the
      grace period, and one of type high, whatever the feature looks for. */
  lemma MissingObservationIsAnomalous(
      m: Predictions.Model, h: seq<Value>, from: int, n: nat, p: Predictions.Prediction,
      kind: Detection.AnomalyType, dist: Distribution, c: Detection.Thresholds, s: Detection.State, i: nat)
    requires Predictions.IsPrediction(m, h, from, n, p) && Detection.Coherent(c, s, from as real)
    requires i < n && p.observed[i].NaN? && c.max <= 100.0
    ensures var bs := Scored(p, kind, dist);
      var fired := Detection.Fired(c, s, bs[..i]);
      var anomalous := Detection.Open(s, |fired|) ||
        bs[i].ts - Detection.Since(s, bs[..i], fired, |fired|) >= c.gracePeriod;
      && |Detection.Stats(c, s, bs)| == n
      && Detection.Stats(c, s, bs)[i].anomaly == anomalous
      && (anomalous ==> Detection.Stats(c, s, bs)[i].direction == Some(Detection.High))
  {
    hide Detection.Stats, Detection.Fired, Detection.Coherent, Detection.Nondecreasing, Detection.Indices;
    var bs := Scored(p, kind, dist);
    PredictionIsInTimeOrder(m, h, from, n, p, kind, dist);
    Detection.StatsDescribeBuckets(c, s, from as real, bs, i);
    Detection.ScoreIsBounded(Difference(p.observed[i], p.predicted[i]), NaN, kind);
  }
}
