/**
 The anomaly hysteresis machine: DonutModel.detect_anomalies in loudml/donut.py.

 Two thresholds and a grace period drive a persistent state, bucket by bucket. The machine is
 specified by functions over a run of buckets, the method of class DonutModel is proved to
 refine them, and an independent description of the hook events (IsTrace) is proved to be
 satisfied by the run and by nothing else.
 */
module AnomalyDetection {
  import opened Prelude

  // ---------------------------------------------------------------- scores

  datatype AnomalyType = OnlyLow | OnlyHigh | LowHigh

  type Score = r: real | 0.0 <= r <= 100.0 witness 0.0

  predicate Less(a: Value, b: Value) {
    a.Num? && b.Num? && a.v < b.v
  }

  // Python's min and max keep their first argument unless the second one compares strictly
  // beyond it, which a NaN never does.
  function PyMin(a: Value, b: Value): Value { if Less(b, a) then b else a }

  function PyMax(a: Value, b: Value): Value { if Less(a, b) then b else a }

  function Negate(a: Value): Value { if a.NaN? then NaN else Num(-a.v) }

  function Abs(a: Value): Value { if a.Num? && a.v < 0.0 then Num(-a.v) else a }

  /** compute_bucket_scores, after the normal distribution: `p` is 2 * cdf(...) - 1. */
  function BucketScore(diff: Value, p: Value, kind: AnomalyType): (score: Value) {
    var signed := if Less(diff, Num(0.0)) then Negate(p) else p;
    var sided := match kind
      case OnlyLow => Negate(PyMin(signed, Num(0.0)))
      case OnlyHigh => PyMax(signed, Num(0.0))
      case LowHigh => Abs(signed);
    var unit := PyMax(Num(0.0), PyMin(Num(1.0), sided));
    if unit.NaN? then NaN else Num(100.0 * unit.v)
  }

  /** Whatever the foreign numerics return, the score is a number in [0, 100], never a NaN, and
      a missing observation (which makes p a NaN) gets the highest score there is. */
  lemma ScoreIsBounded(diff: Value, p: Value, kind: AnomalyType)
    ensures var score := BucketScore(diff, p, kind); score.Num? && 0.0 <= score.v <= 100.0
    ensures p.NaN? ==> BucketScore(diff, p, kind) == Num(100.0)
    ensures p.Num? && 0.0 <= p.v <= 1.0 ==>
      var hit := kind.LowHigh? || kind.OnlyLow? == Less(diff, Num(0.0));
      BucketScore(diff, p, kind) == Num(if hit then 100.0 * p.v else 0.0)
  {
  }

  // ---------------------------------------------------------------- the machine

  datatype Thresholds = Thresholds(min: real, max: real, gracePeriod: real)

  /** One predicted bucket, as detect_anomalies reads it. */
  datatype Bucket = Bucket(ts: real, score: Score, mse: Option<real>, below: bool)

  datatype Anomaly = Anomaly(startTs: real, maxScore: real)

  datatype State = State(anomaly: Option<Anomaly>, lastAnomalyTs: real)

  datatype Direction = Low | High

  /** What a hook is told. */
  datatype Event = Start(ts: real, score: real, direction: Direction) | End(ts: real, score: real)

  datatype Stat = Stat(mse: Option<real>, score: real, anomaly: bool, direction: Option<Direction>)

  predicate InGracePeriod(c: Thresholds, s: State, ts: real) {
    ts - s.lastAnomalyTs < c.gracePeriod
  }

  predicate Flagged(c: Thresholds, s: State, b: Bucket) {
    !InGracePeriod(c, s, b.ts) && b.score >= c.max
  }

  function DirectionOf(b: Bucket): Direction { if b.below then Low else High }

  function Next(c: Thresholds, s: State, b: Bucket): State {
    match s.anomaly
    case None =>
      if Flagged(c, s, b) then s.(anomaly := Some(Anomaly(b.ts, Max(0.0, b.score)))) else s
    case Some(a) =>
      if Flagged(c, s, b) then s.(anomaly := Some(a.(maxScore := Max(a.maxScore, Max(0.0, b.score)))))
      else if b.score < c.min then State(None, b.ts)
      else s
  }

  /** The calls made on every hook at bucket b: at most one. */
  function Notified(c: Thresholds, s: State, b: Bucket): seq<Event> {
    if s.anomaly.None? && Flagged(c, s, b) then [Start(b.ts, Max(0.0, b.score), DirectionOf(b))]
    else if s.anomaly.Some? && !Flagged(c, s, b) && b.score < c.min then [End(b.ts, Max(0.0, b.score))]
    else []
  }

  function StatOf(c: Thresholds, s: State, b: Bucket): Stat {
    Stat(b.mse, Max(0.0, b.score), Flagged(c, s, b), if Flagged(c, s, b) then Some(DirectionOf(b)) else None)
  }

  // ---------------------------------------------------------------- runs

  function StateAfter(c: Thresholds, s: State, bs: seq<Bucket>): State {
    if bs == [] then s else Next(c, StateAfter(c, s, bs[..|bs| - 1]), bs[|bs| - 1])
  }

  function Events(c: Thresholds, s: State, bs: seq<Bucket>): seq<Event> {
    if bs == [] then [] else
      var before := bs[..|bs| - 1];
      Events(c, s, before) + Notified(c, StateAfter(c, s, before), bs[|bs| - 1])
  }

  function Stats(c: Thresholds, s: State, bs: seq<Bucket>): seq<Stat> {
    if bs == [] then [] else
      var before := bs[..|bs| - 1];
      Stats(c, s, before) + [StatOf(c, StateAfter(c, s, before), bs[|bs| - 1])]
  }

  function Completed(positions: seq<nat>, n: nat, more: bool): seq<nat> {
    if more then positions + [n] else positions
  }

  function Indices(c: Thresholds, s: State, bs: seq<Bucket>): seq<nat> {
    if bs == [] then [] else
      var before := bs[..|bs| - 1];
      Completed(Indices(c, s, before), |bs| - 1, Flagged(c, StateAfter(c, s, before), bs[|bs| - 1]))
  }

  /** Positions below n, in increasing order. */
  ghost predicate Increasing(positions: seq<nat>, n: nat) {
    && (forall k :: 0 <= k < |positions| ==> positions[k] < n)
    && forall j, k :: 0 <= j < k < |positions| ==> positions[j] < positions[k]
  }

  /** The positions of the buckets at which the hooks are called. */
  ghost function Fired(c: Thresholds, s: State, bs: seq<Bucket>): (fired: seq<nat>)
    ensures Increasing(fired, |bs|)
  {
    if bs == [] then [] else
      var before := bs[..|bs| - 1];
      Completed(Fired(c, s, before), |bs| - 1, Notified(c, StateAfter(c, s, before), bs[|bs| - 1]) != [])
  }

  function Shifted(xs: seq<nat>, offset: nat): seq<nat> {
    seq(|xs|, k requires 0 <= k < |xs| => xs[k] + offset)
  }

  lemma {:induction false} SplitState(c: Thresholds, s: State, a: seq<Bucket>, b: seq<Bucket>)
    ensures StateAfter(c, s, a + b) == StateAfter(c, StateAfter(c, s, a), b)
  {
    if b == [] {
      assert a + b == a;
    } else {
      assert (a + b)[..|a + b| - 1] == a + b[..|b| - 1];
      SplitState(c, s, a, b[..|b| - 1]);
    }
  }

  lemma {:induction false} SplitEvents(c: Thresholds, s: State, a: seq<Bucket>, b: seq<Bucket>)
    ensures Events(c, s, a + b) == Events(c, s, a) + Events(c, StateAfter(c, s, a), b)
  {
    if b == [] {
      assert a + b == a;
    } else {
      var b' := b[..|b| - 1];
      assert (a + b)[..|a + b| - 1] == a + b';
      SplitEvents(c, s, a, b');
      SplitState(c, s, a, b');
    }
  }

  lemma {:induction false} SplitStats(c: Thresholds, s: State, a: seq<Bucket>, b: seq<Bucket>)
    ensures Stats(c, s, a + b) == Stats(c, s, a) + Stats(c, StateAfter(c, s, a), b)
  {
    if b == [] {
      assert a + b == a;
    } else {
      var b' := b[..|b| - 1];
      assert (a + b)[..|a + b| - 1] == a + b';
      SplitStats(c, s, a, b');
      SplitState(c, s, a, b');
    }
  }

  lemma {:induction false} SplitIndices(c: Thresholds, s: State, a: seq<Bucket>, b: seq<Bucket>)
    ensures Indices(c, s, a + b) == Indices(c, s, a) + Shifted(Indices(c, StateAfter(c, s, a), b), |a|)
  {
    if b == [] {
      assert a + b == a;
    } else {
      var b' := b[..|b| - 1];
      assert (a + b)[..|a + b| - 1] == a + b';
      SplitIndices(c, s, a, b');
      SplitState(c, s, a, b');
    }
  }

  /** Splitting is invisible: one run over a + b is a run over a followed, from the state it
      leaves behind, by a run over b. */
  lemma SplitRun(c: Thresholds, s: State, a: seq<Bucket>, b: seq<Bucket>)
    ensures var t := StateAfter(c, s, a);
      && StateAfter(c, s, a + b) == StateAfter(c, t, b)
      && Events(c, s, a + b) == Events(c, s, a) + Events(c, t, b)
      && Stats(c, s, a + b) == Stats(c, s, a) + Stats(c, t, b)
      && Indices(c, s, a + b) == Indices(c, s, a) + Shifted(Indices(c, t, b), |a|)
  {
    SplitState(c, s, a, b);
    SplitEvents(c, s, a, b);
    SplitStats(c, s, a, b);
    SplitIndices(c, s, a, b);
  }

  /** anomaly_indices is the increasing list of exactly the flagged positions. */
  lemma {:induction false} IndicesAreFlagged(c: Thresholds, s: State, bs: seq<Bucket>)
    ensures |Stats(c, s, bs)| == |bs|
    ensures forall i :: 0 <= i < |bs| ==> (i in Indices(c, s, bs) <==> Stats(c, s, bs)[i].anomaly)
    ensures Increasing(Indices(c, s, bs), |bs|)
  {
    if bs == [] {
    } else {
      IndicesAreFlagged(c, s, bs[..|bs| - 1]);
    }
  }

  // ---------------------------------------------------------------- the invariant

  /** Timestamps never go back, and none is before `from`. */
  ghost predicate Nondecreasing(from: real, bs: seq<Bucket>) {
    && (forall i :: 0 <= i < |bs| ==> from <= bs[i].ts)
    && forall i, j :: 0 <= i < j < |bs| ==> bs[i].ts <= bs[j].ts
  }

  /** An open anomaly is outside the grace period at time t, and its recorded score is at least
      the threshold that opened it. The state of a new model is coherent at any time. */
  ghost predicate Coherent(c: Thresholds, s: State, t: real) {
    s.anomaly.Some? ==> !InGracePeriod(c, s, t) && s.anomaly.value.maxScore >= c.max
  }

  /** No run in time order ever has an anomaly open during a grace period. */
  lemma {:induction false} NeverOpenInGrace(c: Thresholds, s: State, from: real, bs: seq<Bucket>, t: real)
    requires Coherent(c, s, from) && Nondecreasing(from, bs)
    requires from <= t && forall i :: 0 <= i < |bs| ==> bs[i].ts <= t
    ensures Coherent(c, StateAfter(c, s, bs), t)
  {
    if bs == [] {
    } else {
      NeverOpenInGrace(c, s, from, bs[..|bs| - 1], bs[|bs| - 1].ts);
    }
  }

  // ---------------------------------------------------------------- what the hooks see

  /** Whether an anomaly is open once j events have happened. */
  ghost predicate Open(s: State, j: nat) {
    if j == 0 then s.anomaly.Some? else !Open(s, j - 1)
  }

  /** The time of the j-th event's predecessor; the preceding end when no anomaly is open. */
  ghost function Since(s: State, bs: seq<Bucket>, fired: seq<nat>, j: nat): real
    requires j <= |fired| && Increasing(fired, |bs|)
  {
    if j == 0 then s.lastAnomalyTs else bs[fired[j - 1]].ts
  }

  /** The rule of an episode: an open anomaly ends on a score below both thresholds, a new one
      starts on a score at the upper threshold, a grace period after the preceding end. */
  ghost predicate Eligible(c: Thresholds, open: bool, since: real, b: Bucket) {
    if open then b.score < c.min && b.score < c.max
    else b.score >= c.max && b.ts - since >= c.gracePeriod
  }

  /** The first position the j-th event can have. */
  ghost function Low0(fired: seq<nat>, j: nat): nat
    requires j <= |fired|
  {
    if j == 0 then 0 else fired[j - 1] + 1
  }

  /** The last position looked at for the j-th event: its own, or the end of the run. */
  ghost function High0(fired: seq<nat>, n: nat, j: nat): nat
    requires j <= |fired|
  {
    if j == |fired| then n else fired[j]
  }

  /** The j-th event is at the first eligible position after its predecessor; after the last
      event no position is eligible. */
  ghost predicate Turn(c: Thresholds, s: State, bs: seq<Bucket>, fired: seq<nat>, j: nat)
    requires j <= |fired| && Increasing(fired, |bs|)
  {
    var open, since := Open(s, j), Since(s, bs, fired, j);
    && (j < |fired| ==> Eligible(c, open, since, bs[fired[j]]))
    && forall i :: Low0(fired, j) <= i < High0(fired, |bs|, j) ==> !Eligible(c, open, since, bs[i])
  }

  /** `fired` lists the positions of the hook events of a run over bs, as the rule has them. */
  ghost predicate IsTrace(c: Thresholds, s: State, bs: seq<Bucket>, fired: seq<nat>) {
    && Increasing(fired, |bs|)
    && forall j :: 0 <= j <= |fired| ==> Turn(c, s, bs, fired, j)
  }

  /** State t is what events at the `fired` positions lead to: as many as it takes for an anomaly
      to be open or not, the last one starting it or ending the one before. */
  ghost predicate Matches(s: State, bs: seq<Bucket>, fired: seq<nat>, t: State)
    requires Increasing(fired, |bs|)
  {
    var since := Since(s, bs, fired, |fired|);
    && t.anomaly.Some? == Open(s, |fired|)
    && (t.anomaly.None? ==> t.lastAnomalyTs == since)
    && (t.anomaly.Some? && fired != [] ==> t.anomaly.value.startTs == since)
    && (t.anomaly.Some? && fired == [] ==> s.anomaly.Some? && t.anomaly.value.startTs == s.anomaly.value.startTs)
  }

  lemma MatchesNext(c: Thresholds, s: State, bs: seq<Bucket>, fired: seq<nat>, t: State)
    requires bs != [] && Increasing(fired, |bs| - 1) && Matches(s, bs[..|bs| - 1], fired, t)
    ensures var n := |bs| - 1;
      Matches(s, bs, Completed(fired, n, Notified(c, t, bs[n]) != []), Next(c, t, bs[n]))
  {
    var n := |bs| - 1;
    assert Since(s, bs, fired, |fired|) == Since(s, bs[..n], fired, |fired|);
    assert Since(s, bs, fired + [n], |fired| + 1) == bs[n].ts;
  }

  /** The state after a run tells how many events there were, and when the last one was. */
  lemma {:induction false} StateMatchesEvents(c: Thresholds, s: State, bs: seq<Bucket>)
    ensures Matches(s, bs, Fired(c, s, bs), StateAfter(c, s, bs))
  {
    if bs == [] {
    } else {
      var before := bs[..|bs| - 1];
      StateMatchesEvents(c, s, before);
      MatchesNext(c, s, bs, Fired(c, s, before), StateAfter(c, s, before));
    }
  }

  ghost function EventAt(b: Bucket, open: bool): Event {
    if open then End(b.ts, b.score) else Start(b.ts, b.score, DirectionOf(b))
  }

  /** The events are those of the `fired` buckets: ends when an anomaly is open, starts otherwise. */
  ghost predicate AreFired(s: State, bs: seq<Bucket>, fired: seq<nat>, events: seq<Event>)
    requires Increasing(fired, |bs|)
  {
    && |events| == |fired|
    && forall j :: 0 <= j < |fired| ==> events[j] == EventAt(bs[fired[j]], Open(s, j))
  }

  lemma AreFiredNext(c: Thresholds, s: State, bs: seq<Bucket>, fired: seq<nat>, events: seq<Event>, t: State)
    requires bs != [] && Increasing(fired, |bs| - 1) && AreFired(s, bs[..|bs| - 1], fired, events)
    requires t.anomaly.Some? == Open(s, |fired|)
    ensures var n := |bs| - 1; var told := Notified(c, t, bs[n]);
      AreFired(s, bs, Completed(fired, n, told != []), events + told)
  {
    var n := |bs| - 1;
    var told := Notified(c, t, bs[n]);
    assert told == [] || told == [EventAt(bs[n], Open(s, |fired|))];
    assert events + [] == events;
  }

  /** What a hook is told is fixed by the fired positions: starts and ends alternate, each with
      the time and the score of its bucket. */
  lemma {:induction false} EventsAreFired(c: Thresholds, s: State, bs: seq<Bucket>)
    ensures AreFired(s, bs, Fired(c, s, bs), Events(c, s, bs))
  {
    if bs == [] {
    } else {
      var before := bs[..|bs| - 1];
      StateMatchesEvents(c, s, before);
      EventsAreFired(c, s, before);
      AreFiredNext(c, s, bs, Fired(c, s, before), Events(c, s, before), StateAfter(c, s, before));
    }
  }

  /** One bucket more: it is the next event exactly when the rule makes it eligible. */
  lemma FiresWhenEligible(c: Thresholds, s: State, from: real, bs: seq<Bucket>)
    requires bs != [] && Coherent(c, s, from) && Nondecreasing(from, bs)
    ensures var before, last := bs[..|bs| - 1], bs[|bs| - 1];
      var fired := Fired(c, s, before);
      Fired(c, s, bs) ==
        Completed(fired, |before|, Eligible(c, Open(s, |fired|), Since(s, before, fired, |fired|), last))
  {
    var before, last := bs[..|bs| - 1], bs[|bs| - 1];
    StateMatchesEvents(c, s, before);
    NeverOpenInGrace(c, s, from, before, last.ts);
  }

  /** Looking at one bucket more does not change the turns already taken. */
  lemma TurnTaken(c: Thresholds, s: State, bs: seq<Bucket>, f: seq<nat>, t: seq<nat>, j: nat)
    requires bs != [] && Increasing(f, |bs| - 1) && Increasing(t, |bs|) && f <= t && j < |f|
    ensures Turn(c, s, bs, t, j) == Turn(c, s, bs[..|bs| - 1], f, j)
  {
    var before := bs[..|bs| - 1];
    assert Since(s, bs, t, j) == Since(s, before, f, j);
    assert Low0(t, j) == Low0(f, j) && High0(t, |bs|, j) == High0(f, |before|, j);
  }

  /** The last bucket decides the turn that was open: it takes it, or leaves it open. */
  lemma TurnDecided(c: Thresholds, s: State, bs: seq<Bucket>, f: seq<nat>, t: seq<nat>)
    requires bs != [] && Increasing(f, |bs| - 1) && (t == f || t == f + [|bs| - 1])
    ensures var before, last := bs[..|bs| - 1], bs[|bs| - 1];
      Increasing(t, |bs|) &&
      (Turn(c, s, bs, t, |f|) <==>
        && Turn(c, s, before, f, |f|)
        && Eligible(c, Open(s, |f|), Since(s, before, f, |f|), last) == (t != f))
  {
    var before := bs[..|bs| - 1];
    assert Since(s, bs, t, |f|) == Since(s, before, f, |f|);
    assert Low0(t, |f|) == Low0(f, |f|) <= |before|;
    if t == f {
      assert Turn(c, s, bs, t, |f|) ==> !Eligible(c, Open(s, |f|), Since(s, bs, t, |f|), bs[|before|]);
    }
  }

  /** A list of positions is a trace of one bucket more exactly when it was a trace without it and
      the rule makes the last bucket eligible if, and only if, the list contains it. */
  lemma TraceExtends(c: Thresholds, s: State, bs: seq<Bucket>, f: seq<nat>, t: seq<nat>)
    requires bs != [] && Increasing(f, |bs| - 1) && (t == f || t == f + [|bs| - 1])
    ensures IsTrace(c, s, bs, t) <==>
      && IsTrace(c, s, bs[..|bs| - 1], f)
      && Eligible(c, Open(s, |f|), Since(s, bs[..|bs| - 1], f, |f|), bs[|bs| - 1]) == (t != f)
  {
    var before := bs[..|bs| - 1];
    TurnDecided(c, s, bs, f, t);
    if IsTrace(c, s, bs, t) {
      forall j | 0 <= j <= |f|
        ensures Turn(c, s, before, f, j)
      {
        assert Turn(c, s, bs, t, j);
        if j < |f| { TurnTaken(c, s, bs, f, t, j); }
      }
    }
    if IsTrace(c, s, before, f) && Turn(c, s, bs, t, |f|) {
      forall j | 0 <= j <= |t|
        ensures Turn(c, s, bs, t, j)
      {
        if j < |f| { TurnTaken(c, s, bs, f, t, j); }
      }
    }
  }

  /** The positions of a list below n. */
  ghost function Without(t: seq<nat>, n: nat): seq<nat> {
    if t != [] && t[|t| - 1] == n then t[..|t| - 1] else t
  }

  lemma CompletedOnlyOneWay(all: seq<nat>, t: seq<nat>, n: nat, more: bool)
    requires Increasing(all, n) && Increasing(t, n + 1)
    ensures var f := Without(t, n);
      && Increasing(f, n)
      && (t == f || t == f + [n])
      && (t == Completed(all, n, more) <==> f == all && more == (t != f))
  {
    var f := Without(t, n);
    assert t == f || t == f + [n];
    assert |t| == |f| <==> t == f;
    assert Without(all, n) == all && Without(all + [n], n) == all;
  }

  /** If `all` is the only trace without the last bucket, completing it as the rule says gives the
      only trace with it. */
  lemma TraceStep(c: Thresholds, s: State, bs: seq<Bucket>, all: seq<nat>, t: seq<nat>)
    requires bs != [] && Increasing(all, |bs| - 1) && Increasing(t, |bs|)
    requires IsTrace(c, s, bs[..|bs| - 1], Without(t, |bs| - 1)) <==> Without(t, |bs| - 1) == all
    ensures var more := Eligible(c, Open(s, |all|), Since(s, bs[..|bs| - 1], all, |all|), bs[|bs| - 1]);
      IsTrace(c, s, bs, t) <==> t == Completed(all, |bs| - 1, more)
  {
    var more := Eligible(c, Open(s, |all|), Since(s, bs[..|bs| - 1], all, |all|), bs[|bs| - 1]);
    CompletedOnlyOneWay(all, t, |bs| - 1, more);
    TraceExtends(c, s, bs, Without(t, |bs| - 1), t);
  }

  /** The hook events of a run in time order are exactly the episodes: the run satisfies the
      independent description, and nothing else does. */
  lemma {:induction false} TraceIsExact(c: Thresholds, s: State, from: real, bs: seq<Bucket>, fired: seq<nat>)
    requires Coherent(c, s, from) && Nondecreasing(from, bs)
    ensures IsTrace(c, s, bs, fired) <==> fired == Fired(c, s, bs)
  {
    if bs == [] {
      assert fired == [] || fired[0] >= |bs|;
    } else if Increasing(fired, |bs|) {
      var before := bs[..|bs| - 1];
      TraceIsExact(c, s, from, before, Without(fired, |bs| - 1));
      FiresWhenEligible(c, s, from, bs);
      TraceStep(c, s, bs, Fired(c, s, before), fired);
    }
  }

  /** What the j-th event of a hook says: starts and ends alternate, a start is at the upper
      threshold and at least a grace period after the preceding end, an end is below both
      thresholds. */
  ghost predicate InOrder(c: Thresholds, s: State, events: seq<Event>, j: nat)
    requires j < |events|
  {
    var e := events[j];
    && e.Start? == (if j == 0 then s.anomaly.None? else events[j - 1].End?)
    && (e.Start? ==> e.score >= c.max)
    && (e.Start? ==> e.ts - (if j == 0 then s.lastAnomalyTs else events[j - 1].ts) >= c.gracePeriod)
    && (e.End? ==> e.score < c.min && e.score < c.max)
  }

  lemma EventInOrder(c: Thresholds, s: State, bs: seq<Bucket>, fired: seq<nat>, events: seq<Event>, j: nat)
    requires Increasing(fired, |bs|) && AreFired(s, bs, fired, events) && j < |events|
    requires Turn(c, s, bs, fired, j)
    ensures InOrder(c, s, events, j)
  {
    assert events[j] == EventAt(bs[fired[j]], Open(s, j));
    if j > 0 {
      assert events[j - 1] == EventAt(bs[fired[j - 1]], Open(s, j - 1));
    }
  }

  /** The consequence for one hook. */
  lemma HookEventsInOrder(c: Thresholds, s: State, from: real, bs: seq<Bucket>)
    requires Coherent(c, s, from) && Nondecreasing(from, bs)
    ensures forall j :: 0 <= j < |Events(c, s, bs)| ==> InOrder(c, s, Events(c, s, bs), j)
  {
    var fired, events := Fired(c, s, bs), Events(c, s, bs);
    TraceIsExact(c, s, from, bs, fired);
    EventsAreFired(c, s, bs);
    forall j | 0 <= j < |events|
      ensures InOrder(c, s, events, j)
    {
      EventInOrder(c, s, bs, fired, events, j);
    }
  }

  /** A start is told at a score that reaches the upper threshold, in any order of the buckets. */
  lemma {:induction false} StartsAreHigh(c: Thresholds, s: State, bs: seq<Bucket>, j: nat)
    requires j < |Events(c, s, bs)| && Events(c, s, bs)[j].Start?
    ensures Events(c, s, bs)[j].score >= c.max
  {
    if bs == [] {
    } else {
      var before := Events(c, s, bs[..|bs| - 1]);
      if j < |before| {
        StartsAreHigh(c, s, bs[..|bs| - 1], j);
      }
    }
  }

  /** A bucket counts as an anomaly when its score reaches the upper threshold, unless it falls
      between episodes and within the grace period. */
  ghost predicate IsAnomalous(c: Thresholds, s: State, bs: seq<Bucket>, i: nat)
    requires i < |bs|
  {
    var before := bs[..i];
    var fired := Fired(c, s, before);
    bs[i].score >= c.max && (Open(s, |fired|) || bs[i].ts - Since(s, before, fired, |fired|) >= c.gracePeriod)
  }

  /** Each statistic repeats its bucket's scores and says whether the bucket is anomalous, in
      which direction; anomaly_indices lists the anomalous ones. */
  lemma StatsDescribeBuckets(c: Thresholds, s: State, from: real, bs: seq<Bucket>, i: nat)
    requires Coherent(c, s, from) && Nondecreasing(from, bs) && i < |bs|
    ensures |Stats(c, s, bs)| == |bs|
    ensures var anomalous := IsAnomalous(c, s, bs, i);
      && Stats(c, s, bs)[i] ==
           Stat(bs[i].mse, bs[i].score, anomalous, if anomalous then Some(DirectionOf(bs[i])) else None)
      && (i in Indices(c, s, bs) <==> anomalous)
  {
    hide Indices, IsAnomalous;
    IndicesAreFlagged(c, s, bs);
    StatAt(c, s, bs, i);
    FlaggedIsAnomalous(c, s, from, bs, i);
  }

  lemma {:induction false} StatAt(c: Thresholds, s: State, bs: seq<Bucket>, i: nat)
    requires i < |bs|
    ensures |Stats(c, s, bs)| == |bs| && Stats(c, s, bs)[i] == StatOf(c, StateAfter(c, s, bs[..i]), bs[i])
    decreases |bs|
  {
    hide StateAfter, StatOf, Indices;
    IndicesAreFlagged(c, s, bs);
    var n := |bs| - 1;
    if i < n {
      StatAt(c, s, bs[..n], i);
      assert bs[..n][..i] == bs[..i];
    } else {
      IndicesAreFlagged(c, s, bs[..n]);
    }
  }

  lemma FlaggedIsAnomalous(c: Thresholds, s: State, from: real, bs: seq<Bucket>, i: nat)
    requires Coherent(c, s, from) && Nondecreasing(from, bs) && i < |bs|
    ensures Flagged(c, StateAfter(c, s, bs[..i]), bs[i]) <==> IsAnomalous(c, s, bs, i)
  {
    hide StateAfter, Fired;
    StateMatchesEvents(c, s, bs[..i]);
    NeverOpenInGrace(c, s, from, bs[..i], bs[i].ts);
  }

  // ---------------------------------------------------------------- the recorded score

  /** Where to look for the highest score of the anomaly open after a run: from its start on, or
      from the first bucket if it was carried over. */
  ghost function LastStart(fired: seq<nat>): nat {
    if fired == [] then 0 else fired[|fired| - 1]
  }

  ghost predicate Carried(s: State, fired: seq<nat>) {
    fired == [] && s.anomaly.Some?
  }

  /** m is the highest score of the anomaly open after bs: of all buckets since its start, also
      those below the threshold, and of what was recorded if it was carried over. */
  ghost predicate IsPeak(s: State, bs: seq<Bucket>, fired: seq<nat>, m: real)
    requires Increasing(fired, |bs|)
  {
    && (forall i :: LastStart(fired) <= i < |bs| ==> bs[i].score <= m)
    && (Carried(s, fired) ==> s.anomaly.value.maxScore <= m)
    && ((exists i :: LastStart(fired) <= i < |bs| && bs[i].score == m) || (Carried(s, fired) && m == s.anomaly.value.maxScore))
  }

  /** m is the highest score since the start that lies outside the grace period of `last`, the
      preceding end. */
  ghost predicate IsPeakOutsideGrace(c: Thresholds, s: State, bs: seq<Bucket>, fired: seq<nat>, last: real, m: real)
    requires Increasing(fired, |bs|)
  {
    && (forall i :: LastStart(fired) <= i < |bs| && bs[i].ts - last >= c.gracePeriod ==> bs[i].score <= m)
    && (Carried(s, fired) ==> s.anomaly.value.maxScore <= m)
    && (|| (exists i :: LastStart(fired) <= i < |bs| && bs[i].ts - last >= c.gracePeriod && bs[i].score == m)
        || (Carried(s, fired) && m == s.anomaly.value.maxScore))
  }

  lemma PeakNext(c: Thresholds, s: State, bs: seq<Bucket>, fired: seq<nat>, t: State)
    requires bs != [] && Increasing(fired, |bs| - 1)
    requires t.anomaly.Some? ==>
      var m := t.anomaly.value.maxScore;
      m >= c.max && IsPeakOutsideGrace(c, s, bs[..|bs| - 1], fired, t.lastAnomalyTs, m)
    ensures var n := |bs| - 1; var t' := Next(c, t, bs[n]);
      t'.anomaly.Some? ==>
        var m := t'.anomaly.value.maxScore;
        m >= c.max &&
        IsPeakOutsideGrace(c, s, bs, Completed(fired, n, Notified(c, t, bs[n]) != []), t'.lastAnomalyTs, m)
  {
    var n := |bs| - 1;
    var before, b, t' := bs[..n], bs[n], Next(c, t, bs[n]);
    if t.anomaly.Some? && t'.anomaly.Some? {
      var m, m', last := t.anomaly.value.maxScore, t'.anomaly.value.maxScore, t.lastAnomalyTs;
      assert m' == m || (m' == b.score && b.ts - last >= c.gracePeriod);
      assert b.ts - last >= c.gracePeriod ==> b.score <= m';
      var start := LastStart(fired);
      if exists i :: start <= i < n && before[i].ts - last >= c.gracePeriod && before[i].score == m {
        var i :| start <= i < n && before[i].ts - last >= c.gracePeriod && before[i].score == m;
        assert bs[i].ts - last >= c.gracePeriod && bs[i].score == m;
      }
    }
  }

  /** Whatever the order of the buckets, the recorded score is the highest outside the grace period
      of the preceding end. */
  lemma {:induction false} RecordedOutsideGrace(c: Thresholds, s: State, bs: seq<Bucket>)
    requires s.anomaly.Some? ==> s.anomaly.value.maxScore >= c.max
    ensures var t := StateAfter(c, s, bs);
      t.anomaly.Some? ==>
        var m := t.anomaly.value.maxScore;
        m >= c.max && IsPeakOutsideGrace(c, s, bs, Fired(c, s, bs), t.lastAnomalyTs, m)
  {
    if bs == [] {
    } else {
      var before := bs[..|bs| - 1];
      RecordedOutsideGrace(c, s, before);
      PeakNext(c, s, bs, Fired(c, s, before), StateAfter(c, s, before));
    }
  }

  /** Every score from inside the grace period of `last` is reached outside it as well. */
  ghost predicate GraceIsOutdone(c: Thresholds, s: State, bs: seq<Bucket>, fired: seq<nat>, last: real)
    requires Increasing(fired, |bs|)
  {
    forall i :: LastStart(fired) <= i < |bs| && bs[i].ts - last < c.gracePeriod ==>
      || (Carried(s, fired) && bs[i].score <= s.anomaly.value.maxScore)
      || exists j :: LastStart(fired) <= j < |bs| && bs[j].ts - last >= c.gracePeriod && bs[i].score <= bs[j].score
  }

  /** From `start` on, no bucket falls inside the grace period of `last`. */
  ghost predicate AllOutsideGrace(c: Thresholds, bs: seq<Bucket>, start: nat, last: real) {
    forall i :: start <= i < |bs| ==> bs[i].ts - last >= c.gracePeriod
  }

  lemma PeakUnlessGrace(c: Thresholds, s: State, bs: seq<Bucket>, fired: seq<nat>, last: real, m: real)
    requires Increasing(fired, |bs|) && IsPeakOutsideGrace(c, s, bs, fired, last, m)
    ensures IsPeak(s, bs, fired, m) <==> GraceIsOutdone(c, s, bs, fired, last)
  {
    if exists i :: LastStart(fired) <= i < |bs| && bs[i].ts - last >= c.gracePeriod && bs[i].score == m {
      var top :| LastStart(fired) <= top < |bs| && bs[top].ts - last >= c.gracePeriod && bs[top].score == m;
      assert IsPeak(s, bs, fired, m) ==> forall i :: LastStart(fired) <= i < |bs| ==> bs[i].score <= bs[top].score;
    }
  }

  /** In any run, in whatever order its buckets come: the score recorded with an open anomaly is
      the highest since its start if and only if no bucket from inside the grace period of the
      preceding end beats all those outside it; so it is if none falls inside. */
  lemma RecordedScoreIsPeakIff(c: Thresholds, s: State, bs: seq<Bucket>)
    requires s.anomaly.Some? ==> s.anomaly.value.maxScore >= c.max
    ensures var t, fired := StateAfter(c, s, bs), Fired(c, s, bs);
      t.anomaly.Some? ==>
        && (IsPeak(s, bs, fired, t.anomaly.value.maxScore) <==> GraceIsOutdone(c, s, bs, fired, t.lastAnomalyTs))
        && (AllOutsideGrace(c, bs, LastStart(fired), t.lastAnomalyTs) ==> IsPeak(s, bs, fired, t.anomaly.value.maxScore))
  {
    var t := StateAfter(c, s, bs);
    RecordedOutsideGrace(c, s, bs);
    if t.anomaly.Some? {
      PeakUnlessGrace(c, s, bs, Fired(c, s, bs), t.lastAnomalyTs, t.anomaly.value.maxScore);
    }
  }

  lemma NothingInGrace(c: Thresholds, start: nat, last: real)
    ensures AllOutsideGrace(c, [], start, last)
  {
  }

  lemma OutsideGraceNext(c: Thresholds, s: State, bs: seq<Bucket>, fired: seq<nat>, t: State)
    requires bs != [] && Increasing(fired, |bs| - 1) && Coherent(c, t, bs[|bs| - 1].ts)
    requires t.anomaly.Some? ==> AllOutsideGrace(c, bs[..|bs| - 1], LastStart(fired), t.lastAnomalyTs)
    ensures var n := |bs| - 1; var t' := Next(c, t, bs[n]);
      t'.anomaly.Some? ==>
        AllOutsideGrace(c, bs, LastStart(Completed(fired, n, Notified(c, t, bs[n]) != [])), t'.lastAnomalyTs)
  {
  }

  /** In time order no bucket since the start falls inside. */
  lemma {:induction false} OpenOutsideGrace(c: Thresholds, s: State, from: real, bs: seq<Bucket>)
    requires Coherent(c, s, from) && Nondecreasing(from, bs)
    ensures var t, fired := StateAfter(c, s, bs), Fired(c, s, bs);
      t.anomaly.Some? ==> AllOutsideGrace(c, bs, LastStart(fired), t.lastAnomalyTs)
  {
    hide Coherent, Next, Notified, AllOutsideGrace;
    if bs == [] {
      NothingInGrace(c, LastStart(Fired(c, s, bs)), StateAfter(c, s, bs).lastAnomalyTs);
    } else {
      var before := bs[..|bs| - 1];
      OpenOutsideGrace(c, s, from, before);
      NeverOpenInGrace(c, s, from, before, bs[|bs| - 1].ts);
      OutsideGraceNext(c, s, bs, Fired(c, s, before), StateAfter(c, s, before));
    }
  }

  /** The score recorded with an open anomaly is the highest since its start, although the code
      only looks at it on flagged buckets. */
  lemma RecordedScoreIsPeak(c: Thresholds, s: State, from: real, bs: seq<Bucket>)
    requires Coherent(c, s, from) && Nondecreasing(from, bs)
    ensures var t := StateAfter(c, s, bs);
      t.anomaly.Some? ==> IsPeak(s, bs, Fired(c, s, bs), t.anomaly.value.maxScore)
  {
    RecordedScoreIsPeakIff(c, s, bs);
    OpenOutsideGrace(c, s, from, bs);
  }

  /** Two detections by one model, each in time order, the second over an earlier range: an anomaly
      ends at 200 and another starts at 300; the second detection then brings a bucket at 210, in
      the grace period of that end, whose higher score is not recorded. */
  lemma SecondDetectionLosesThePeak()
    ensures exists c: Thresholds, first: seq<Bucket>, second: seq<Bucket> ::
      var s := StateAfter(c, State(None, 0.0), first);
      var t := StateAfter(c, s, second);
      && Nondecreasing(0.0, first) && Nondecreasing(0.0, second)
      && s.anomaly.Some? && t.anomaly.Some?
      && !IsPeak(s, second, Fired(c, s, second), t.anomaly.value.maxScore)
  {
    var c, s := Thresholds(40.0, 50.0, 50.0), State(None, 0.0);
    var b0, b1, b2 := Bucket(100.0, 80.0, None, false), Bucket(200.0, 10.0, None, false), Bucket(300.0, 60.0, None, false);
    var late := Bucket(210.0, 90.0, None, false);
    var first := [b0, b1, b2];
    var again := State(Some(Anomaly(300.0, 60.0)), 200.0);
    assert first[..2] == [b0, b1] && [b0, b1][..1] == [b0] && [b0][..0] == [];
    assert StateAfter(c, s, [b0]) == State(Some(Anomaly(100.0, 80.0)), 0.0);
    assert StateAfter(c, s, [b0, b1]) == State(None, 200.0);
    assert StateAfter(c, s, first) == again;
    assert [late][..0] == [];
    assert Next(c, again, late) == again && Notified(c, again, late) == [];
    assert StateAfter(c, again, [late]) == again;
    assert Fired(c, again, [late]) == [];
    assert [late][0].score > 60.0;
    assert !IsPeak(again, [late], [], 60.0);
    assert Nondecreasing(0.0, first) && Nondecreasing(0.0, [late]);
  }

  // ---------------------------------------------------------------- after a hook raised

  /** The end of an open anomaly outside the grace period. */
  ghost predicate Ends(c: Thresholds, b: Bucket) { b.score < c.min && b.score < c.max }

  lemma {:induction false} StaysOpen(c: Thresholds, t: State, from: real, bs: seq<Bucket>)
    requires t.anomaly.Some? && Coherent(c, t, from) && Nondecreasing(from, bs)
    requires forall i :: 0 <= i < |bs| ==> !Ends(c, bs[i])
    ensures Events(c, t, bs) == [] && StateAfter(c, t, bs).anomaly.Some?
  {
    if bs == [] {
    } else {
      var before := bs[..|bs| - 1];
      StaysOpen(c, t, from, before);
      NeverOpenInGrace(c, t, from, before, bs[|bs| - 1].ts);
    }
  }

  lemma {:induction false} ToldIffEnds(c: Thresholds, t: State, from: real, bs: seq<Bucket>)
    requires t.anomaly.Some? && Coherent(c, t, from) && Nondecreasing(from, bs)
    ensures Events(c, t, bs) == [] <==> forall i :: 0 <= i < |bs| ==> !Ends(c, bs[i])
  {
    if bs == [] {
    } else {
      var before, last := bs[..|bs| - 1], bs[|bs| - 1];
      ToldIffEnds(c, t, from, before);
      if Events(c, t, before) == [] {
        StaysOpen(c, t, from, before);
        NeverOpenInGrace(c, t, from, before, last.ts);
      }
    }
  }

  /** The first bucket from which on the open anomaly is over. */
  ghost predicate IsFirstEnd(c: Thresholds, bs: seq<Bucket>, i: nat)
    requires i < |bs|
  {
    Ends(c, bs[i]) && forall j :: 0 <= j < i ==> !Ends(c, bs[j])
  }

  lemma FirstEndIsTold(c: Thresholds, t: State, from: real, bs: seq<Bucket>, i: nat)
    requires t.anomaly.Some? && Coherent(c, t, from) && Nondecreasing(from, bs)
    requires i < |bs| && IsFirstEnd(c, bs, i)
    ensures Events(c, t, bs[..i + 1]) == [End(bs[i].ts, bs[i].score)]
  {
    hide StateAfter, Events;
    StaysOpen(c, t, from, bs[..i]);
    NeverOpenInGrace(c, t, from, bs[..i], bs[i].ts);
    RunNext(c, t, bs, i);
  }

  /** An anomaly that a raising hook has left open, and any later buckets the detection goes on
      with: hooks are told again if and only if some bucket is below both thresholds, and what they
      are told first is the end, at the first such bucket. */
  lemma {:induction false} EndIsToldAgain(c: Thresholds, t: State, from: real, bs: seq<Bucket>)
    requires t.anomaly.Some? && Coherent(c, t, from) && Nondecreasing(from, bs)
    ensures Events(c, t, bs) == [] <==> forall i :: 0 <= i < |bs| ==> !Ends(c, bs[i])
    ensures forall i :: 0 <= i < |bs| && IsFirstEnd(c, bs, i) ==>
      Events(c, t, bs[..i + 1]) == [End(bs[i].ts, bs[i].score)]
  {
    hide Coherent, Nondecreasing, Ends, IsFirstEnd, Events;
    ToldIffEnds(c, t, from, bs);
    forall i | 0 <= i < |bs| && IsFirstEnd(c, bs, i)
      ensures Events(c, t, bs[..i + 1]) == [End(bs[i].ts, bs[i].score)]
    {
      FirstEndIsTold(c, t, from, bs, i);
    }
  }

  lemma RunNothing(c: Thresholds, s: State)
    ensures StateAfter(c, s, []) == s && Events(c, s, []) == [] && Stats(c, s, []) == [] && Indices(c, s, []) == []
  {
  }

  /** What one bucket more adds to a run. */
  lemma RunNext(c: Thresholds, s: State, bs: seq<Bucket>, i: nat)
    requires i < |bs|
    ensures var t := StateAfter(c, s, bs[..i]);
      && StateAfter(c, s, bs[..i + 1]) == Next(c, t, bs[i])
      && Events(c, s, bs[..i + 1]) == Events(c, s, bs[..i]) + Notified(c, t, bs[i])
      && Stats(c, s, bs[..i + 1]) == Stats(c, s, bs[..i]) + [StatOf(c, t, bs[i])]
      && Indices(c, s, bs[..i + 1]) == Completed(Indices(c, s, bs[..i]), i, Flagged(c, t, bs[i]))
  {
    assert bs[..i + 1][..i] == bs[..i];
  }

  // ---------------------------------------------------------------- the method

  /** Whether, when told something at a bucket, a hook raises: bucket and hook by their positions. */
  type Raising = (nat, nat) -> bool

  function RaisingAt(raises: Raising, i: nat): nat -> bool {
    (k: nat) => raises(i, k)
  }

  /** The run cannot get past bucket i: an anomaly ends there, and one of the hooks raises. */
  ghost predicate Aborts(c: Thresholds, s: State, bs: seq<Bucket>, nbHooks: nat, raises: Raising, i: nat)
    requires i < |bs|
  {
    && Notified(c, StateAfter(c, s, bs[..i]), bs[i]) == [End(bs[i].ts, bs[i].score)]
    && SomeRaises(nbHooks, RaisingAt(raises, i))
  }

  ghost predicate SomeRaises(nbHooks: nat, raises: nat -> bool) {
    exists k: nat :: k < nbHooks && raises(k)
  }

  /** Hook k is told of an end: no hook before it raises. */
  ghost predicate IsReached(raises: nat -> bool, k: nat) {
    forall j: nat :: j < k ==> !raises(j)
  }

  class Hook {
    var events: seq<Event>

    constructor ()
      ensures events == []
    {
      events := [];
    }

    /** May raise after having been told; the caller logs the exception and goes on. */
    method OnAnomalyStart(ts: real, score: real, direction: Direction, raises: bool) returns (raised: bool)
      modifies this
      ensures events == old(events) + [Start(ts, score, direction)] && raised == raises
    {
      events := events + [Start(ts, score, direction)];
      raised := raises;
    }

    /** May raise after having been told; nobody catches that exception. */
    method OnAnomalyEnd(ts: real, score: real, raises: bool) returns (raised: bool)
      modifies this
      ensures events == old(events) + [End(ts, score)] && raised == raises
    {
      events := events + [End(ts, score)];
      raised := raises;
    }
  }

  /** A prediction with its scores computed; detect_anomalies adds the rest. */
  class TimeSeriesPrediction {
    const buckets: seq<Bucket>
    var stats: Option<seq<Stat>>
    var anomalyIndices: Option<seq<nat>>

    constructor (buckets: seq<Bucket>)
      ensures this.buckets == buckets && stats == None && anomalyIndices == None
    {
      this.buckets := buckets;
      stats, anomalyIndices := None, None;
    }
  }

  class DonutModel {
    const minThreshold: real
    const maxThreshold: real
    const gracePeriod: real
    var anomaly: Option<Anomaly>
    var lastAnomalyTs: real

    constructor (minThreshold: real, maxThreshold: real, gracePeriod: real)
      ensures Settings() == Thresholds(minThreshold, maxThreshold, gracePeriod)
      ensures Current() == State(None, 0.0)
      ensures forall t :: Coherent(Settings(), Current(), t)
    {
      this.minThreshold, this.maxThreshold, this.gracePeriod := minThreshold, maxThreshold, gracePeriod;
      anomaly, lastAnomalyTs := None, 0.0;
    }

    ghost function Settings(): Thresholds {
      Thresholds(minThreshold, maxThreshold, gracePeriod)
    }

    ghost function Current(): State
      reads this
    {
      State(anomaly, lastAnomalyTs)
    }

    method NotifyStart(hooks: seq<Hook>, ts: real, score: real, direction: Direction, raises: nat -> bool)
      requires forall j, k :: 0 <= j < k < |hooks| ==> hooks[j] != hooks[k]
      modifies hooks
      ensures forall h :: h in hooks ==> h.events == old(h.events) + [Start(ts, score, direction)]
    {
      for k := 0 to |hooks|
        invariant forall j :: 0 <= j < k ==> hooks[j].events == old(hooks[j].events) + [Start(ts, score, direction)]
        invariant forall j :: k <= j < |hooks| ==> hooks[j].events == old(hooks[j].events)
      {
        var _ := hooks[k].OnAnomalyStart(ts, score, direction, raises(k));
      }
    }

    /** Stops at the first hook that raises, which has been told as well. */
    method NotifyEnd(hooks: seq<Hook>, ts: real, score: real, raises: nat -> bool) returns (raised: bool)
      requires forall j, k :: 0 <= j < k < |hooks| ==> hooks[j] != hooks[k]
      modifies hooks
      ensures raised <==> SomeRaises(|hooks|, raises)
      ensures forall k :: 0 <= k < |hooks| ==>
        hooks[k].events == old(hooks[k].events) + if IsReached(raises, k) then [End(ts, score)] else []
    {
      for k := 0 to |hooks|
        invariant IsReached(raises, k)
        invariant forall j :: 0 <= j < k ==> hooks[j].events == old(hooks[j].events) + [End(ts, score)]
        invariant forall j :: k <= j < |hooks| ==> hooks[j].events == old(hooks[j].events)
      {
        raised := hooks[k].OnAnomalyEnd(ts, score, raises(k));
        if raised {
          return;
        }
      }
      raised := false;
    }

    /** The body of the loop of detect_anomalies; None when a hook raises at the end of an anomaly,
        which leaves the anomaly open. */
    method DetectBucket(b: Bucket, hooks: seq<Hook>, raises: nat -> bool) returns (stat: Option<Stat>)
      requires forall j, k :: 0 <= j < k < |hooks| ==> hooks[j] != hooks[k]
      modifies this, hooks
      ensures var c, s := Settings(), old(Current());
        && (stat.None? <==> Notified(c, s, b) == [End(b.ts, b.score)] && SomeRaises(|hooks|, raises))
        && Current() == (if stat.Some? then Next(c, s, b) else s)
        && (stat.Some? ==> stat == Some(StatOf(c, s, b)))
      ensures forall k :: 0 <= k < |hooks| ==>
        hooks[k].events == old(hooks[k].events) +
          if stat.Some? || IsReached(raises, k) then Notified(Settings(), old(Current()), b) else []
    {
      hide SomeRaises, IsReached;
      var inGracePeriod := b.ts - lastAnomalyTs < gracePeriod;
      var maxScore := Max(0.0, b.score);
      var kind := None;
      if !inGracePeriod && b.score >= maxThreshold {
        kind := Some(if b.below then Low else High);
      }
      var isAnomaly := kind.Some?;
      match anomaly {
        case None =>
          if isAnomaly {
            anomaly := Some(Anomaly(b.ts, maxScore));
            NotifyStart(hooks, b.ts, maxScore, kind.value, raises);
          }
        case Some(a) =>
          if isAnomaly {
            anomaly := Some(a.(maxScore := Max(a.maxScore, maxScore)));
          } else if b.score < minThreshold {
            var raised := NotifyEnd(hooks, b.ts, maxScore, raises);
            if raised {
              return None;
            }
            NobodyRaises(|hooks|, raises);
            anomaly := None;
            lastAnomalyTs := b.ts;
          }
      }
      stat := Some(Stat(b.mse, maxScore, isAnomaly, kind));
    }

    /** Runs over the whole prediction, unless a hook raises at the end of an anomaly: then the
        run stops at the first such bucket, with the anomaly still open and the prediction
        untouched. */
    method DetectAnomalies(prediction: TimeSeriesPrediction, hooks: seq<Hook>, raises: Raising) returns (raisedAt: Option<nat>)
      requires forall j, k :: 0 <= j < k < |hooks| ==> hooks[j] != hooks[k]
      modifies this, prediction, hooks
      ensures raisedAt.None? <==>
        forall i :: 0 <= i < |prediction.buckets| ==>
          !Aborts(Settings(), old(Current()), prediction.buckets, |hooks|, raises, i)
      ensures raisedAt.None? ==>
        var c, s, bs := Settings(), old(Current()), prediction.buckets;
        && Current() == StateAfter(c, s, bs)
        && prediction.stats == Some(Stats(c, s, bs))
        && prediction.anomalyIndices == Some(Indices(c, s, bs))
        && forall k :: 0 <= k < |hooks| ==> hooks[k].events == old(hooks[k].events) + Events(c, s, bs)
      ensures raisedAt.Some? ==>
        var c, s, bs, i := Settings(), old(Current()), prediction.buckets, raisedAt.value;
        && i < |bs| && Aborts(c, s, bs, |hooks|, raises, i)
        && (forall j :: 0 <= j < i ==> !Aborts(c, s, bs, |hooks|, raises, j))
        && Current() == StateAfter(c, s, bs[..i]) && Current().anomaly.Some?
        && prediction.stats == old(prediction.stats)
        && prediction.anomalyIndices == old(prediction.anomalyIndices)
        && forall k :: 0 <= k < |hooks| ==>
             hooks[k].events == old(hooks[k].events) +
               if IsReached(RaisingAt(raises, i), k) then Events(c, s, bs[..i + 1]) else Events(c, s, bs[..i])
    {
      hide StateAfter, Events, Stats, Indices, Next, Notified, Flagged, SomeRaises, IsReached, RaisingAt;
      RunNothing(Settings(), Current());
      var stats, anomalyIndices := [], [];
      ghost var c, s, bs := Settings(), Current(), prediction.buckets;
      for i := 0 to |prediction.buckets|
        invariant prediction.stats == old(prediction.stats)
        invariant prediction.anomalyIndices == old(prediction.anomalyIndices)
        invariant forall j :: 0 <= j < i ==> !Aborts(c, s, bs, |hooks|, raises, j)
        invariant Current() == StateAfter(c, s, bs[..i])
        invariant stats == Stats(c, s, bs[..i])
        invariant anomalyIndices == Indices(c, s, bs[..i])
        invariant forall k :: 0 <= k < |hooks| ==> hooks[k].events == old(hooks[k].events) + Events(c, s, bs[..i])
      {
        RunNext(c, s, bs, i);
        var stat := DetectBucket(prediction.buckets[i], hooks, RaisingAt(raises, i));
        if stat.None? {
          OpenAtEnd(c, Current(), bs[i]);
          assert Aborts(c, s, bs, |hooks|, raises, i);
          return Some(i);
        }
        if stat.value.anomaly {
          anomalyIndices := anomalyIndices + [i];
        }
        stats := stats + [stat.value];
      }
      assert bs[..|bs|] == bs;
      prediction.stats := Some(stats);
      prediction.anomalyIndices := Some(anomalyIndices);
      raisedAt := None;
    }
  }

  lemma NobodyRaises(nbHooks: nat, raises: nat -> bool)
    requires !SomeRaises(nbHooks, raises)
    ensures forall k: nat :: k < nbHooks ==> IsReached(raises, k)
  {
  }

  lemma OpenAtEnd(c: Thresholds, t: State, b: Bucket)
    requires Notified(c, t, b) == [End(b.ts, b.score)]
    ensures t.anomaly.Some?
  {
  }
}
