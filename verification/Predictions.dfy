/**
 The indexing and rolling-window skeletons of predict and forecast in loudml/donut.py, run
 against the in-memory bucket. The trained network is a function nothing is known about.
 */
module Predictions {
  import opened Prelude
  import opened Rounding
  import opened DateRanges
  import opened MemBuckets
  import opened Windows
  import opened AbnormalMask

  /** Encoder and decoder: cell k of the output for a window and its missing flags. */
  type Decoder = (seq<real>, seq<bool>, nat) -> real

  const MCMC_COUNT := 10

  type Positive = n: int | n > 0 witness 1

  type Deviation = r: real | r != 0.0 witness 1.0

  /** A trained model: span, bucket interval, its one feature and that feature's default, the
      scaling computed in training, and the network. */
  datatype Model = Model(
    w: Positive,
    interval: Positive,
    feature: Feature,
    default: Default,
    mean: real,
    std: Deviation,
    decode: Decoder
  )

  function Scale(m: Model, v: Value): Value {
    if v.NaN? then NaN else Num((v.v - m.mean) / m.std)
  }

  function Unscale(m: Model, r: real): real {
    r * m.std + m.mean
  }

  lemma ScaleRoundTrip(m: Model, v: real)
    ensures Unscale(m, Scale(m, Num(v)).v) == v
  {
  }

  // ---------------------------------------------------------------- the network on one window

  /** x[missing] = decoded[missing] */
  function Fill(decode: Decoder, x: seq<real>, flags: seq<bool>): (y: seq<real>)
    requires |x| == |flags|
    ensures |y| == |x|
  {
    seq(|x|, k requires 0 <= k < |x| => if flags[k] then decode(x, flags, k) else x[k])
  }

  function Mcmc(decode: Decoder, x: seq<real>, flags: seq<bool>, rounds: nat): (y: seq<real>)
    requires |x| == |flags|
    ensures |y| == |x|
  {
    if rounds == 0 then x else Fill(decode, Mcmc(decode, x, flags, rounds - 1), flags)
  }

  /** Only missing cells are ever changed. */
  lemma {:induction false} McmcKeepsPresent(decode: Decoder, x: seq<real>, flags: seq<bool>, rounds: nat, k: nat)
    requires |x| == |flags| && k < |x| && !flags[k]
    ensures Mcmc(decode, x, flags, rounds)[k] == x[k]
  {
    if rounds == 0 {
    } else {
      McmcKeepsPresent(decode, x, flags, rounds - 1, k);
    }
  }

  // ---------------------------------------------------------------- the history

  function ValueOf(data: seq<Entry>, f: Feature): Value {
    match Aggregate(data, f) case Ok(v) => v case Err(_) => NaN
  }

  function HistoryStart(m: Model, from: int): int {
    from - (m.w - 1) * m.interval
  }

  ghost function RawValue(m: Model, data: seq<Entry>, from: int, k: nat): Value {
    ValueOf(BucketAt(data, HistoryStart(m, from), m.interval, k).data, m.feature)
  }

  ghost function RawHistory(m: Model, data: seq<Entry>, from: int, count: nat): (raw: seq<Value>)
    ensures |raw| == count
  {
    seq(count, k requires 0 <= k => RawValue(m, data, from, k))
  }

  /** The dataset for a range of n buckets: one value per bucket, from W - 1 buckets before the
      range, with the defaults filled in. */
  ghost function History(m: Model, data: seq<Entry>, from: int, n: nat): (h: seq<Value>)
    ensures |h| == n + m.w - 1
  {
    WithDefaults(RawHistory(m, data, from, n + m.w - 1), m.default)
  }

  datatype Failure = BadRange | NoData | NotEnoughData | BucketFailed(error: MemBuckets.Error)

  lemma WholeBuckets(from: int, to: int, step: int, count: nat)
    requires step > 0 && to - from == count * step
    ensures BucketCount(from, to, step) == count == TruncDiv(to - from, step)
  {
    MultiplyMonotone(0, count, step);
    CeilIs(count * step, step, count);
    FloorIs(count * step, step, count);
  }

  lemma HistoryLength(m: Model, from: int, n: nat)
    ensures var start, to := HistoryStart(m, from), from + n * m.interval;
      BucketCount(start, to, m.interval) == n + m.w - 1 == TruncDiv(to - start, m.interval)
  {
    AddMultiples(n, m.w - 1, m.interval);
    WholeBuckets(HistoryStart(m, from), from + n * m.interval, m.interval, n + m.w - 1);
  }

  /** The times of the buckets of the history. */
  ghost predicate AreTimes(m: Model, from: int, timestamps: seq<int>) {
    forall k :: 0 <= k < |timestamps| ==> timestamps[k] == HistoryStart(m, from) + k * m.interval
  }

  /** The rows of the query fill the dataset, one each; all are before the end of the range. */
  method FillDataset(m: Model, ghost data: seq<Entry>, rows: seq<Row>, from: int, n: nat, to: int)
    returns (cells: array<Value>, timestamps: seq<int>)
    requires |rows| == n + m.w - 1 && to == from + n * m.interval
    requires forall k :: 0 <= k < |rows| ==>
      IsRow(rows[k], HistoryStart(m, from), BucketAt(data, HistoryStart(m, from), m.interval, k), [m.feature])
    ensures fresh(cells) && cells[..] == RawHistory(m, data, from, n + m.w - 1)
    ensures |timestamps| == |rows|
    ensures AreTimes(m, from, timestamps)
  {
    hide BucketAt, IsRow, RawValue;
    var start := HistoryStart(m, from);
    var nbBuckets := TruncDiv(to - start, m.interval);
    HistoryLength(m, from, n);
    timestamps := [];
    cells := new Value[nbBuckets](_ => NaN);
    for i := 0 to |rows|
      invariant |timestamps| == i
      invariant forall k :: 0 <= k < i ==> timestamps[k] == start + k * m.interval
      invariant forall k :: 0 <= k < i ==> cells[k] == RawValue(m, data, from, k)
    {
      RowOfBucket(m, data, from, i, rows[i]);
      InsideRange(m, from, n, i);
      cells[i] := rows[i].values[0];
      if rows[i].ts < to {
        timestamps := timestamps + [rows[i].ts];
      }
    }
  }

  /** The feature cannot be computed on some bucket of the history. */
  ghost predicate Uncomputable(m: Model, data: seq<Entry>, from: int, n: nat, e: MemBuckets.Error) {
    Fails(data, HistoryStart(m, from), m.interval, n + m.w - 1, [m.feature], e)
  }

  /** The query of the history, shared by predict and forecast: it yields exactly the rows
      allocated. */
  method LoadHistory(m: Model, bucket: MemBucket, from: int, n: nat, to: int)
    returns (failure: Option<Failure>, dataset: seq<Value>, timestamps: seq<int>)
    requires bucket.Valid() && to == from + n * m.interval
    ensures failure.None? ==>
      && dataset == History(m, bucket.data, from, n)
      && |timestamps| == |dataset| > 0 && AreTimes(m, from, timestamps)
      && forall e :: !Uncomputable(m, bucket.data, from, n, e)
    ensures failure.Some? ==>
      if n + m.w - 1 == 0 then failure == Some(NoData)
      else
        && failure.value.BucketFailed?
        && Uncomputable(m, bucket.data, from, n, failure.value.error)
  {
    hide BucketAt, WithDefaults, IsRow, RawHistory, Fails;
    dataset, timestamps := [], [];
    HistoryLength(m, from, n);
    var data := bucket.GetTimesData(m.interval, [m.feature], HistoryStart(m, from), to);
    if data.Err? {
      NoFailureOfNothing(bucket.data, HistoryStart(m, from), m.interval, [m.feature], data.error);
      failure := Some(BucketFailed(data.error));
    } else if |data.value| == 0 {
      failure := Some(NoData);
    } else {
      var cells;
      cells, timestamps := FillDataset(m, bucket.data, data.value, from, n, to);
      ApplyDefaults(cells, m.default);
      failure, dataset := None, cells[..];
    }
  }

  lemma NoFailureOfNothing(data: seq<Entry>, from: int, step: int, features: seq<Feature>, e: MemBuckets.Error)
    ensures !Fails(data, from, step, 0, features, e)
  {
  }

  lemma RowOfBucket(m: Model, data: seq<Entry>, from: int, k: nat, row: Row)
    requires var start := HistoryStart(m, from); IsRow(row, start, BucketAt(data, start, m.interval, k), [m.feature])
    ensures |row.values| == 1 && row.values[0] == RawValue(m, data, from, k) && row.ts == HistoryStart(m, from) + k * m.interval
  {
    assert [m.feature][0] == m.feature;
  }

  lemma InsideRange(m: Model, from: int, n: nat, k: nat)
    requires k < n + m.w - 1
    ensures HistoryStart(m, from) + k * m.interval < from + n * m.interval
  {
    MultiplyMonotone(k, n + m.w - 1, m.interval);
    AddMultiples(n, m.w - 1, m.interval);
  }

  // ---------------------------------------------------------------- windows of the history

  function ScaledOrZero(m: Model, v: Value): real {
    if v.NaN? then 0.0 else Scale(m, v).v
  }

  /** Window i of the scaled history, its missing cells set to zero. */
  function WindowCells(m: Model, h: seq<Value>, i: nat): (cells: seq<real>)
    requires i + m.w <= |h|
    ensures |cells| == m.w
  {
    seq(m.w, k requires 0 <= k < m.w => ScaledOrZero(m, h[i + k]))
  }

  /** Its missing flags, the last of them forced. */
  function ForcedFlags(m: Model, h: seq<Value>, i: nat): (flags: seq<bool>)
    requires i + m.w <= |h|
    ensures |flags| == m.w
  {
    seq(m.w, k requires 0 <= k < m.w => k == m.w - 1 || h[i + k].NaN?)
  }

  function Scaled(m: Model, h: seq<Value>): (x: seq<Value>)
    ensures |x| == |h|
  {
    seq(|h|, k requires 0 <= k < |h| => Scale(m, h[k]))
  }

  /** The numbers of a window without a NaN. */
  function Reals(cells: seq<Value>): (x: seq<real>)
    requires forall k :: 0 <= k < |cells| ==> cells[k].Num?
    ensures |x| == |cells|
  {
    seq(|cells|, k requires 0 <= k < |cells| => cells[k].v)
  }

  lemma WindowOfHistory(m: Model, h: seq<Value>, i: nat, flags: seq<bool>, cells: seq<Value>)
    requires i + m.w <= |h| && IsWindow(Scaled(m, h), None, m.w, i, flags, cells)
    ensures forall k :: 0 <= k < |cells| ==> cells[k].Num?
    ensures Reals(cells) == WindowCells(m, h, i) && flags[m.w - 1 := true] == ForcedFlags(m, h, i)
  {
    forall k | 0 <= k < m.w
      ensures cells[k].Num? && cells[k].v == ScaledOrZero(m, h[i + k]) && flags[k] == h[i + k].NaN?
    {
      assert Scaled(m, h)[i + k] == Scale(m, h[i + k]);
    }
  }

  /** The windows of a history, ready for the network. */
  method HistoryWindows(m: Model, h: seq<Value>) returns (x: seq<seq<real>>, missing: seq<seq<bool>>)
    requires |h| >= m.w - 1
    ensures |x| == |missing| == |h| - m.w + 1
    ensures forall i :: 0 <= i < |x| ==> x[i] == WindowCells(m, h, i) && missing[i] == ForcedFlags(m, h, i)
  {
    hide Starts, IsWindow, WindowCells, ForcedFlags, Scaled;
    var flags, cells := FormatDataset(Scaled(m, h), m.w, true, None);
    AllStarts(Scaled(m, h), m.w, WindowCount(|h|, m.w));
    x, missing := [], [];
    for i := 0 to |cells|
      invariant |x| == |missing| == i
      invariant forall j :: 0 <= j < i ==> x[j] == WindowCells(m, h, j) && missing[j] == ForcedFlags(m, h, j)
    {
      WindowOfHistory(m, h, i, flags[i], cells[i]);
      WindowSize(m, h, i, flags[i], cells[i]);
      x := x + [Reals(cells[i])];
      missing := missing + [flags[i][m.w - 1 := true]];
    }
  }

  lemma WindowSize(m: Model, h: seq<Value>, i: nat, flags: seq<bool>, cells: seq<Value>)
    requires i + m.w <= |h| && IsWindow(Scaled(m, h), None, m.w, i, flags, cells)
    ensures |flags| == m.w
  {
  }

  // ---------------------------------------------------------------- predict

  datatype Prediction = Prediction(timestamps: seq<int>, observed: seq<Value>, predicted: seq<Value>)

  function Last(x: seq<real>): real
    requires x != []
  {
    x[|x| - 1]
  }

  /** The value predicted for the bucket that ends window i. */
  function PredictedAt(m: Model, h: seq<Value>, i: nat): Value
    requires i + m.w <= |h|
  {
    Num(Unscale(m, Last(Mcmc(m.decode, WindowCells(m, h, i), ForcedFlags(m, h, i), MCMC_COUNT))))
  }

  /** All three lists have one entry per bucket of the range; entry i belongs to the bucket that
      starts i intervals after the aligned beginning, and that ends window i of the history. */
  ghost predicate IsPrediction(m: Model, h: seq<Value>, from: int, n: nat, p: Prediction) {
    && |h| == n + m.w - 1
    && |p.timestamps| == |p.observed| == |p.predicted| == n
    && (forall i :: 0 <= i < n ==> p.timestamps[i] == from + i * m.interval)
    && (forall i :: 0 <= i < n ==> p.observed[i] == h[i + m.w - 1])
  }

  // ---------------------------------------------------------------- what the network is asked

  /** Window i of the history as the network is first shown it: scaled, zero where it is missing. */
  ghost predicate IsShown(m: Model, h: seq<Value>, i: nat, x: seq<real>)
    requires i + m.w <= |h|
  {
    && |x| == m.w
    && forall k :: 0 <= k < m.w ==> x[k] == if h[i + k].Num? then (h[i + k].v - m.mean) / m.std else 0.0
  }

  /** Ten rounds: in each, the network is asked about the window and the missing flags, and its
      answer replaces the missing cells and no other. */
  ghost predicate AreRounds(m: Model, x: seq<seq<real>>, missing: seq<bool>) {
    && |x| == 11
    && (forall r :: 0 <= r <= 10 ==> |x[r]| == |missing|)
    && forall r, k :: 0 <= r < 10 && 0 <= k < |missing| ==>
         x[r + 1][k] == if missing[k] then m.decode(x[r], missing, k) else x[r][k]
  }

  /** v is the answer for the bucket that ends window i: after the rounds, its last cell unscaled.
      That cell counts as missing, and so do those the history has no value for. */
  ghost predicate IsAnswer(m: Model, h: seq<Value>, i: nat, x: seq<seq<real>>, missing: seq<bool>, v: Value)
    requires i + m.w <= |h|
  {
    && |missing| == m.w && (forall k :: 0 <= k < m.w ==> (missing[k] <==> k == m.w - 1 || h[i + k].NaN?))
    && AreRounds(m, x, missing) && IsShown(m, h, i, x[0])
    && v.Num? && v.v == x[10][m.w - 1] * m.std + m.mean
  }

  ghost predicate IsPredicted(m: Model, h: seq<Value>, i: nat, v: Value)
    requires i + m.w <= |h|
  {
    exists x, missing :: IsAnswer(m, h, i, x, missing, v)
  }

  ghost function Rounds(m: Model, x: seq<real>, missing: seq<bool>): (rounds: seq<seq<real>>)
    requires |x| == |missing|
    ensures |rounds| == 11 && forall r :: 0 <= r <= 10 ==> |rounds[r]| == |x|
  {
    seq(11, r requires 0 <= r < 11 => Mcmc(m.decode, x, missing, r))
  }

  lemma RoundsAreRounds(m: Model, x: seq<real>, missing: seq<bool>)
    requires |x| == |missing|
    ensures AreRounds(m, Rounds(m, x, missing), missing)
    ensures Rounds(m, x, missing)[0] == x && Rounds(m, x, missing)[10] == Mcmc(m.decode, x, missing, MCMC_COUNT)
  {
    forall r, k | 0 <= r < 10 && 0 <= k < |missing|
      ensures Rounds(m, x, missing)[r + 1][k] ==
        if missing[k] then m.decode(Rounds(m, x, missing)[r], missing, k) else Rounds(m, x, missing)[r][k]
    {
      assert Mcmc(m.decode, x, missing, r + 1) == Fill(m.decode, Mcmc(m.decode, x, missing, r), missing);
    }
  }

  lemma CellsAreShown(m: Model, h: seq<Value>, i: nat)
    requires i + m.w <= |h|
    ensures IsShown(m, h, i, WindowCells(m, h, i))
  {
    hide ScaledOrZero;
    forall k | 0 <= k < m.w
      ensures WindowCells(m, h, i)[k] == if h[i + k].Num? then (h[i + k].v - m.mean) / m.std else 0.0
    {
      CellIsScaled(m, h[i + k]);
    }
  }

  lemma CellIsScaled(m: Model, v: Value)
    ensures ScaledOrZero(m, v) == if v.Num? then (v.v - m.mean) / m.std else 0.0
  {
  }

  /** The predicted value is the network's answer. */
  lemma PredictedIsAnswer(m: Model, h: seq<Value>, i: nat)
    requires i + m.w <= |h|
    ensures IsPredicted(m, h, i, PredictedAt(m, h, i))
  {
    hide Mcmc, AreRounds, IsShown, WindowCells;
    var x, missing := WindowCells(m, h, i), ForcedFlags(m, h, i);
    RoundsAreRounds(m, x, missing);
    CellsAreShown(m, h, i);
    assert IsAnswer(m, h, i, Rounds(m, x, missing), missing, PredictedAt(m, h, i));
  }

  // ---------------------------------------------------------------- failures

  /** What makes predict and forecast fail: a range that is no range, a feature that cannot be
      computed on some bucket of the history, or a range without a bucket. */
  ghost predicate FailsWith(m: Model, data: seq<Entry>, from: int, to: int, failure: Failure) {
    match BuildDateRange(from, to, m.interval)
    case Err(_) => failure == BadRange
    case Ok(r) =>
      var n := TruncDiv(r.to - r.from, m.interval);
      match failure
      case BadRange => false
      case NoData => n == 0 && m.w == 1
      case NotEnoughData =>
        && n == 0 && m.w > 1
        && forall e :: !Uncomputable(m, data, r.from, n, e)
      case BucketFailed(e) =>
        n + m.w - 1 > 0 && Uncomputable(m, data, r.from, n, e)
  }

  /** There is at most one failure: the metric of the one feature determines its error. */
  lemma FailureIsUnique(m: Model, data: seq<Entry>, from: int, to: int, a: Failure, b: Failure)
    requires FailsWith(m, data, from, to, a) && FailsWith(m, data, from, to, b)
    ensures a == b
  {
    hide BucketAt, TruncDiv, BuildDateRange;
  }

  /** The MCMC rounds over all windows at once. */
  method Reconstruct(m: Model, x0: seq<seq<real>>, missing: seq<seq<bool>>) returns (x: seq<seq<real>>)
    requires |x0| == |missing| && forall i :: 0 <= i < |x0| ==> |x0[i]| == |missing[i]|
    ensures |x| == |x0|
    ensures forall i :: 0 <= i < |x| ==> x[i] == Mcmc(m.decode, x0[i], missing[i], MCMC_COUNT)
  {
    x := x0;
    for round := 0 to MCMC_COUNT
      invariant |x| == |x0|
      invariant forall i :: 0 <= i < |x| ==> x[i] == Mcmc(m.decode, x0[i], missing[i], round)
    {
      var decoded: seq<seq<real>> := [];
      for i := 0 to |x|
        invariant |decoded| == i
        invariant forall j :: 0 <= j < i ==> decoded[j] == Mcmc(m.decode, x0[j], missing[j], round + 1)
      {
        decoded := decoded + [Fill(m.decode, x[i], missing[i])];
      }
      x := decoded;
    }
  }

  method Predict(m: Model, bucket: MemBucket, from: int, to: int) returns (r: Result<Prediction, Failure>)
    requires bucket.Valid()
    ensures r.Err? ==> FailsWith(m, bucket.data, from, to, r.error)
    ensures r.Ok? ==> forall e :: !FailsWith(m, bucket.data, from, to, e)
    ensures r.Ok? ==>
      && BuildDateRange(from, to, m.interval).Ok?
      && var range := BuildDateRange(from, to, m.interval).value;
         var n := TruncDiv(range.to - range.from, m.interval);
         && n > 0
         && var h := History(m, bucket.data, range.from, n);
            && IsPrediction(m, h, range.from, n, r.value)
            && forall i :: 0 <= i < n ==>
                 && r.value.predicted[i] == PredictedAt(m, h, i)
                 && IsPredicted(m, h, i, r.value.predicted[i])
  {
    hide *;
    var period := BuildDateRange(from, to, m.interval);
    if period.Err? {
      BadRanges(m, bucket.data, from, to);
      return Err(BadRange);
    }
    var range := period.value;
    AlignedLength(from, to, m.interval);
    var n: nat := TruncDiv(range.to - range.from, m.interval);
    var failure, history, timestamps := LoadHistory(m, bucket, range.from, n, range.to);
    if failure.Some? {
      HistoryFails(m, bucket.data, from, to, n, failure.value);
      return Err(failure.value);
    }
    var y := PredictValues(m, history, n);
    if |y| == 0 {
      HistoryFails(m, bucket.data, from, to, n, NotEnoughData);
      return Err(NotEnoughData);
    }
    var p := Finished(m, history, timestamps, y);
    HistoryIsFilled(m, bucket.data, range.from, n);
    FinishedIsPrediction(m, history, timestamps, y, range.from, n);
    NothingFails(m, bucket.data, from, to, n);
    forall i | 0 <= i < n
      ensures IsPredicted(m, history, i, PredictedAt(m, history, i))
    {
      PredictedIsAnswer(m, history, i);
    }
    return Ok(p);
  }

  method PredictValues(m: Model, h: seq<Value>, n: nat) returns (y: seq<Value>)
    requires |h| == n + m.w - 1
    ensures |y| == n && forall i :: 0 <= i < n ==> y[i].Num? && y[i] == PredictedAt(m, h, i)
  {
    hide WindowCells, ForcedFlags, Mcmc;
    var x, missing := HistoryWindows(m, h);
    var decoded := Reconstruct(m, x, missing);
    y := [];
    for j := 0 to |decoded|
      invariant |y| == j
      invariant forall i :: 0 <= i < j ==> y[i].Num? && y[i] == PredictedAt(m, h, i)
    {
      y := y + [Num(Unscale(m, Last(decoded[j])))];
    }
  }

  /** The end of predict and forecast: the first W - 1 rows are dropped, the defaults applied. */
  function Finished(m: Model, h: seq<Value>, timestamps: seq<int>, y: seq<Value>): Prediction
    requires |timestamps| == |h| >= m.w - 1
  {
    Prediction(timestamps[m.w - 1..], WithDefaults(h[m.w - 1..], m.default), WithDefaults(y, m.default))
  }

  lemma FinishedIsPrediction(m: Model, h: seq<Value>, timestamps: seq<int>, y: seq<Value>, from: int, n: nat)
    requires |timestamps| == |h| == n + m.w - 1 && |y| == n && WithDefaults(h, m.default) == h
    requires AreTimes(m, from, timestamps)
    requires forall i :: 0 <= i < n ==> y[i].Num?
    ensures IsPrediction(m, h, from, n, Finished(m, h, timestamps, y)) && Finished(m, h, timestamps, y).predicted == y
  {
    hide WithDefaults;
    DefaultsAreIdempotent(h, m.default, m.w - 1);
    NumbersNeedNoDefault(y, m.default);
    forall i | 0 <= i < n
      ensures timestamps[m.w - 1..][i] == from + i * m.interval
    {
      assert timestamps[m.w - 1..][i] == timestamps[i + m.w - 1];
      AddMultiples(m.w - 1, i, m.interval);
    }
  }

  lemma NumbersNeedNoDefault(y: seq<Value>, d: Default)
    requires forall i :: 0 <= i < |y| ==> y[i].Num?
    ensures WithDefaults(y, d) == y
  {
  }

  lemma HistoryIsFilled(m: Model, data: seq<Entry>, from: int, n: nat)
    ensures var h := History(m, data, from, n); WithDefaults(h, m.default) == h
  {
    hide WithDefaults;
    var raw := RawHistory(m, data, from, n + m.w - 1);
    DefaultsAreIdempotent(raw, m.default, 0);
    assert WithDefaults(raw, m.default)[0..] == WithDefaults(raw, m.default);
  }

  lemma HistoryFails(m: Model, data: seq<Entry>, from: int, to: int, n: nat, failure: Failure)
    requires BuildDateRange(from, to, m.interval).Ok?
    requires var r := BuildDateRange(from, to, m.interval).value;
      && n == TruncDiv(r.to - r.from, m.interval)
      && match failure
         case BadRange => false
         case NoData => n + m.w - 1 == 0
         case NotEnoughData =>
           && n == 0 && n + m.w - 1 > 0
           && forall e :: !Uncomputable(m, data, r.from, n, e)
         case BucketFailed(e) =>
           n + m.w - 1 > 0 && Uncomputable(m, data, r.from, n, e)
    ensures FailsWith(m, data, from, to, failure)
  {
  }

  lemma NothingFails(m: Model, data: seq<Entry>, from: int, to: int, n: nat)
    requires n > 0 && BuildDateRange(from, to, m.interval).Ok?
    requires var r := BuildDateRange(from, to, m.interval).value;
      && n == TruncDiv(r.to - r.from, m.interval)
      && forall e :: !Uncomputable(m, data, r.from, n, e)
    ensures forall e :: !FailsWith(m, data, from, to, e)
  {
    hide Uncomputable, BuildDateRange, TruncDiv;
  }

  lemma BadRanges(m: Model, data: seq<Entry>, from: int, to: int)
    requires BuildDateRange(from, to, m.interval).Err?
    ensures FailsWith(m, data, from, to, BadRange)
  {
  }

  // ---------------------------------------------------------------- forecast

  /** The factor drawn for cell k at step j, less one: uniform noise in the source. */
  type Noise = (nat, nat) -> real

  function OnlyLast(w: nat): (flags: seq<bool>)
    ensures |flags| == w
  {
    seq(w, k => k == w - 1)
  }

  function Noisy(v: real, expand: real): real {
    v * (1.0 + expand)
  }

  function Expand(x: seq<real>, noise: Noise, j: nat): (y: seq<real>)
    ensures |y| == |x|
  {
    seq(|x|, k requires 0 <= k < |x| => Noisy(x[k], noise(j, k)))
  }

  /** np.roll by one to the left, the last cell set to zero. */
  function Rolled(x: seq<real>): (y: seq<real>)
    requires x != []
    ensures |y| == |x|
  {
    x[1..] + [0.0]
  }

  /** The window after the network and the noise of step j. */
  function Decoded(m: Model, x: seq<real>, noise: Noise, j: nat): (y: seq<real>)
    ensures |y| == |x|
  {
    Expand(Mcmc(m.decode, x, OnlyLast(|x|), MCMC_COUNT), noise, j)
  }

  function WindowBefore(m: Model, x0: seq<real>, noise: Noise, j: nat): (x: seq<real>)
    requires x0 != []
    ensures |x| == |x0|
  {
    if j == 0 then x0 else Rolled(Decoded(m, WindowBefore(m, x0, noise, j - 1), noise, j - 1))
  }

  function ForecastAt(m: Model, x0: seq<real>, noise: Noise, j: nat): real
    requires x0 != []
  {
    Last(Decoded(m, WindowBefore(m, x0, noise, j), noise, j))
  }

  /** One MCMC round in place: only the last cell is missing. */
  method FillInPlace(m: Model, x: array<real>)
    requires x.Length > 0
    modifies x
    ensures x[..] == Fill(m.decode, old(x[..]), OnlyLast(x.Length))
  {
    var last := x.Length - 1;
    x[last] := m.decode(x[..], OnlyLast(x.Length), last);
  }

  /** One step of the forecast, in place: fill the last cell, apply the noise, record. */
  method StepInPlace(m: Model, x: array<real>, noise: Noise, j: nat) returns (value: real)
    requires x.Length > 0
    modifies x
    ensures x[..] == Decoded(m, old(x[..]), noise, j) && value == Last(x[..])
  {
    ghost var before := x[..];
    for round := 0 to MCMC_COUNT
      invariant x[..] == Mcmc(m.decode, before, OnlyLast(x.Length), round)
    {
      FillInPlace(m, x);
    }
    ghost var filled := x[..];
    for k := 0 to x.Length
      invariant forall i :: 0 <= i < k ==> x[i] == Noisy(filled[i], noise(j, i))
      invariant forall i :: k <= i < x.Length ==> x[i] == filled[i]
    {
      x[k] := Noisy(x[k], noise(j, k));
    }
    assert x[..] == Expand(filled, noise, j) by {
      hide Noisy;
    }
    value := x[x.Length - 1];
  }

  method Roll(x: array<real>) returns (rolled: array<real>)
    requires x.Length > 0
    ensures fresh(rolled) && rolled[..] == Rolled(x[..])
  {
    var last := x.Length - 1;
    rolled := new real[x.Length](k requires 0 <= k < x.Length reads x => if k < last then x[k + 1] else x[0]);
    rolled[last] := 0.0;
  }

  /** The loop of forecast over `steps` windows, of which only the first is used. */
  method ForecastLoop(m: Model, x0: array<real>, noise: Noise, steps: nat) returns (y: seq<real>)
    requires x0.Length > 0
    modifies x0
    ensures |y| == steps && forall j :: 0 <= j < steps ==> y[j] == ForecastAt(m, old(x0[..]), noise, j)
  {
    hide Decoded, Rolled;
    ghost var first := x0[..];
    var x := x0;
    y := [];
    for j := 0 to steps
      invariant x.Length == x0.Length && (x == x0 || fresh(x))
      invariant x[..] == WindowBefore(m, first, noise, j)
      invariant |y| == j && forall i :: 0 <= i < j ==> y[i] == ForecastAt(m, first, noise, i)
    {
      var value := StepInPlace(m, x, noise, j);
      y := y + [value];
      x := Roll(x);
    }
  }

  /** The value forecast for bucket j of the range: the window rolls on from the first one. */
  function ForecastOf(m: Model, h: seq<Value>, noise: Noise, j: nat): Value
    requires m.w <= |h|
  {
    Num(Unscale(m, ForecastAt(m, WindowCells(m, h, 0), noise, j)))
  }

  /** The windows of a forecast of n values, ten rounds for each: the first is the history's, each
      later one the one before with the noise applied, moved by one cell and ending in a zero. */
  ghost predicate AreForecastWindows(m: Model, h: seq<Value>, noise: Noise, n: nat, x: seq<seq<seq<real>>>, missing: seq<bool>)
    requires m.w <= |h|
  {
    && |x| == n && |missing| == m.w && (forall k :: 0 <= k < m.w ==> (missing[k] <==> k == m.w - 1))
    && (forall j :: 0 <= j < n ==> AreRounds(m, x[j], missing))
    && (n > 0 ==> IsShown(m, h, 0, x[0][0]))
    && forall j, k :: 0 < j < n && 0 <= k < m.w ==>
         x[j][0][k] == if k == m.w - 1 then 0.0 else x[j - 1][10][k + 1] * (1.0 + noise(j - 1, k + 1))
  }

  /** Forecast j is the last cell of its window after the rounds and the noise, unscaled. */
  ghost predicate IsForecast(m: Model, h: seq<Value>, noise: Noise, x: seq<seq<seq<real>>>, missing: seq<bool>, y: seq<Value>)
    requires m.w <= |h| && AreForecastWindows(m, h, noise, |y|, x, missing)
  {
    forall j :: 0 <= j < |y| ==> y[j].Num? && y[j].v == x[j][10][m.w - 1] * (1.0 + noise(j, m.w - 1)) * m.std + m.mean
  }

  ghost predicate IsForecasted(m: Model, h: seq<Value>, noise: Noise, y: seq<Value>)
    requires m.w <= |h|
  {
    exists x, missing :: AreForecastWindows(m, h, noise, |y|, x, missing) && IsForecast(m, h, noise, x, missing, y)
  }

  ghost function ForecastWindows(m: Model, x0: seq<real>, noise: Noise, n: nat): (x: seq<seq<seq<real>>>)
    requires |x0| == m.w
    ensures |x| == n
  {
    seq(n, j requires 0 <= j < n => Rounds(m, WindowBefore(m, x0, noise, j), OnlyLast(m.w)))
  }

  lemma WindowsRollOn(m: Model, x0: seq<real>, noise: Noise, j: nat, k: nat)
    requires |x0| == m.w && k < m.w
    ensures WindowBefore(m, x0, noise, j + 1)[k] ==
      if k == m.w - 1 then 0.0
      else Rounds(m, WindowBefore(m, x0, noise, j), OnlyLast(m.w))[10][k + 1] * (1.0 + noise(j, k + 1))
  {
    hide Mcmc;
    RoundsAreRounds(m, WindowBefore(m, x0, noise, j), OnlyLast(m.w));
  }

  lemma ForecastOfWindow(m: Model, h: seq<Value>, noise: Noise, j: nat)
    requires m.w <= |h|
    ensures var x := Rounds(m, WindowBefore(m, WindowCells(m, h, 0), noise, j), OnlyLast(m.w));
      ForecastOf(m, h, noise, j).Num? && ForecastOf(m, h, noise, j).v == x[10][m.w - 1] * (1.0 + noise(j, m.w - 1)) * m.std + m.mean
  {
    hide Mcmc, WindowBefore, Rounds;
    var last := Mcmc(m.decode, WindowBefore(m, WindowCells(m, h, 0), noise, j), OnlyLast(m.w), MCMC_COUNT)[m.w - 1];
    assert ForecastAt(m, WindowCells(m, h, 0), noise, j) == Noisy(last, noise(j, m.w - 1));
    RoundsAreRounds(m, WindowBefore(m, WindowCells(m, h, 0), noise, j), OnlyLast(m.w));
  }

  lemma WindowsAreForecastWindows(m: Model, h: seq<Value>, noise: Noise, n: nat)
    requires m.w <= |h|
    ensures AreForecastWindows(m, h, noise, n, ForecastWindows(m, WindowCells(m, h, 0), noise, n), OnlyLast(m.w))
  {
    hide AreRounds, IsShown, WindowCells, WindowBefore, Rounds;
    var x0, missing := WindowCells(m, h, 0), OnlyLast(m.w);
    var x := ForecastWindows(m, x0, noise, n);
    CellsAreShown(m, h, 0);
    FirstWindow(m, x0, noise);
    forall j | 0 <= j < n
      ensures AreRounds(m, x[j], missing) && x[j][0] == WindowBefore(m, x0, noise, j)
    {
      RoundsAreRounds(m, WindowBefore(m, x0, noise, j), missing);
    }
    forall j, k | 0 < j < n && 0 <= k < m.w
      ensures x[j][0][k] == if k == m.w - 1 then 0.0 else x[j - 1][10][k + 1] * (1.0 + noise(j - 1, k + 1))
    {
      WindowsRollOn(m, x0, noise, j - 1, k);
    }
  }

  lemma FirstWindow(m: Model, x0: seq<real>, noise: Noise)
    requires x0 != []
    ensures WindowBefore(m, x0, noise, 0) == x0
  {
  }

  /** The values forecast are the network's answers along these windows. */
  lemma ForecastIsAnswer(m: Model, h: seq<Value>, noise: Noise, y: seq<Value>)
    requires m.w <= |h| && forall j :: 0 <= j < |y| ==> y[j] == ForecastOf(m, h, noise, j)
    ensures IsForecasted(m, h, noise, y)
  {
    hide AreForecastWindows, WindowCells, ForecastOf, WindowBefore, Rounds, OnlyLast;
    var x := ForecastWindows(m, WindowCells(m, h, 0), noise, |y|);
    WindowsAreForecastWindows(m, h, noise, |y|);
    forall j | 0 <= j < |y|
      ensures |x[j][10]| == m.w
      ensures y[j].Num? && y[j].v == x[j][10][m.w - 1] * (1.0 + noise(j, m.w - 1)) * m.std + m.mean
    {
      ForecastOfWindow(m, h, noise, j);
    }
    assert IsForecast(m, h, noise, x, OnlyLast(m.w), y);
  }

  method Forecast(m: Model, bucket: MemBucket, from: int, to: int, noise: Noise) returns (r: Result<Prediction, Failure>)
    requires bucket.Valid()
    ensures r.Err? ==> FailsWith(m, bucket.data, from, to, r.error)
    ensures r.Ok? ==> forall e :: !FailsWith(m, bucket.data, from, to, e)
    ensures r.Ok? ==>
      && BuildDateRange(from, to, m.interval).Ok?
      && var range := BuildDateRange(from, to, m.interval).value;
         var n := TruncDiv(range.to - range.from, m.interval);
         && n > 0
         && var h := History(m, bucket.data, range.from, n);
            && IsPrediction(m, h, range.from, n, r.value)
            && (forall j :: 0 <= j < n ==> r.value.predicted[j] == ForecastOf(m, h, noise, j))
            && IsForecasted(m, h, noise, r.value.predicted)
  {
    hide *;
    var period := BuildDateRange(from, to, m.interval);
    if period.Err? {
      BadRanges(m, bucket.data, from, to);
      return Err(BadRange);
    }
    var range := period.value;
    AlignedLength(from, to, m.interval);
    var n: nat := TruncDiv(range.to - range.from, m.interval);
    var failure, history, timestamps := LoadHistory(m, bucket, range.from, n, range.to);
    if failure.Some? {
      HistoryFails(m, bucket.data, from, to, n, failure.value);
      return Err(failure.value);
    }
    var y := ForecastValues(m, history, noise, n);
    if |y| == 0 {
      HistoryFails(m, bucket.data, from, to, n, NotEnoughData);
      return Err(NotEnoughData);
    }
    var p := Finished(m, history, timestamps, y);
    HistoryIsFilled(m, bucket.data, range.from, n);
    FinishedIsPrediction(m, history, timestamps, y, range.from, n);
    NothingFails(m, bucket.data, from, to, n);
    ForecastIsAnswer(m, history, noise, y);
    return Ok(p);
  }

  method ForecastValues(m: Model, h: seq<Value>, noise: Noise, n: nat) returns (y: seq<Value>)
    requires |h| == n + m.w - 1
    ensures |y| == n && forall j :: 0 <= j < n ==> y[j].Num? && y[j] == ForecastOf(m, h, noise, j)
  {
    hide WindowCells, ForcedFlags, ForecastAt;
    var x, _ := HistoryWindows(m, h);
    y := [];
    if |x| > 0 {
      var window := x[0];
      var first := new real[m.w](k requires 0 <= k < m.w => window[k]);
      assert first[..] == window;
      var values := ForecastLoop(m, first, noise, |x|);
      for j := 0 to |x|
        invariant |y| == j && forall i :: 0 <= i < j ==> y[i] == ForecastOf(m, h, noise, i)
      {
        y := y + [Num(Unscale(m, values[j]))];
      }
    }
  }

  // ---------------------------------------------------------------- the plain recurrence

  /** The last |past| values of past followed by ys. */
  function Context(past: seq<real>, ys: seq<real>): seq<real> {
    (past + ys)[|ys|..]
  }

  /** The next forecast from the values before it: `seen` is what the last cell holds at first,
      zero from the second step on. */
  function NextForecast(m: Model, past: seq<real>, seen: real, ys: seq<real>): real {
    var x := Context(past, ys) + [if ys == [] then seen else 0.0];
    Last(Mcmc(m.decode, x, OnlyLast(|x|), MCMC_COUNT))
  }

  function Forecasts(m: Model, past: seq<real>, seen: real, n: nat): (ys: seq<real>)
    ensures |ys| == n
  {
    if n == 0 then [] else
      var ys := Forecasts(m, past, seen, n - 1);
      ys + [NextForecast(m, past, seen, ys)]
  }

  lemma ExpandByNothing(x: seq<real>, noise: Noise, j: nat)
    requires forall i: nat, k: nat :: noise(i, k) == 0.0
    ensures Expand(x, noise, j) == x
  {
  }

  /** Without noise the network only replaces the last cell, so the rest of the window is history
      followed by earlier forecasts. */
  lemma DecodedKeepsContext(m: Model, context: seq<real>, last: real, noise: Noise, j: nat)
    requires forall i: nat, k: nat :: noise(i, k) == 0.0
    ensures var x := context + [last];
      var z := Decoded(m, x, noise, j);
      z == context + [Last(z)] && Last(z) == Last(Mcmc(m.decode, x, OnlyLast(|x|), MCMC_COUNT))
  {
    var x := context + [last];
    var z := Mcmc(m.decode, x, OnlyLast(|x|), MCMC_COUNT);
    ExpandByNothing(z, noise, j);
    forall k | 0 <= k < |context|
      ensures z[k] == context[k]
    {
      McmcKeepsPresent(m.decode, x, OnlyLast(|x|), MCMC_COUNT, k);
    }
  }

  /** The in-place loop with a rolled buffer, without noise, computes the plain recurrence. */
  lemma {:induction false} LoopIsRecurrence(m: Model, past: seq<real>, seen: real, noise: Noise, j: nat)
    requires forall i: nat, k: nat :: noise(i, k) == 0.0
    ensures var ys := Forecasts(m, past, seen, j);
      && WindowBefore(m, past + [seen], noise, j) == Context(past, ys) + [if j == 0 then seen else 0.0]
      && ForecastAt(m, past + [seen], noise, j) == NextForecast(m, past, seen, ys)
  {
    hide Mcmc;
    var ys := Forecasts(m, past, seen, j);
    if j == 0 {
      assert Context(past, []) == past;
    } else {
      LoopIsRecurrence(m, past, seen, noise, j - 1);
      var before := Forecasts(m, past, seen, j - 1);
      DecodedKeepsContext(m, Context(past, before), if j == 1 then seen else 0.0, noise, j - 1);
      RollContext(past, before, ys[j - 1]);
    }
    DecodedKeepsContext(m, Context(past, ys), if j == 0 then seen else 0.0, noise, j);
  }

  lemma RollContext(past: seq<real>, ys: seq<real>, y: real)
    ensures Rolled(Context(past, ys) + [y]) == Context(past, ys + [y]) + [0.0]
  {
    assert past + (ys + [y]) == past + ys + [y];
  }

  // ---------------------------------------------------------------- what a forecast can see

  lemma {:induction false} BetweenOfEarlier(data: seq<Entry>, lo: Option<int>, hi: int, t: int)
    requires hi <= t
    ensures Between(Between(data, None, t), lo, hi) == Between(data, lo, hi)
  {
    hide Between;
    if data == [] {
      BetweenNone(data, None, t);
      BetweenNone(data, lo, hi);
    } else {
      var rest := data[1..];
      BetweenOfEarlier(rest, lo, hi, t);
      BetweenFirst(data, None, t);
      BetweenFirst(data, lo, hi);
      if data[0].ts < t {
        var kept := [data[0]] + Between(rest, None, t);
        BetweenFirst(kept, lo, hi);
        assert kept[1..] == Between(rest, None, t);
      } else {
        assert Between(data, None, t) == Between(rest, None, t) && Between(data, lo, hi) == Between(rest, lo, hi);
      }
    }
  }

  /** The first W buckets of the history hold nothing from after the first bucket of the range. */
  lemma EarlyRawValues(m: Model, a: seq<Entry>, b: seq<Entry>, from: int, k: nat)
    requires Between(a, None, from + m.interval) == Between(b, None, from + m.interval) && k < m.w
    ensures RawValue(m, a, from, k) == RawValue(m, b, from, k)
  {
    hide Between;
    var start, t := HistoryStart(m, from), from + m.interval;
    var lo, hi := LowerBound(start, m.interval, k), start + (k + 1) * m.interval;
    MultiplyMonotone(k + 1, m.w, m.interval);
    Distribute(m.w, m.interval);
    BetweenOfEarlier(a, lo, hi, t);
    BetweenOfEarlier(b, lo, hi, t);
  }

  /** No look-ahead: whatever the noise, two datasets with the same entries up to the end of the
      first bucket of the range get the same forecast for all of it. */
  lemma NoLookAhead(m: Model, a: seq<Entry>, b: seq<Entry>, from: int, n: nat, noise: Noise, j: nat)
    requires n > 0 && Between(a, None, from + m.interval) == Between(b, None, from + m.interval)
    ensures ForecastOf(m, History(m, a, from, n), noise, j) == ForecastOf(m, History(m, b, from, n), noise, j)
  {
    hide Between, RawValue, ForecastAt, WindowCells;
    var count := n + m.w - 1;
    var x, y := RawHistory(m, a, from, count), RawHistory(m, b, from, count);
    forall k | 0 <= k < m.w
      ensures x[k] == y[k]
    {
      EarlyRawValues(m, a, b, from, k);
    }
    forall i | 0 <= i < m.w
      ensures History(m, a, from, n)[i] == History(m, b, from, n)[i]
    {
      assert x[..i + 1] == y[..i + 1];
      FilledLooksBack(x, y, m.default, i);
    }
    SameFirstWindow(m, History(m, a, from, n), History(m, b, from, n));
  }

  lemma SameFirstWindow(m: Model, h: seq<Value>, h': seq<Value>)
    requires |h| >= m.w && |h'| >= m.w && forall i :: 0 <= i < m.w ==> h[i] == h'[i]
    ensures WindowCells(m, h, 0) == WindowCells(m, h', 0)
  {
  }

  lemma LastCell(m: Model, h: seq<Value>, i: nat)
    requires i + m.w <= |h|
    ensures Last(WindowCells(m, h, i)) == ScaledOrZero(m, h[i + m.w - 1])
  {
    hide ScaledOrZero;
    var k := m.w - 1;
    assert WindowCells(m, h, i)[k] == ScaledOrZero(m, h[i + k]);
  }

  /** A network that gives back what it is shown. */
  ghost predicate IsIdentity(decode: Decoder) {
    forall x: seq<real>, flags: seq<bool>, k: nat :: k < |x| ==> decode(x, flags, k) == x[k]
  }

  lemma {:induction false} IdentityChangesNothing(decode: Decoder, x: seq<real>, flags: seq<bool>, rounds: nat)
    requires |x| == |flags| && IsIdentity(decode)
    ensures Mcmc(decode, x, flags, rounds) == x
  {
    if rounds == 0 {
    } else {
      IdentityChangesNothing(decode, x, flags, rounds - 1);
    }
  }

  /** The cell to predict is flagged as missing but not cleared, so the network is shown the very
      value it is to predict: the identity network predicts every observed value, and forecasts
      the observed value of the first bucket. */
  lemma ObservedValueIsShown(m: Model, h: seq<Value>, i: nat, noise: Noise)
    requires IsIdentity(m.decode) && i + m.w <= |h| && h[i + m.w - 1].Num?
    ensures PredictedAt(m, h, i) == h[i + m.w - 1]
    ensures i == 0 && (forall j: nat, k: nat :: noise(j, k) == 0.0) ==> ForecastOf(m, h, noise, 0) == h[m.w - 1]
  {
    hide Mcmc;
    var x := WindowCells(m, h, i);
    IdentityChangesNothing(m.decode, x, ForcedFlags(m, h, i), MCMC_COUNT);
    IdentityChangesNothing(m.decode, x, OnlyLast(|x|), MCMC_COUNT);
    ScaleRoundTrip(m, h[i + m.w - 1].v);
    LastCell(m, h, i);
    if forall j: nat, k: nat :: noise(j, k) == 0.0 {
      ExpandByNothing(x, noise, 0);
    }
  }

  lemma {:induction false} ConstantRounds(decode: Decoder, x: seq<real>, flags: seq<bool>, rounds: nat, c: real, k: nat)
    requires |x| == |flags| && k < |x| && flags[k] && rounds > 0 && IsConstant(decode, c)
    ensures Mcmc(decode, x, flags, rounds)[k] == c
  {
    if rounds == 1 {
    } else {
      ConstantRounds(decode, x, flags, rounds - 1, c, k);
    }
  }

  /** The decoder of a network that always answers c. */
  ghost predicate IsConstant(decode: Decoder, c: real) {
    forall x: seq<real>, flags: seq<bool>, k: nat :: decode(x, flags, k) == c
  }

  /** Such a network predicts the unscaled c for every bucket, whatever was observed. */
  lemma ConstantPrediction(m: Model, h: seq<Value>, i: nat, c: real)
    requires i + m.w <= |h| && IsConstant(m.decode, c)
    ensures PredictedAt(m, h, i).Num? && PredictedAt(m, h, i).v == c * m.std + m.mean
  {
    hide Mcmc, WindowCells;
    ConstantRounds(m.decode, WindowCells(m, h, i), ForcedFlags(m, h, i), MCMC_COUNT, c, m.w - 1);
  }

  /** And, without noise, it forecasts it. */
  lemma ConstantForecast(m: Model, h: seq<Value>, noise: Noise, j: nat, c: real)
    requires m.w <= |h| && IsConstant(m.decode, c)
    requires forall j: nat, k: nat :: noise(j, k) == 0.0
    ensures ForecastOf(m, h, noise, j).Num? && ForecastOf(m, h, noise, j).v == c * m.std + m.mean
  {
    hide Mcmc, WindowCells, WindowBefore;
    var x := WindowBefore(m, WindowCells(m, h, 0), noise, j);
    var z := Mcmc(m.decode, x, OnlyLast(|x|), MCMC_COUNT);
    ConstantRounds(m.decode, x, OnlyLast(|x|), MCMC_COUNT, c, m.w - 1);
    ExpandByNothing(z, noise, j);
    assert Last(Decoded(m, x, noise, j)) == Last(z) == c;
  }

  /** Cell i of the history belongs to the bucket that starts i - (W - 1) intervals after the range:
      it is the aggregate of that bucket if this is a number, and the default otherwise. */
  lemma CellOfHistory(m: Model, data: seq<Entry>, from: int, n: nat, i: nat)
    requires i < n + m.w - 1
    ensures var h := History(m, data, from, n);
      var bucket := BucketAt(data, from - (m.w - 1) * m.interval, m.interval, i);
      && bucket.key == from + (i - (m.w - 1)) * m.interval
      && (forall v :: Aggregate(bucket.data, m.feature) == Ok(Num(v)) ==> h[i] == Num(v))
      && ((Aggregate(bucket.data, m.feature).Err? || Aggregate(bucket.data, m.feature) == Ok(NaN)) ==>
            h[i] == match m.default
              case Previous => if i == 0 then NaN else h[i - 1]
              case Fixed(v) => Num(v)
              case NoDefault => NaN)
  {
    hide BucketAt, Aggregate;
    AddMultiples(i - (m.w - 1), m.w - 1, m.interval);
    KeyOfBucket(data, from - (m.w - 1) * m.interval, m.interval, i);
    var raw := RawHistory(m, data, from, n + m.w - 1);
    assert raw[i] == RawValue(m, data, from, i);
  }

  /** Entry i of a prediction or forecast is about one bucket of the range: the one that starts at its
      timestamp, whose aggregate is the observed value if it is a number. */
  lemma ObservedIsOfItsBucket(m: Model, data: seq<Entry>, from: int, n: nat, p: Prediction, i: nat, v: real)
    requires IsPrediction(m, History(m, data, from, n), from, n, p) && i < n
    requires Aggregate(BucketAt(data, from - (m.w - 1) * m.interval, m.interval, i + m.w - 1).data, m.feature) == Ok(Num(v))
    ensures p.observed[i] == Num(v)
    ensures p.timestamps[i] == from + i * m.interval
    ensures p.timestamps[i] == BucketAt(data, from - (m.w - 1) * m.interval, m.interval, i + m.w - 1).key
  {
    hide BucketAt, Aggregate, History;
    CellOfHistory(m, data, from, n, i + m.w - 1);
  }

  lemma KeyOfBucket(data: seq<Entry>, from: int, step: int, k: nat)
    ensures BucketAt(data, from, step, k).key == from + k * step
  {
  }

  /** Each failure in terms of the request and of the rows the query yields. */
  lemma WhyItFails(m: Model, data: seq<Entry>, from: int, to: int)
    ensures FailsWith(m, data, from, to, BadRange) <==> to + m.interval <= FloorDiv(from, m.interval) * m.interval
    ensures BuildDateRange(from, to, m.interval).Ok? ==>
      var r := BuildDateRange(from, to, m.interval).value;
      var start := r.from - (m.w - 1) * m.interval;
      var rows := BucketCount(start, r.to, m.interval);
      && (FailsWith(m, data, from, to, NoData) <==> rows == 0)
      && (FailsWith(m, data, from, to, NotEnoughData) <==>
            0 < rows < m.w && forall e :: !Fails(data, start, m.interval, rows, [m.feature], e))
      && (forall e :: FailsWith(m, data, from, to, BucketFailed(e)) <==>
            Fails(data, start, m.interval, rows, [m.feature], e))
  {
    hide Fails, BuildDateRange, TruncDiv, FloorDiv, BucketCount;
    RejectedRanges(from, to, m.interval);
    if BuildDateRange(from, to, m.interval).Ok? {
      var r := BuildDateRange(from, to, m.interval).value;
      AlignedLength(from, to, m.interval);
      var n: nat := TruncDiv(r.to - r.from, m.interval);
      HistoryLength(m, r.from, n);
      var start := HistoryStart(m, r.from);
      var rows := BucketCount(start, r.to, m.interval);
      forall e
        ensures Uncomputable(m, data, r.from, n, e) == Fails(data, start, m.interval, rows, [m.feature], e)
        ensures rows == 0 ==> !Fails(data, start, m.interval, rows, [m.feature], e)
      {
        NoFailureOfNothing(data, start, m.interval, [m.feature], e);
      }
      assert (forall e :: !Uncomputable(m, data, r.from, n, e)) <==>
        forall e :: !Fails(data, start, m.interval, rows, [m.feature], e);
    }
  }

  // ---------------------------------------------------------------- the training set

  /** What training allocates for a range: two cells more than it has buckets. */
  function ComputeNbBuckets(from: int, to: int, step: int): int
    requires step > 0
  {
    TruncDiv(to - from, step) + 2
  }

  /** The rows of a training query fit into what is allocated and, once that is cut down to them,
      there are exactly as many as the mask of abnormal buckets has cells. */
  lemma TrainingSetMatchesMask(from: int, to: int, step: int, periods: seq<Period>)
    requires step > 0 && BuildDateRange(from, to, step).Ok?
    ensures var r := BuildDateRange(from, to, step).value;
      var rows := BucketCount(r.from, r.to, step);
      && rows + 2 == ComputeNbBuckets(r.from, r.to, step)
      && rows == GetIndex(r.to, r.from, step)
      && rows == |Mask(periods, r.from, step, rows)|
  {
    var r := BuildDateRange(from, to, step).value;
    AlignedLength(from, to, step);
    WholeBuckets(r.from, r.to, step, TruncDiv(r.to - r.from, step));
  }
}
