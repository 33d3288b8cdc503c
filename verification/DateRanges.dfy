/**
 Date ranges aligned on the bucket interval: DateRange.build_date_range in loudml/misc.py.
 */
module DateRanges {
  import opened Prelude
  import opened Rounding

  datatype DateRange = DateRange(from: int, to: int)

  datatype Error = InvalidRange

  function BuildDateRange(from: int, to: int, step: int): Result<DateRange, Error>
    requires step > 0
  {
    var r := DateRange(FloorDiv(from, step) * step, CeilDiv(to, step) * step);
    if r.to < r.from then Err(InvalidRange) else Ok(r)
  }

  ghost predicate Aligned(ts: int, step: int)
    requires step > 0
  {
    exists k :: k * step == ts
  }

  /** The range built for a request reaches from the last aligned time up to its beginning to the
      first aligned time from its end on: it is the smallest aligned range that covers the request,
      which is always accepted if it is in order. */
  lemma SmallestAlignedCover(from: int, to: int, step: int)
    requires step > 0
    ensures from <= to ==> BuildDateRange(from, to, step).Ok?
    ensures BuildDateRange(from, to, step).Ok? ==>
      var r := BuildDateRange(from, to, step).value;
      && Aligned(r.from, step) && Aligned(r.to, step)
      && r.from <= from && to <= r.to
      && forall f, t :: Aligned(f, step) && Aligned(t, step) && f <= from && to <= t ==> f <= r.from && r.to <= t
  {
    var f0, t0 := FloorDiv(from, step), CeilDiv(to, step);
    FloorBounds(from, step);
    CeilBounds(to, step);
    forall f | Aligned(f, step) && f <= from
      ensures f <= f0 * step
    {
      var k :| k * step == f;
      Distribute(f0, step);
      MultiplyMonotone(k, f0 + 1, step);
      MultiplyMonotone(k, f0, step);
    }
    forall t | Aligned(t, step) && to <= t
      ensures t0 * step <= t
    {
      var k :| k * step == t;
      Distribute(t0, step);
      MultiplyMonotone(t0 - 1, k, step);
      MultiplyMonotone(t0, k, step);
    }
    if from <= to {
      MultiplyMonotone(f0, t0, step);
    }
    assert Aligned(f0 * step, step) && Aligned(t0 * step, step);
  }

  /** The check on the order of the bounds comes after the alignment: a range whose end lies
      before its beginning is rejected exactly when the end is a whole step or more before the
      aligned beginning. */
  lemma RejectedRanges(from: int, to: int, step: int)
    requires step > 0
    ensures BuildDateRange(from, to, step).Err? <==> to + step <= FloorDiv(from, step) * step
  {
    var f, t := FloorDiv(from, step), CeilDiv(to, step);
    CeilBounds(to, step);
    Distribute(f, step);
    Distribute(t, step);
    MultiplyMonotone(t, f - 1, step);
    MultiplyMonotone(t, f, step);
    MultiplyMonotone(t - 1, f - 1, step);
  }

  /** The number of buckets in an aligned range is exact. */
  lemma AlignedLength(from: int, to: int, step: int)
    requires step > 0 && BuildDateRange(from, to, step).Ok?
    ensures var r := BuildDateRange(from, to, step).value; var n := TruncDiv(r.to - r.from, step);
      n >= 0 && n * step == r.to - r.from
  {
    var r := BuildDateRange(from, to, step).value;
    var f, t := FloorDiv(from, step), CeilDiv(to, step);
    MultiplyMonotone(f, t, step);
    assert r.to - r.from == (t - f) * step;
    FloorIs((t - f) * step, step, t - f);
  }
}
