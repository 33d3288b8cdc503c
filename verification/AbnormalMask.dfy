/**
 The mask of abnormal training buckets: _get_index and _format_windows in loudml/donut.py.
 */
module AbnormalMask {
  import opened Rounding

  /** A period reported as abnormal. */
  datatype Period = Period(from: int, to: int)

  function GetIndex(ts: int, from: int, step: int): int
    requires step > 0
  {
    TruncDiv(ts - from, step)
  }

  function Clamp(k: int, size: nat): (c: nat)
    ensures c <= size
  {
    if k < 0 then 0 else if k > size then size else k
  }

  /** Bucket k ends at from + (k + 1) * step; the period marks it if it contains that moment. */
  ghost predicate Marks(p: Period, from: int, step: int, k: nat) {
    p.from < from + (k + 1) * step <= p.to
  }

  ghost predicate MarkedBy(ps: seq<Period>, from: int, step: int, k: nat) {
    exists i :: 0 <= i < |ps| && Marks(ps[i], from, step, k)
  }

  ghost function Mask(ps: seq<Period>, from: int, step: int, size: nat): (mask: seq<bool>)
    ensures |mask| == size
  {
    seq(size, k requires 0 <= k < size => MarkedBy(ps, from, step, k))
  }

  lemma BeforeIndex(ts: int, from: int, step: int, k: nat)
    requires step > 0
    ensures k < GetIndex(ts, from, step) <==> from + (k + 1) * step <= ts
  {
    var d := ts - from;
    Distribute(k, step);
    if d >= 0 {
      var q := FloorDiv(d, step);
      FloorBounds(d, step);
      Distribute(q, step);
      MultiplyMonotone(k + 1, q, step);
      MultiplyMonotone(k + 1, q + 1, step);
    } else {
      FloorBounds(-d, step);
      MultiplyMonotone(0, k + 1, step);
      MultiplyMonotone(0, FloorDiv(-d, step), step);
      if FloorDiv(-d, step) < 0 {
        MultiplyMonotone(FloorDiv(-d, step) + 1, 0, step);
        Distribute(FloorDiv(-d, step), step);
      }
    }
  }

  /** The slice written for a period covers exactly the buckets it marks, although indices are
      truncated towards zero and then clamped. */
  lemma SliceIsMarks(p: Period, from: int, step: int, size: nat, k: nat)
    requires step > 0 && k < size
    ensures Clamp(GetIndex(p.from, from, step), size) <= k < Clamp(GetIndex(p.to, from, step), size) <==>
      Marks(p, from, step, k)
  {
    BeforeIndex(p.from, from, step, k);
    BeforeIndex(p.to, from, step, k);
  }

  method FormatWindows(from: int, to: int, step: int, periods: seq<Period>) returns (abnormal: array<bool>)
    requires step > 0 && from <= to
    ensures abnormal[..] == Mask(periods, from, step, (to - from) / step)
  {
    var size := GetIndex(to, from, step);
    abnormal := new bool[size](_ => false);
    for i := 0 to |periods|
      invariant forall k :: 0 <= k < size ==> abnormal[k] == MarkedBy(periods[..i], from, step, k)
    {
      var x := Clamp(GetIndex(periods[i].from, from, step), size);
      var y := Clamp(GetIndex(periods[i].to, from, step), size);
      ghost var before := abnormal[..];
      for j := x to if x <= y then y else x
        invariant forall k :: 0 <= k < size ==> abnormal[k] == (before[k] || x <= k < j)
      {
        abnormal[j] := true;
      }
      forall k: nat | k < size
        ensures abnormal[k] == MarkedBy(periods[..i + 1], from, step, k)
      {
        SliceIsMarks(periods[i], from, step, size, k);
        OneMore(periods, i, from, step, k);
        assert before[k] == MarkedBy(periods[..i], from, step, k);
      }
    }
    assert periods[..|periods|] == periods;
  }

  lemma OneMore(ps: seq<Period>, i: nat, from: int, step: int, k: nat)
    requires i < |ps|
    ensures MarkedBy(ps[..i + 1], from, step, k) <==> MarkedBy(ps[..i], from, step, k) || Marks(ps[i], from, step, k)
  {
    if MarkedBy(ps[..i], from, step, k) {
      var j :| 0 <= j < i && Marks(ps[..i][j], from, step, k);
      assert Marks(ps[..i + 1][j], from, step, k);
    }
    if Marks(ps[i], from, step, k) {
      assert ps[..i + 1][i] == ps[i];
    }
  }

  /** The mask is the disjunction of the masks of the single periods, so their order and
      repetitions do not matter. */
  lemma MaskIsUnion(ps: seq<Period>, qs: seq<Period>, from: int, step: int, size: nat)
    ensures forall k :: 0 <= k < size ==>
      (Mask(ps, from, step, size)[k] <==> exists p :: p in ps && Mask([p], from, step, size)[k])
    ensures (forall p :: p in ps <==> p in qs) ==> Mask(ps, from, step, size) == Mask(qs, from, step, size)
  {
    forall k | 0 <= k < size
      ensures MarkedBy(ps, from, step, k) <==> exists p :: p in ps && MarkedBy([p], from, step, k)
    {
      SinglePeriods(ps, from, step, k);
    }
    if forall p :: p in ps <==> p in qs {
      forall k | 0 <= k < size
        ensures MarkedBy(ps, from, step, k) == MarkedBy(qs, from, step, k)
      {
        SinglePeriods(ps, from, step, k);
        SinglePeriods(qs, from, step, k);
      }
    }
  }

  lemma SinglePeriods(ps: seq<Period>, from: int, step: int, k: nat)
    ensures MarkedBy(ps, from, step, k) <==> exists p :: p in ps && MarkedBy([p], from, step, k)
  {
    if MarkedBy(ps, from, step, k) {
      var i :| 0 <= i < |ps| && Marks(ps[i], from, step, k);
      assert Marks([ps[i]][0], from, step, k);
      assert ps[i] in ps;
    }
    if exists p :: p in ps && MarkedBy([p], from, step, k) {
      var p :| p in ps && MarkedBy([p], from, step, k);
      var i :| 0 <= i < |ps| && ps[i] == p;
      assert Marks(ps[i], from, step, k);
    }
  }

  ghost predicate Overlaps(p: Period, from: int, step: int, k: nat) {
    p.from < from + (k + 1) * step && from + k * step < p.to
  }

  /** A consequence: a bucket stays unmarked exactly when every period that overlaps it ends before
      the bucket does; in particular a period inside one bucket marks nothing. */
  lemma OverlappedButUnmarked(ps: seq<Period>, from: int, step: int, size: nat, k: nat)
    requires step > 0 && k < size
    ensures !Mask(ps, from, step, size)[k] <==>
      forall i :: 0 <= i < |ps| && Overlaps(ps[i], from, step, k) ==> ps[i].to < from + (k + 1) * step
    ensures forall i :: 0 <= i < |ps| && from + k * step <= ps[i].from && ps[i].to < from + (k + 1) * step ==>
      Mask([ps[i]], from, step, size) == seq(size, _ => false)
  {
    Distribute(k, step);
    forall i | 0 <= i < |ps|
      ensures Marks(ps[i], from, step, k) <==> Overlaps(ps[i], from, step, k) && ps[i].to >= from + (k + 1) * step
    {
    }
    forall i | 0 <= i < |ps| && from + k * step <= ps[i].from && ps[i].to < from + (k + 1) * step
      ensures Mask([ps[i]], from, step, size) == seq(size, _ => false)
    {
      MarksNothing(ps[i], from, step, size, k);
    }
  }

  lemma MarksNothing(p: Period, from: int, step: int, size: nat, k: nat)
    requires step > 0 && from + k * step <= p.from && p.to < from + (k + 1) * step
    ensures Mask([p], from, step, size) == seq(size, _ => false)
  {
    forall j: nat
      ensures !Marks(p, from, step, j)
    {
      MultiplyMonotone(j + 1, k, step);
      MultiplyMonotone(k + 1, j + 1, step);
    }
  }
}
