/**
 The in-memory bucket: MemBucket in loudml/membucket.py.

 Timestamps and intervals are whole numbers of the smallest unit. Insertion is proved to keep
 the stable sort of everything inserted, the single-cursor scan over it to compute the plain
 definition of time buckets.
 */
module MemBuckets {
  import opened Prelude
  import opened Rounding

  datatype Entry = Entry(ts: int, fields: map<string, real>)

  // ---------------------------------------------------------------- the ordered list

  ghost predicate Sorted(data: seq<Entry>) {
    forall i, j :: 0 <= i < j < |data| ==> data[i].ts <= data[j].ts
  }

  /** bisect.bisect_right: after the entries up to ts. */
  function BisectRight(data: seq<Entry>, ts: int): (n: nat)
    ensures n <= |data|
    ensures forall i :: 0 <= i < n ==> data[i].ts <= ts
    ensures n < |data| ==> data[n].ts > ts
  {
    if data == [] || data[0].ts > ts then 0 else 1 + BisectRight(data[1..], ts)
  }

  /** bisect.bisect_left: before the entries from ts. */
  function BisectLeft(data: seq<Entry>, ts: int): (n: nat)
    ensures n <= |data|
    ensures forall i :: 0 <= i < n ==> data[i].ts < ts
    ensures n < |data| ==> data[n].ts >= ts
  {
    if data == [] || data[0].ts >= ts then 0 else 1 + BisectLeft(data[1..], ts)
  }

  function Insort(data: seq<Entry>, e: Entry): seq<Entry> {
    var n := BisectRight(data, e.ts);
    data[..n] + [e] + data[n..]
  }

  function InsortAll(entries: seq<Entry>): seq<Entry> {
    if entries == [] then [] else Insort(InsortAll(entries[..|entries| - 1]), entries[|entries| - 1])
  }

  /** The entries with one timestamp, in order. */
  ghost function AtTime(data: seq<Entry>, t: int): seq<Entry> {
    if data == [] then [] else (if data[0].ts == t then [data[0]] else []) + AtTime(data[1..], t)
  }

  ghost predicate IsStableSort(entries: seq<Entry>, data: seq<Entry>) {
    Sorted(data) && forall t :: AtTime(data, t) == AtTime(entries, t)
  }

  ghost function IfAt(e: Entry, t: int): seq<Entry> {
    if e.ts == t then [e] else []
  }

  lemma AtTimeFirst(data: seq<Entry>, t: int)
    ensures AtTime(data, t) == if data == [] then [] else IfAt(data[0], t) + AtTime(data[1..], t)
  {
  }

  lemma {:induction false} AtTimeConcat(a: seq<Entry>, b: seq<Entry>, t: int)
    ensures AtTime(a + b, t) == AtTime(a, t) + AtTime(b, t)
  {
    hide AtTime, IfAt;
    AtTimeFirst(a, t);
    if a == [] {
      assert a + b == b;
    } else {
      var ab := a + b;
      assert ab[0] == a[0] && ab[1..] == a[1..] + b;
      AtTimeFirst(ab, t);
      AtTimeConcat(a[1..], b, t);
    }
  }

  lemma {:induction false} AtTimeNone(data: seq<Entry>, t: int)
    requires forall i :: 0 <= i < |data| ==> data[i].ts != t
    ensures AtTime(data, t) == []
  {
    if data == [] {
    } else {
      AtTimeNone(data[1..], t);
    }
  }

  lemma AtTimeAppend(data: seq<Entry>, e: Entry, t: int)
    ensures AtTime(data + [e], t) == AtTime(data, t) + IfAt(e, t)
  {
    AtTimeConcat(data, [e], t);
    assert AtTime([e], t) == IfAt(e, t) + AtTime([e][1..], t);
  }

  lemma InsortIsSorted(data: seq<Entry>, e: Entry)
    requires Sorted(data)
    ensures Sorted(Insort(data, e))
  {
    var n, r := BisectRight(data, e.ts), Insort(data, e);
    forall i, j | 0 <= i < j < |r|
      ensures r[i].ts <= r[j].ts
    {
      assert r[i] == if i < n then data[i] else if i == n then e else data[i - 1];
      assert r[j] == if j < n then data[j] else if j == n then e else data[j - 1];
      assert n < j ==> data[n].ts <= data[j - 1].ts;
    }
  }

  lemma InsertAt(data: seq<Entry>, n: nat, e: Entry, t: int)
    requires n <= |data| && forall i :: n <= i < |data| ==> data[i].ts > e.ts
    ensures AtTime(data[..n] + [e] + data[n..], t) == AtTime(data, t) + IfAt(e, t)
  {
    hide AtTime;
    var a, b := data[..n], data[n..];
    AtTimeConcat(a + [e], b, t);
    AtTimeAppend(a, e, t);
    AtTimeConcat(a, b, t);
    assert data == a + b;
    if e.ts == t {
      AtTimeNone(b, t);
    }
  }

  lemma InsortIsStable(data: seq<Entry>, e: Entry, t: int)
    requires Sorted(data)
    ensures AtTime(Insort(data, e), t) == AtTime(data, t) + IfAt(e, t)
  {
    var n := BisectRight(data, e.ts);
    assert forall i :: n <= i < |data| ==> data[i].ts > e.ts;
    InsertAt(data, n, e, t);
  }

  /** After any sequence of inserts the list is the stable sort of what was inserted. */
  lemma {:induction false} InsertsSort(entries: seq<Entry>)
    ensures IsStableSort(entries, InsortAll(entries))
  {
    hide AtTime, Insort;
    if entries == [] {
    } else {
      var before, e := entries[..|entries| - 1], entries[|entries| - 1];
      InsertsSort(before);
      InsortIsSorted(InsortAll(before), e);
      forall t
        ensures AtTime(InsortAll(entries), t) == AtTime(entries, t)
      {
        InsortIsStable(InsortAll(before), e, t);
        AtTimeAppend(before, e, t);
        assert entries == before + [e];
      }
    }
  }

  lemma {:induction false} AtTimeMember(data: seq<Entry>, i: nat)
    requires i < |data|
    ensures AtTime(data, data[i].ts) != []
  {
    if i == 0 {
    } else {
      AtTimeMember(data[1..], i - 1);
    }
  }

  lemma EarliestIsFirst(a: seq<Entry>, b: seq<Entry>)
    requires a != [] && Sorted(b) && AtTime(b, a[0].ts) != []
    ensures b != [] && b[0].ts <= a[0].ts
  {
    if b == [] || a[0].ts < b[0].ts {
      AtTimeNone(b, a[0].ts);
    }
  }

  /** There is only one stable sort, so the list is determined by what was inserted. */
  lemma {:induction false} StableSortIsUnique(a: seq<Entry>, b: seq<Entry>)
    requires Sorted(a) && Sorted(b) && forall t :: AtTime(a, t) == AtTime(b, t)
    ensures a == b
  {
    if a == [] {
      EmptyAtAllTimes(b);
    } else {
      AtTimeMember(a, 0);
      EarliestIsFirst(a, b);
      AtTimeMember(b, 0);
      EarliestIsFirst(b, a);
      SameFirst(a, b);
      StableSortIsUnique(a[1..], b[1..]);
      assert a == [a[0]] + a[1..] && b == [b[0]] + b[1..];
    }
  }

  lemma EmptyAtAllTimes(b: seq<Entry>)
    requires forall t :: AtTime(b, t) == []
    ensures b == []
  {
    if b != [] {
      AtTimeMember(b, 0);
      assert false;
    }
  }

  lemma SameFirst(a: seq<Entry>, b: seq<Entry>)
    requires a != [] && b != [] && a[0].ts == b[0].ts && forall t :: AtTime(a, t) == AtTime(b, t)
    ensures a[0] == b[0] && forall t :: AtTime(a[1..], t) == AtTime(b[1..], t)
  {
    assert AtTime(a, a[0].ts)[0] == a[0] && AtTime(b, a[0].ts)[0] == b[0];
    forall t
      ensures AtTime(a[1..], t) == AtTime(b[1..], t)
    {
      var first := if a[0].ts == t then [a[0]] else [];
      assert AtTime(a, t) == first + AtTime(a[1..], t) && AtTime(b, t) == first + AtTime(b[1..], t);
      assert AtTime(a[1..], t) == AtTime(a, t)[|first|..];
    }
  }

  // ---------------------------------------------------------------- time buckets

  datatype TimeBucket = TimeBucket(key: int, data: seq<Entry>)

  /** The entries from lo up to but excluding hi, in order; no lower bound if lo is None. */
  ghost function Between(data: seq<Entry>, lo: Option<int>, hi: int): seq<Entry> {
    if data == [] then [] else
      (if (lo.None? || lo.value <= data[0].ts) && data[0].ts < hi then [data[0]] else []) + Between(data[1..], lo, hi)
  }

  ghost predicate Inside(e: Entry, lo: Option<int>, hi: int) {
    (lo.None? || lo.value <= e.ts) && e.ts < hi
  }

  lemma BetweenFirst(data: seq<Entry>, lo: Option<int>, hi: int)
    requires data != []
    ensures Between(data, lo, hi) == (if Inside(data[0], lo, hi) then [data[0]] else []) + Between(data[1..], lo, hi)
  {
  }

  lemma {:induction false} BetweenAll(data: seq<Entry>, lo: Option<int>, hi: int)
    requires forall i :: 0 <= i < |data| ==> Inside(data[i], lo, hi)
    ensures Between(data, lo, hi) == data
  {
    if data == [] {
    } else {
      BetweenAll(data[1..], lo, hi);
      assert data == [data[0]] + data[1..];
    }
  }

  lemma {:induction false} BetweenNone(data: seq<Entry>, lo: Option<int>, hi: int)
    requires forall i :: 0 <= i < |data| ==> !Inside(data[i], lo, hi)
    ensures Between(data, lo, hi) == []
  {
    if data == [] {
    } else {
      BetweenNone(data[1..], lo, hi);
    }
  }

  lemma {:induction false} BetweenConcat(a: seq<Entry>, b: seq<Entry>, lo: Option<int>, hi: int)
    ensures Between(a + b, lo, hi) == Between(a, lo, hi) + Between(b, lo, hi)
  {
    hide Between;
    if a == [] {
      assert a + b == b;
      BetweenNone(a, lo, hi);
    } else {
      var ab := a + b;
      assert ab[0] == a[0] && ab[1..] == a[1..] + b;
      BetweenFirst(ab, lo, hi);
      BetweenFirst(a, lo, hi);
      BetweenConcat(a[1..], b, lo, hi);
    }
  }

  lemma BetweenIsSlice(data: seq<Entry>, i: nat, j: nat, lo: Option<int>, hi: int)
    requires i <= j <= |data|
    requires forall k :: 0 <= k < |data| ==> (Inside(data[k], lo, hi) <==> i <= k < j)
    ensures Between(data, lo, hi) == data[i..j]
  {
    hide Between;
    BetweenNone(data[..i], lo, hi);
    BetweenAll(data[i..j], lo, hi);
    BetweenNone(data[j..], lo, hi);
    BetweenConcat(data[..i], data[i..j], lo, hi);
    BetweenConcat(data[..i] + data[i..j], data[j..], lo, hi);
    assert data == data[..i] + data[i..j] + data[j..];
  }

  /** The lower bound of bucket k: a zero from_date is taken as none, so the first bucket then
      takes everything before its end. */
  function LowerBound(from: int, step: int, k: nat): Option<int> {
    if k == 0 && from == 0 then None else Some(from + k * step)
  }

  ghost function BucketAt(data: seq<Entry>, from: int, step: int, k: nat): TimeBucket {
    TimeBucket(from + k * step, Between(data, LowerBound(from, step, k), from + (k + 1) * step))
  }

  function BucketCount(from: int, to: int, step: int): nat
    requires step > 0
  {
    if to <= from then 0 else
      CeilBounds(to - from, step);
      MultiplyMonotone(0, CeilDiv(to - from, step), step);
      CeilDiv(to - from, step)
  }

  ghost predicate AreBuckets(data: seq<Entry>, from: int, step: int, buckets: seq<TimeBucket>) {
    forall k :: 0 <= k < |buckets| ==> buckets[k] == BucketAt(data, from, step, k)
  }

  /** Where the cursor stands before bucket k: everything before it is too early. */
  ghost predicate IsCursor(data: seq<Entry>, from: int, step: int, k: nat, lo: nat) {
    && lo <= |data|
    && forall i :: 0 <= i < |data| ==>
         (i < lo <==> LowerBound(from, step, k).Some? && data[i].ts < from + k * step)
  }

  lemma LastBucket(from: int, to: int, step: int, k: nat)
    requires step > 0 && from + k * step >= to && (k > 0 ==> from + (k - 1) * step < to)
    ensures k == BucketCount(from, to, step)
  {
    Distribute(k, step);
    if k > 0 {
      MultiplyMonotone(0, k - 1, step);
      CeilIs(to - from, step, k);
    }
  }

  /** The entries of interval k are those from position i up to j. */
  ghost predicate IsStretch(data: seq<Entry>, from: int, step: int, k: nat, i: int, j: int) {
    && 0 <= i <= j <= |data|
    && forall l :: 0 <= l < |data| ==>
         (i <= l < j <==> data[l].ts < from + (k + 1) * step && (from + k * step <= data[l].ts || (k == 0 && from == 0)))
  }

  /** Bucket k of sorted entries is the stretch of exactly those whose time lies in its interval, in
      order; a beginning of zero counts as none, so that first bucket has no lower bound. */
  lemma BucketIsStretch(data: seq<Entry>, from: int, step: int, k: nat)
    requires Sorted(data) && step > 0
    ensures BucketAt(data, from, step, k).key == from + k * step
    ensures exists i, j :: IsStretch(data, from, step, k, i, j) && BucketAt(data, from, step, k).data == data[i..j]
  {
    var bound, end := LowerBound(from, step, k), from + (k + 1) * step;
    Distribute(k, step);
    assert k == 0 ==> k * step == 0;
    var i := if bound.None? then 0 else BisectLeft(data, bound.value);
    var j := BisectLeft(data, end);
    assert forall l :: i <= l < |data| ==> bound.None? || data[l].ts >= bound.value;
    assert forall l :: j <= l < |data| ==> data[l].ts >= end;
    assert i <= j;
    assert forall l :: 0 <= l < |data| ==> (Inside(data[l], bound, end) <==> i <= l < j);
    BetweenIsSlice(data, i, j, bound, end);
    assert IsStretch(data, from, step, k, i, j);
  }

  ghost function Joined(buckets: seq<TimeBucket>): seq<Entry> {
    if buckets == [] then [] else Joined(buckets[..|buckets| - 1]) + buckets[|buckets| - 1].data
  }

  lemma {:induction false} BetweenSplits(data: seq<Entry>, lo: Option<int>, mid: int, hi: int)
    requires Sorted(data) && mid <= hi && (lo.Some? ==> lo.value <= mid)
    ensures Between(data, lo, hi) == Between(data, lo, mid) + Between(data, Some(mid), hi)
  {
    hide Between;
    if data == [] {
      BetweenNone(data, lo, hi);
      BetweenNone(data, lo, mid);
      BetweenNone(data, Some(mid), hi);
    } else {
      BetweenSplits(data[1..], lo, mid, hi);
      BetweenFirst(data, lo, hi);
      BetweenFirst(data, lo, mid);
      BetweenFirst(data, Some(mid), hi);
      if data[0].ts >= mid {
        BetweenNone(data[1..], lo, mid);
      }
    }
  }

  /** The buckets partition the range: in order, each entry once, nothing left out. */
  lemma {:induction false} BucketsPartition(data: seq<Entry>, from: int, step: int, buckets: seq<TimeBucket>)
    requires Sorted(data) && step > 0 && buckets != [] && AreBuckets(data, from, step, buckets)
    ensures Joined(buckets) == Between(data, LowerBound(from, step, 0), from + |buckets| * step)
    decreases |buckets|
  {
    hide Between, Sorted;
    var n := |buckets| - 1;
    var before := buckets[..n];
    Distribute(n, step);
    assert buckets[n] == BucketAt(data, from, step, n);
    assert 0 * step == 0;
    if n == 0 {
      assert Joined(before) == [];
    } else {
      BucketsPartition(data, from, step, before);
      MultiplyMonotone(0, n, step);
      BetweenSplits(data, LowerBound(from, step, 0), from + n * step, from + |buckets| * step);
    }
  }

  /** When the step divides the range the buckets hold exactly the entries of the range: unless
      from_date is zero, and then exactly when nothing was inserted with a negative timestamp. */
  lemma BucketsCoverRange(data: seq<Entry>, from: int, to: int, step: int, buckets: seq<TimeBucket>)
    requires Sorted(data) && step > 0 && from < to && (to - from) % step == 0
    requires |buckets| == BucketCount(from, to, step) && AreBuckets(data, from, step, buckets)
    ensures Joined(buckets) == Between(data, Some(from), to) <==>
      from != 0 || forall i :: 0 <= i < |data| ==> data[i].ts >= 0
  {
    hide Between, Sorted, AreBuckets, Joined;
    WholeCount(from, to, step);
    BucketsPartition(data, from, step, buckets);
    assert 0 * step == 0;
    if from == 0 {
      BetweenSplits(data, None, 0, to);
      NegativeEntries(data);
      var early, inside := Between(data, None, 0), Between(data, Some(0), to);
      assert early + inside == inside <==> early == [] by {
        assert |early + inside| == |early| + |inside|;
      }
    }
  }

  lemma WholeCount(from: int, to: int, step: int)
    requires step > 0 && from < to && (to - from) % step == 0
    ensures BucketCount(from, to, step) > 0 && BucketCount(from, to, step) * step == to - from
  {
    CeilIs(to - from, step, (to - from) / step);
    MultiplyMonotone(BucketCount(from, to, step), 0, step);
  }

  lemma {:induction false} BetweenSome(data: seq<Entry>, i: nat, lo: Option<int>, hi: int)
    requires i < |data| && Inside(data[i], lo, hi)
    ensures Between(data, lo, hi) != []
  {
    if i == 0 {
    } else {
      BetweenSome(data[1..], i - 1, lo, hi);
    }
  }

  lemma NegativeEntries(data: seq<Entry>)
    ensures Between(data, None, 0) == [] <==> forall i :: 0 <= i < |data| ==> data[i].ts >= 0
  {
    hide Between;
    if forall i :: 0 <= i < |data| ==> data[i].ts >= 0 {
      BetweenNone(data, None, 0);
    } else {
      var i :| 0 <= i < |data| && data[i].ts < 0;
      BetweenSome(data, i, None, 0);
    }
  }

  // ---------------------------------------------------------------- aggregation

  datatype Metric = Avg | Count | MinOf | MaxOf | Other(name: string)

  datatype Feature = Feature(metric: Metric, field: string)

  /** Unsupported is UnsupportedMetric; Empty is the ValueError of min or max of no values. */
  datatype Error = Unsupported | Empty

  /** The values of a field, for the entries that have it. */
  function Values(data: seq<Entry>, field: string): (values: seq<real>)
    ensures |values| <= |data|
  {
    if data == [] then [] else
      (if field in data[0].fields then [data[0].fields[field]] else []) + Values(data[1..], field)
  }

  function Sum(values: seq<real>): real {
    if values == [] then 0.0 else values[0] + Sum(values[1..])
  }

  function Least(values: seq<real>): (m: real)
    requires values != []
    ensures m in values && forall i :: 0 <= i < |values| ==> m <= values[i]
  {
    if |values| == 1 then values[0] else
      var m := Least(values[1..]);
      if m < values[0] then m else values[0]
  }

  function Greatest(values: seq<real>): (m: real)
    requires values != []
    ensures m in values && forall i :: 0 <= i < |values| ==> values[i] <= m
  {
    if |values| == 1 then values[0] else
      var m := Greatest(values[1..]);
      if values[0] < m then m else values[0]
  }

  /** What a bucket contributes to a feature: NaN where the source has None. */
  function Aggregate(data: seq<Entry>, f: Feature): Result<Value, Error> {
    var values := Values(data, f.field);
    match f.metric
    case Count => Ok(Num(|values| as real))
    case Avg => Ok(if data == [] then NaN else Num(Sum(values) / |data| as real))
    case MinOf => if data == [] then Ok(NaN) else if values == [] then Err(Empty) else Ok(Num(Least(values)))
    case MaxOf => if data == [] then Ok(NaN) else if values == [] then Err(Empty) else Ok(Num(Greatest(values)))
    case Other(_) => Err(Unsupported)
  }

  ghost predicate HasField(data: seq<Entry>, field: string, i: int) {
    0 <= i < |data| && field in data[i].fields
  }

  lemma {:induction false} ValuesAreFields(data: seq<Entry>, field: string)
    ensures forall v :: v in Values(data, field) <==> exists i :: HasField(data, field, i) && data[i].fields[field] == v
    ensures forall i :: HasField(data, field, i) ==> data[i].fields[field] in Values(data, field)
  {
    if data == [] {
    } else {
      ValuesAreFields(data[1..], field);
      forall v
        ensures v in Values(data, field) <==> exists i :: HasField(data, field, i) && data[i].fields[field] == v
      {
        FieldsOfFirst(data, field, v);
      }
      forall i | HasField(data, field, i)
        ensures data[i].fields[field] in Values(data, field)
      {
        assert exists j :: HasField(data, field, j) && data[j].fields[field] == data[i].fields[field];
      }
    }
  }

  lemma FieldsOfFirst(data: seq<Entry>, field: string, v: real)
    requires data != []
    ensures (exists i :: HasField(data, field, i) && data[i].fields[field] == v) <==>
      || (field in data[0].fields && data[0].fields[field] == v)
      || exists i :: HasField(data[1..], field, i) && data[1..][i].fields[field] == v
  {
    if i :| HasField(data, field, i) && data[i].fields[field] == v {
      if i > 0 {
        assert HasField(data[1..], field, i - 1) && data[1..][i - 1] == data[i];
      }
    }
    if i :| HasField(data[1..], field, i) && data[1..][i].fields[field] == v {
      assert HasField(data, field, i + 1) && data[1..][i] == data[i + 1];
    }
    if field in data[0].fields {
      assert HasField(data, field, 0);
    }
  }

  /** The minimum of a bucket is the field of some entry that has it, and at most that of every such
      entry. */
  lemma MinimumIsLeast(data: seq<Entry>, field: string, v: real)
    ensures Aggregate(data, Feature(MinOf, field)) == Ok(Num(v)) <==>
      && (exists i :: HasField(data, field, i) && data[i].fields[field] == v)
      && (forall i :: HasField(data, field, i) ==> v <= data[i].fields[field])
  {
    var values := Values(data, field);
    ValuesAreFields(data, field);
    if values != [] {
      assert Least(values) in values;
    }
  }

  /** The maximum is the greatest such field. */
  lemma MaximumIsGreatest(data: seq<Entry>, field: string, v: real)
    ensures Aggregate(data, Feature(MaxOf, field)) == Ok(Num(v)) <==>
      && (exists i :: HasField(data, field, i) && data[i].fields[field] == v)
      && (forall i :: HasField(data, field, i) ==> data[i].fields[field] <= v)
  {
    var values := Values(data, field);
    ValuesAreFields(data, field);
    if values != [] {
      assert Greatest(values) in values;
    }
  }

  /** What is not a number: without entries the minimum, the maximum and the average are missing;
      entries without the field make the minimum and the maximum fail; an unknown metric fails. */
  lemma WhenNoNumber(data: seq<Entry>, f: Feature)
    ensures Aggregate(data, f) == Ok(NaN) <==> data == [] && (f.metric.MinOf? || f.metric.MaxOf? || f.metric.Avg?)
    ensures Aggregate(data, f) == Err(Empty) <==>
      data != [] && (f.metric.MinOf? || f.metric.MaxOf?) && forall i :: !HasField(data, f.field, i)
    ensures Aggregate(data, f) == Err(Unsupported) <==> f.metric.Other?
  {
    var values := Values(data, f.field);
    ValuesAreFields(data, f.field);
    if values != [] {
      assert values[0] in values;
    }
  }

  lemma {:induction false} ValuesConcat(a: seq<Entry>, b: seq<Entry>, field: string)
    ensures Values(a + b, field) == Values(a, field) + Values(b, field)
  {
    if a == [] {
      assert a + b == b;
    } else {
      var ab := a + b;
      assert ab[0] == a[0] && ab[1..] == a[1..] + b;
      ValuesConcat(a[1..], b, field);
    }
  }

  lemma ValuesOfOne(e: Entry, field: string)
    ensures Values([e], field) == if field in e.fields then [e.fields[field]] else []
  {
    assert [e][1..] == [];
  }

  /** The positions of the entries that have a field. */
  ghost function WithField(data: seq<Entry>, field: string): set<nat> {
    set i: nat | i < |data| && field in data[i].fields
  }

  lemma WithOneMore(data: seq<Entry>, field: string)
    requires data != []
    ensures var n := |data| - 1;
      |WithField(data, field)| == |WithField(data[..n], field)| + if field in data[n].fields then 1 else 0
  {
    var n := |data| - 1;
    assert WithField(data, field) == WithField(data[..n], field) + if field in data[n].fields then {n} else {};
  }

  lemma {:induction false} ValuesAreCounted(data: seq<Entry>, field: string)
    ensures |Values(data, field)| == |WithField(data, field)|
  {
    if data == [] {
      assert WithField(data, field) == {};
    } else {
      var n := |data| - 1;
      hide Values, WithField;
      var before, e := data[..n], data[n];
      ValuesAreCounted(before, field);
      assert data == before + [e];
      ValuesConcat(before, [e], field);
      ValuesOfOne(e, field);
      WithOneMore(data, field);
    }
  }

  /** The count of a bucket is the number of its entries that have the field. */
  lemma CountIsEntries(data: seq<Entry>, field: string)
    ensures Aggregate(data, Feature(Count, field)) == Ok(Num(|WithField(data, field)| as real))
  {
    ValuesAreCounted(data, field);
  }

  lemma {:induction false} SumConcat(a: seq<real>, b: seq<real>)
    ensures Sum(a + b) == Sum(a) + Sum(b)
  {
    if a == [] {
      assert a + b == b;
    } else {
      assert (a + b)[1..] == a[1..] + b;
      SumConcat(a[1..], b);
    }
  }

  /** What an average times its number of entries must be: zero for no entry, the field of a single
      one, or zero if it lacks the field, and additive. */
  lemma SumOfEntries(a: seq<Entry>, b: seq<Entry>, e: Entry, field: string)
    ensures Sum(Values([], field)) == 0.0
    ensures Sum(Values([e], field)) == if field in e.fields then e.fields[field] else 0.0
    ensures Sum(Values(a + b, field)) == Sum(Values(a, field)) + Sum(Values(b, field))
  {
    ValuesOfOne(e, field);
    assert field in e.fields ==> [e.fields[field]][1..] == [];
    ValuesConcat(a, b, field);
    SumConcat(Values(a, field), Values(b, field));
  }

  /** The average of a bucket times the number of its entries is that sum. */
  lemma AverageIsSumOverEntries(data: seq<Entry>, field: string, v: real)
    requires data != []
    ensures Aggregate(data, Feature(Avg, field)) == Ok(Num(v)) <==> v * |data| as real == Sum(Values(data, field))
  {
    QuotientIs(v, Sum(Values(data, field)), |data| as real);
  }

  lemma QuotientIs(v: real, total: real, n: real)
    requires n > 0.0
    ensures v == total / n <==> v * n == total
  {
    var q := total / n;
    assert q * n == total;
    if v * n == total {
      assert (v - q) * n == v * n - q * n;
      ZeroProduct(v - q, n);
    }
  }

  /** What an average should be: of the values there are, and missing if there are none. */
  function Mean(values: seq<real>): Value {
    if values == [] then NaN else Num(Sum(values) / |values| as real)
  }

  /** The average divides by the number of entries, not of values: it is the mean of the values
      exactly when every entry has the field, or there are values and they add up to zero. Entries
      without a single value average to an observed zero instead of a missing value. */
  lemma AverageIsMean(data: seq<Entry>, field: string)
    ensures var values := Values(data, field);
      Aggregate(data, Feature(Avg, field)) == Ok(Mean(values)) <==>
        (forall i :: 0 <= i < |data| ==> field in data[i].fields) || (values != [] && Sum(values) == 0.0)
    ensures data != [] && Values(data, field) == [] ==> Aggregate(data, Feature(Avg, field)) == Ok(Num(0.0))
  {
    var values := Values(data, field);
    ValuesOfAll(data, field);
    NoEntriesNoValues(data, field);
    hide Values, Sum;
    if values != [] {
      SameQuotient(Sum(values), |values| as real, |data| as real);
    } else if data != [] {
      AverageOfNothing(data, field);
    }
  }

  lemma NoEntriesNoValues(data: seq<Entry>, field: string)
    ensures data == [] ==> Values(data, field) == []
  {
  }

  lemma AverageOfNothing(data: seq<Entry>, field: string)
    requires data != [] && Values(data, field) == []
    ensures Aggregate(data, Feature(Avg, field)) == Ok(Num(0.0))
  {
    QuotientIs(0.0, 0.0, |data| as real);
  }

  lemma SameQuotient(total: real, n: real, m: real)
    requires 0.0 < n <= m
    ensures total / m == total / n <==> n == m || total == 0.0
  {
    var p, q := total / m, total / n;
    assert p * m == total && q * n == total;
    if p == q && n < m {
      assert p * (m - n) == p * m - p * n == 0.0;
      ZeroProduct(p, m - n);
      assert p == 0.0;
    }
    if total == 0.0 {
      ZeroProduct(p, m);
      ZeroProduct(q, n);
    }
  }

  lemma ZeroProduct(x: real, y: real)
    requires x * y == 0.0 && y > 0.0
    ensures x == 0.0
  {
    assert x > 0.0 ==> x * y > 0.0;
    assert x < 0.0 ==> (-x) * y > 0.0;
  }

  lemma {:induction false} ValuesOfAll(data: seq<Entry>, field: string)
    ensures |Values(data, field)| == |data| <==> forall i :: 0 <= i < |data| ==> field in data[i].fields
  {
    if data == [] {
    } else {
      ValuesOfAll(data[1..], field);
      assert (forall i :: 0 <= i < |data| ==> field in data[i].fields) <==>
        field in data[0].fields && forall i :: 0 <= i < |data[1..]| ==> field in data[1..][i].fields;
    }
  }

  /** One row of a query: the offset to the first row, the values, and the time of the bucket. */
  datatype Row = Row(offset: int, values: seq<Value>, ts: int)

  ghost predicate IsRow(row: Row, first: int, bucket: TimeBucket, features: seq<Feature>) {
    && row.offset == bucket.key - first && row.ts == bucket.key
    && |row.values| == |features|
    && forall i :: 0 <= i < |features| ==> Aggregate(bucket.data, features[i]) == Ok(row.values[i])
  }

  /** Some feature cannot be computed on some bucket of the range. */
  ghost predicate Fails(data: seq<Entry>, from: int, step: int, count: nat, features: seq<Feature>, error: Error) {
    exists k, i :: 0 <= k < count && 0 <= i < |features| &&
      Aggregate(BucketAt(data, from, step, k).data, features[i]) == Err(error)
  }

  lemma FailsAt(data: seq<Entry>, from: int, step: int, count: nat, features: seq<Feature>, error: Error, k: nat)
    requires k < count
    requires exists i :: 0 <= i < |features| && Aggregate(BucketAt(data, from, step, k).data, features[i]) == Err(error)
    ensures Fails(data, from, step, count, features, error)
  {
    hide Aggregate, BucketAt;
  }

  lemma RowsDoNotFail(data: seq<Entry>, from: int, step: int, rows: seq<Row>, features: seq<Feature>)
    requires forall k :: 0 <= k < |rows| ==> IsRow(rows[k], from, BucketAt(data, from, step, k), features)
    ensures forall e :: !Fails(data, from, step, |rows|, features, e)
  {
    hide Aggregate, BucketAt;
  }

  ghost predicate AreAggregates(data: seq<Entry>, features: seq<Feature>, values: seq<Value>) {
    |values| == |features| && forall f :: 0 <= f < |features| ==> Aggregate(data, features[f]) == Ok(values[f])
  }

  /** Row k of a query is k intervals after the first and has the time of its bucket, and a value for
      each feature: the aggregate over the entries of that bucket. */
  lemma RowOfQuery(data: seq<Entry>, from: int, step: int, features: seq<Feature>, k: nat, row: Row)
    requires Sorted(data) && step > 0 && IsRow(row, from, BucketAt(data, from, step, k), features)
    ensures row.offset == k * step && row.ts == from + k * step && |row.values| == |features|
    ensures exists i, j :: IsStretch(data, from, step, k, i, j) && AreAggregates(data[i..j], features, row.values)
  {
    hide Aggregate;
    BucketIsStretch(data, from, step, k);
    var i, j :| IsStretch(data, from, step, k, i, j) && BucketAt(data, from, step, k).data == data[i..j];
  }

  class MemBucket {
    var data: seq<Entry>
    ghost var inserted: seq<Entry>

    ghost predicate Valid()
      reads this
    {
      data == InsortAll(inserted) && IsStableSort(inserted, data)
    }

    constructor ()
      ensures Valid() && inserted == []
    {
      data, inserted := [], [];
    }

    method InsertTimesData(e: Entry)
      requires Valid()
      modifies this
      ensures Valid() && inserted == old(inserted) + [e]
    {
      var n := BisectRight(data, e.ts);
      data := data[..n] + [e] + data[n..];
      inserted := inserted + [e];
      InsertsSort(inserted);
    }

    /** One bucket of the scan: the entries from the cursor on, up to the first at its end. */
    method TakeBucket(start: int, end: int, lo: nat) returns (bucket: TimeBucket, next: nat)
      requires lo <= |data|
      ensures lo <= next <= |data| && bucket == TimeBucket(start, data[lo..next])
      ensures forall i :: lo <= i < next ==> data[i].ts < end
      ensures next < |data| ==> data[next].ts >= end
    {
      var taken := [];
      next := lo;
      while next < |data|
        invariant lo <= next <= |data| && taken == data[lo..next]
        invariant forall i :: lo <= i < next ==> data[i].ts < end
      {
        if data[next].ts >= end {
          break;
        }
        taken := taken + [data[next]];
        next := next + 1;
      }
      bucket := TimeBucket(start, taken);
    }

    /** The scan with a single cursor computes the plain definition of the buckets. */
    method GetTimesBuckets(from: int, to: int, step: int) returns (buckets: seq<TimeBucket>)
      requires Valid() && step > 0
      ensures |buckets| == BucketCount(from, to, step)
      ensures AreBuckets(data, from, step, buckets)
    {
      var lo: nat := if from != 0 then BisectLeft(data, from) else 0;
      var start := from;
      ghost var k: nat := 0;
      buckets := [];
      assert 0 * step == 0;
      FirstCursor(data, from, step);
      while start < to
        invariant |buckets| == k && start == from + k * step && (k > 0 ==> from + (k - 1) * step < to)
        invariant IsCursor(data, from, step, k, lo)
        invariant AreBuckets(data, from, step, buckets)
      {
        var end := start + step;
        Distribute(k, step);
        var bucket, next := TakeBucket(start, end, lo);
        NextCursor(data, from, step, k, lo, next);
        lo := next;
        start := end;
        buckets := buckets + [bucket];
        k := k + 1;
      }
      LastBucket(from, to, step, k);
    }

    method ComputeRow(bucket: TimeBucket, first: int, features: seq<Feature>) returns (r: Result<Row, Error>)
      ensures r.Ok? ==> IsRow(r.value, first, bucket, features)
      ensures r.Err? ==> exists i :: 0 <= i < |features| && Aggregate(bucket.data, features[i]) == Err(r.error)
    {
      var x: seq<Value> := [];
      for i := 0 to |features|
        invariant |x| == i && forall j :: 0 <= j < i ==> Aggregate(bucket.data, features[j]) == Ok(x[j])
      {
        var v := Aggregate(bucket.data, features[i]);
        if v.Err? {
          return Err(v.error);
        }
        x := x + [v.value];
      }
      return Ok(Row(bucket.key - first, x, bucket.key));
    }

    /** One row per bucket of the range, or the error of a feature that cannot be computed. */
    method GetTimesData(step: int, features: seq<Feature>, from: int, to: int) returns (r: Result<seq<Row>, Error>)
      requires Valid() && step > 0
      ensures r.Ok? ==>
        && |r.value| == BucketCount(from, to, step)
        && forall k :: 0 <= k < |r.value| ==> IsRow(r.value[k], from, BucketAt(data, from, step, k), features)
      ensures r.Err? ==> Fails(data, from, step, BucketCount(from, to, step), features, r.error)
      ensures r.Ok? ==> forall e :: !Fails(data, from, step, BucketCount(from, to, step), features, e)
    {
      hide BucketAt, Valid, Aggregate, IsRow, Fails;
      var buckets := GetTimesBuckets(from, to, step);
      var rows: seq<Row> := [];
      for k := 0 to |buckets|
        invariant |rows| == k
        invariant forall j :: 0 <= j < k ==> IsRow(rows[j], from, BucketAt(data, from, step, j), features)
      {
        assert buckets[k] == BucketAt(data, from, step, k);
        FirstKey(data, from, step);
        var row := ComputeRow(buckets[k], buckets[0].key, features);
        if row.Err? {
          assert Fails(data, from, step, BucketCount(from, to, step), features, row.error) by {
            FailsAt(data, from, step, BucketCount(from, to, step), features, row.error, k);
          }
          return Err(row.error);
        }
        rows := rows + [row.value];
      }
      RowsDoNotFail(data, from, step, rows, features);
      return Ok(rows);
    }
  }

  lemma FirstCursor(data: seq<Entry>, from: int, step: int)
    requires Sorted(data)
    ensures IsCursor(data, from, step, 0, if from != 0 then BisectLeft(data, from) else 0)
  {
    var lo := BisectLeft(data, from);
    assert forall i :: lo <= i < |data| ==> data[i].ts >= from;
  }

  lemma NextCursor(data: seq<Entry>, from: int, step: int, k: nat, lo: nat, next: nat)
    requires Sorted(data) && step > 0 && IsCursor(data, from, step, k, lo) && lo <= next <= |data|
    requires forall i :: lo <= i < next ==> data[i].ts < from + (k + 1) * step
    requires next < |data| ==> data[next].ts >= from + (k + 1) * step
    ensures IsCursor(data, from, step, k + 1, next)
    ensures TimeBucket(from + k * step, data[lo..next]) == BucketAt(data, from, step, k)
  {
    Distribute(k, step);
    MultiplyMonotone(0, k + 1, step);
    var bound, end := LowerBound(from, step, k), from + (k + 1) * step;
    assert forall i :: next <= i < |data| ==> data[i].ts >= end;
    assert forall i :: 0 <= i < lo ==> data[i].ts < from + k * step;
    assert forall i :: 0 <= i < |data| ==> (Inside(data[i], bound, end) <==> lo <= i < next);
    BetweenIsSlice(data, lo, next, bound, end);
  }

  lemma FirstKey(data: seq<Entry>, from: int, step: int)
    ensures BucketAt(data, from, step, 0).key == from
  {
    assert 0 * step == 0;
  }
}
