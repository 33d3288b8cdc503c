/**
 Sliding windows: apply_defaults, _format_dataset and train_test_split in loudml/donut.py.
 */
module Windows {
  import opened Prelude

  // ---------------------------------------------------------------- defaults

  /** The default of a feature: the previous value, a number, or none (a NaN). */
  datatype Default = Previous | Fixed(v: real) | NoDefault

  /** What apply_defaults makes of cell i: the last number up to it, the default, or itself. */
  function Filled(x: seq<Value>, d: Default, i: nat): Value
    requires i < |x|
  {
    if x[i].Num? then x[i]
    else match d
      case NoDefault => NaN
      case Fixed(v) => Num(v)
      case Previous => if i == 0 then NaN else Filled(x, d, i - 1)
  }

  function WithDefaults(x: seq<Value>, d: Default): (y: seq<Value>)
    ensures |y| == |x|
  {
    seq(|x|, i requires 0 <= i < |x| => Filled(x, d, i))
  }

  method ApplyDefaults(x: array<Value>, d: Default)
    modifies x
    ensures x[..] == WithDefaults(old(x[..]), d)
  {
    match d {
      case Previous =>
        var previous := NaN;
        for j := 0 to x.Length
          invariant forall i :: 0 <= i < j ==> x[i] == Filled(old(x[..]), d, i)
          invariant forall i :: j <= i < x.Length ==> x[i] == old(x[i])
          invariant previous == if j == 0 then NaN else Filled(old(x[..]), d, j - 1)
        {
          if x[j].NaN? {
            x[j] := previous;
          } else {
            previous := x[j];
          }
        }
      case Fixed(v) =>
        for j := 0 to x.Length
          invariant forall i :: 0 <= i < j ==> x[i] == Filled(old(x[..]), d, i)
          invariant forall i :: j <= i < x.Length ==> x[i] == old(x[i])
        {
          if x[j].NaN? {
            x[j] := Num(v);
          }
        }
      case NoDefault =>
    }
  }

  /** A filled cell is the last number before it, if the default is the previous value and there
      is one. */
  lemma {:induction false} PreviousIsLastNumber(x: seq<Value>, i: nat, k: nat)
    requires k <= i < |x| && x[k].Num? && forall j :: k < j <= i ==> x[j].NaN?
    ensures Filled(x, Previous, i) == x[k]
  {
    if k == i {
    } else {
      PreviousIsLastNumber(x, i - 1, k);
    }
  }

  /** Which cells stay without a value. */
  lemma {:induction false} StillMissing(x: seq<Value>, d: Default, i: nat)
    requires i < |x|
    ensures Filled(x, d, i).NaN? <==>
      x[i].NaN? && (d.NoDefault? || (d.Previous? && forall j :: 0 <= j <= i ==> x[j].NaN?))
  {
    if !d.Previous? || i == 0 {
    } else {
      StillMissing(x, d, i - 1);
    }
  }

  /** A number stays what it is; a missing cell with a number as default gets it, and without a
      default, or first in the list with the previous value as default, stays missing. */
  lemma FilledWith(x: seq<Value>, d: Default, i: nat)
    requires i < |x|
    ensures x[i].Num? ==> Filled(x, d, i) == x[i]
    ensures x[i].NaN? && d.Fixed? ==> Filled(x, d, i) == Num(d.v)
    ensures x[i].NaN? && d.NoDefault? ==> Filled(x, d, i) == NaN
    ensures x[i].NaN? && d.Previous? ==> Filled(x, d, i) == if i == 0 then NaN else Filled(x, d, i - 1)
  {
  }

  /** Cell i depends on no later cell. */
  lemma {:induction false} FilledLooksBack(x: seq<Value>, y: seq<Value>, d: Default, i: nat)
    requires i < |x| && i < |y| && x[..i + 1] == y[..i + 1]
    ensures Filled(x, d, i) == Filled(y, d, i)
  {
    assert x[i] == x[..i + 1][i] && y[i] == y[..i + 1][i];
    if i == 0 {
    } else {
      assert x[..i] == x[..i + 1][..i] && y[..i] == y[..i + 1][..i];
      FilledLooksBack(x, y, d, i - 1);
    }
  }

  /** Applying the defaults again, to the whole or to a part, changes nothing. */
  lemma {:induction false} FilledTwice(x: seq<Value>, d: Default, from: nat, i: nat)
    requires from <= from + i < |x|
    ensures Filled(WithDefaults(x, d)[from..], d, i) == Filled(x, d, from + i)
  {
    var y := WithDefaults(x, d);
    assert y[from..][i] == Filled(x, d, from + i);
    StillMissing(x, d, from + i);
    if i == 0 {
    } else {
      FilledTwice(x, d, from, i - 1);
      StillMissing(x, d, from + i - 1);
    }
  }

  lemma DefaultsAreIdempotent(x: seq<Value>, d: Default, from: nat)
    requires from <= |x|
    ensures WithDefaults(WithDefaults(x, d)[from..], d) == WithDefaults(x, d)[from..]
  {
    forall i | 0 <= i < |x| - from
      ensures WithDefaults(WithDefaults(x, d)[from..], d)[i] == WithDefaults(x, d)[from..][i]
    {
      FilledTwice(x, d, from, i);
    }
  }

  // ---------------------------------------------------------------- windows

  predicate IsMissing(x: seq<Value>, abnormal: Option<seq<bool>>, i: nat)
    requires i < |x| && (abnormal.Some? ==> |abnormal.value| >= |x|)
  {
    x[i].NaN? || (abnormal.Some? && abnormal.value[i])
  }

  function Cell(x: seq<Value>, abnormal: Option<seq<bool>>, i: nat): Value
    requires i < |x| && (abnormal.Some? ==> |abnormal.value| >= |x|)
  {
    if IsMissing(x, abnormal, i) then Num(0.0) else x[i]
  }

  predicate HasNaN(x: seq<Value>, i: nat, w: nat)
    requires i + w <= |x|
  {
    exists k :: i <= k < i + w && x[k].NaN?
  }

  /** The windows kept among those starting before n: all of them, or those without a NaN. */
  function Starts(x: seq<Value>, w: nat, acceptMissing: bool, n: nat): (starts: seq<nat>)
    requires n == 0 || n - 1 + w <= |x|
    ensures forall j :: 0 <= j < |starts| ==> starts[j] < n
  {
    if n == 0 then [] else
      Starts(x, w, acceptMissing, n - 1) + if acceptMissing || !HasNaN(x, n - 1, w) then [n - 1] else []
  }

  function WindowCount(n: nat, w: nat): nat
  {
    if w <= n then n - w + 1 else 0
  }

  /** The missing flags and the values of one window. */
  ghost predicate IsWindow(x: seq<Value>, abnormal: Option<seq<bool>>, w: nat, i: nat, flags: seq<bool>, cells: seq<Value>)
    requires i + w <= |x| && (abnormal.Some? ==> |abnormal.value| >= |x|)
  {
    && |flags| == |cells| == w
    && forall k :: 0 <= k < w ==> flags[k] == IsMissing(x, abnormal, i + k) && cells[k] == Cell(x, abnormal, i + k)
  }

  /** One window for each start. */
  ghost predicate AreWindows(
      x: seq<Value>, abnormal: Option<seq<bool>>, w: nat, starts: seq<nat>, flags: seq<seq<bool>>, cells: seq<seq<Value>>)
    requires abnormal.Some? ==> |abnormal.value| >= |x|
  {
    && |flags| == |cells| == |starts|
    && forall j :: 0 <= j < |starts| ==> starts[j] + w <= |x| && IsWindow(x, abnormal, w, starts[j], flags[j], cells[j])
  }

  /** The lax variant keeps every window. */
  lemma {:induction false} AllStarts(x: seq<Value>, w: nat, n: nat)
    requires n == 0 || n - 1 + w <= |x|
    ensures |Starts(x, w, true, n)| == n && forall i :: 0 <= i < n ==> Starts(x, w, true, n)[i] == i
  {
    if n == 0 {
    } else {
      AllStarts(x, w, n - 1);
    }
  }

  /** The strict variant selects exactly the windows without a NaN, in order. */
  lemma {:induction false} StrictStarts(x: seq<Value>, w: nat, n: nat)
    requires n == 0 || n - 1 + w <= |x|
    ensures forall i: nat :: i in Starts(x, w, false, n) <==> i < n && forall k :: i <= k < i + w ==> x[k].Num?
    ensures forall j, k :: 0 <= j < k < |Starts(x, w, false, n)| ==> Starts(x, w, false, n)[j] < Starts(x, w, false, n)[k]
  {
    if n == 0 {
    } else {
      StrictStarts(x, w, n - 1);
      assert HasNaN(x, n - 1, w) <==> !forall k :: n - 1 <= k < n - 1 + w ==> x[k].Num?;
    }
  }

  /** One window, built in place: a copy whose missing cells are set to zero. */
  method FormatWindow(x: seq<Value>, abnormal: Option<seq<bool>>, w: nat, i: nat) returns (flags: seq<bool>, cells: seq<Value>)
    requires i + w <= |x| && (abnormal.Some? ==> |abnormal.value| >= |x|)
    ensures IsWindow(x, abnormal, w, i, flags, cells)
  {
    var copy := new Value[w](k requires 0 <= k < w => x[i + k]);
    flags := seq(w, k requires 0 <= k < w => IsMissing(x, abnormal, i + k));
    for k := 0 to w
      invariant forall j :: 0 <= j < k ==> copy[j] == Cell(x, abnormal, i + j)
      invariant forall j :: k <= j < w ==> copy[j] == x[i + j]
    {
      if flags[k] {
        copy[k] := Num(0.0);
      }
    }
    cells := copy[..];
  }

  method FormatDataset(x: seq<Value>, w: nat, acceptMissing: bool, abnormal: Option<seq<bool>>)
    returns (missing: seq<seq<bool>>, dataX: seq<seq<Value>>)
    requires w > 0 && (abnormal.Some? ==> |abnormal.value| >= |x|)
    ensures AreWindows(x, abnormal, w, Starts(x, w, acceptMissing, WindowCount(|x|, w)), missing, dataX)
  {
    missing, dataX := [], [];
    var n := WindowCount(|x|, w);
    for i := 0 to n
      invariant |missing| == |dataX| == |Starts(x, w, acceptMissing, i)|
      invariant forall j :: 0 <= j < |missing| ==>
        var start := Starts(x, w, acceptMissing, i)[j];
        start + w <= |x| && IsWindow(x, abnormal, w, start, missing[j], dataX[j])
    {
      if acceptMissing || !HasNaN(x, i, w) {
        var flags, cells := FormatWindow(x, abnormal, w, i);
        missing, dataX := missing + [flags], dataX + [cells];
      }
    }
  }

  /** So the windows of a dataset agree wherever they overlap, in flags and values; a masked cell is
      zero, an unmasked one is the source's. */
  lemma WindowsAreCoherent(
      x: seq<Value>, abnormal: Option<seq<bool>>, w: nat, starts: seq<nat>, flags: seq<seq<bool>>, cells: seq<seq<Value>>)
    requires abnormal.Some? ==> |abnormal.value| >= |x|
    requires AreWindows(x, abnormal, w, starts, flags, cells)
    ensures forall i, j, k, l ::
      (0 <= i < |starts| && 0 <= j < |starts| && 0 <= k < w && 0 <= l < w && starts[i] + k == starts[j] + l) ==>
        (flags[i][k] == flags[j][l] && cells[i][k] == cells[j][l])
    ensures forall i, k :: 0 <= i < |starts| && 0 <= k < w ==>
      cells[i][k].Num? && cells[i][k] == if flags[i][k] then Num(0.0) else x[starts[i] + k]
    ensures forall i, k :: 0 <= i < |starts| && 0 <= k < w ==>
      (flags[i][k] <==> x[starts[i] + k].NaN? || (abnormal.Some? && abnormal.value[starts[i] + k]))
  {
    hide IsMissing, Cell;
    forall i, k | 0 <= i < |starts| && 0 <= k < w
      ensures flags[i][k] == IsMissing(x, abnormal, starts[i] + k) && cells[i][k] == Cell(x, abnormal, starts[i] + k)
      ensures cells[i][k].Num? && cells[i][k] == if flags[i][k] then Num(0.0) else x[starts[i] + k]
      ensures flags[i][k] <==> x[starts[i] + k].NaN? || (abnormal.Some? && abnormal.value[starts[i] + k])
    {
      CellIsSource(x, abnormal, starts[i] + k);
    }
  }

  lemma CellIsSource(x: seq<Value>, abnormal: Option<seq<bool>>, i: nat)
    requires i < |x| && (abnormal.Some? ==> |abnormal.value| >= |x|)
    ensures var cell := Cell(x, abnormal, i); cell.Num? && cell == if IsMissing(x, abnormal, i) then Num(0.0) else x[i]
    ensures IsMissing(x, abnormal, i) <==> x[i].NaN? || (abnormal.Some? && abnormal.value[i])
  {
  }

  // ---------------------------------------------------------------- train and test

  /** Python's round: to the nearest, ties to even. */
  function Round(r: real): int {
    var f := r.Floor;
    var rest := r - f as real;
    if rest < 0.5 then f else if rest > 0.5 then f + 1 else if f % 2 == 0 then f else f + 1
  }

  /** Where a Python slice bound cuts a list of length n. */
  function Cut(bound: int, n: nat): (c: nat)
    ensures c <= n
  {
    var b := if bound < 0 then bound + n else bound;
    if b < 0 then 0 else if b > n then n else b
  }

  /** Rounding stays between whole numbers and within a half, and goes to the even one of two that
      are equally near. */
  lemma RoundIsNearest(r: real, n: nat)
    requires 0.0 <= r <= n as real
    ensures 0 <= Round(r) <= n && r - 0.5 <= Round(r) as real <= r + 0.5
    ensures Round(r) as real == r - 0.5 || Round(r) as real == r + 0.5 ==> Round(r) % 2 == 0
  {
    var f := r.Floor;
    assert f as real <= r < f as real + 1.0;
    assert 0 <= f <= n;
    if f == n {
      assert r == f as real;
    } else {
      assert f + 1 <= n;
    }
  }

  /** For a train size between none and all, the cut is the whole number nearest to that share of
      the dataset, the even one of two that are equally near. */
  lemma CutIsNearest(n: nat, trainSize: real)
    requires 0.0 <= trainSize <= 1.0
    ensures var share := n as real * trainSize;
      var cut := Cut(Round(share), n);
      && share - 0.5 <= cut as real <= share + 0.5
      && (cut as real == share - 0.5 || cut as real == share + 0.5 ==> cut % 2 == 0)
  {
    hide Round;
    ShareIsPart(n as real, trainSize);
    RoundIsNearest(n as real * trainSize, n);
  }

  lemma ShareIsPart(n: real, part: real)
    requires n >= 0.0 && 0.0 <= part <= 1.0
    ensures 0.0 <= n * part <= n
  {
    assert n * (1.0 - part) >= 0.0;
  }

  /** Training windows lie before the cut and test windows after it, so they share no cell of the
      dataset, and every window that does not straddle the cut is there. */
  method TrainTestSplit(dataset: seq<Value>, w: nat, abnormal: Option<seq<bool>>, trainSize: real)
    returns (trainMissing: seq<seq<bool>>, train: seq<seq<Value>>, testMissing: seq<seq<bool>>, test: seq<seq<Value>>)
    requires w > 0 && (abnormal.Some? ==> |abnormal.value| >= |dataset|)
    ensures var cut := Cut(Round(|dataset| as real * trainSize), |dataset|);
      && |train| == |trainMissing| == WindowCount(cut, w)
      && |test| == |testMissing| == WindowCount(|dataset| - cut, w)
      && (forall j :: 0 <= j < |train| ==>
            j + w <= cut && IsWindow(dataset, abnormal, w, j, trainMissing[j], train[j]))
      && (forall j :: 0 <= j < |test| ==>
            cut + j + w <= |dataset| && IsWindow(dataset, None, w, cut + j, testMissing[j], test[j]))
  {
    hide Starts, Round, Cut, IsWindow;
    var cut := Cut(Round(|dataset| as real * trainSize), |dataset|);
    trainMissing, train := FormatDataset(dataset[..cut], w, true, abnormal);
    testMissing, test := FormatDataset(dataset[cut..], w, true, None);
    AllStarts(dataset[..cut], w, WindowCount(cut, w));
    AllStarts(dataset[cut..], w, WindowCount(|dataset| - cut, w));
    assert dataset[..cut] == dataset[0..cut] && dataset[cut..] == dataset[cut..|dataset|];
    forall j | 0 <= j < |train|
      ensures IsWindow(dataset, abnormal, w, j, trainMissing[j], train[j])
    {
      PartOfDataset(dataset, 0, cut, abnormal, w, j, trainMissing[j], train[j]);
    }
    forall j | 0 <= j < |test|
      ensures IsWindow(dataset, None, w, cut + j, testMissing[j], test[j])
    {
      PartOfDataset(dataset, cut, |dataset|, None, w, j, testMissing[j], test[j]);
    }
  }

  lemma PartOfDataset(x: seq<Value>, a: nat, b: nat, abnormal: Option<seq<bool>>, w: nat, i: nat, flags: seq<bool>, cells: seq<Value>)
    requires a <= b <= |x| && i + w <= b - a && (abnormal.Some? ==> |abnormal.value| >= |x| && a == 0)
    requires IsWindow(x[a..b], abnormal, w, i, flags, cells)
    ensures IsWindow(x, abnormal, w, a + i, flags, cells)
  {
  }
}
