/**
 Checkpoint names: get_ckpt_name and the string sort of list_checkpoints in loudml/filestorage.py.
 */
module CheckpointNames {

  function Digit(d: nat): char
    requires d < 10
  {
    '0' + d as char
  }

  function Digits(n: nat): string {
    if n < 10 then [Digit(n)] else Digits(n / 10) + [Digit(n % 10)]
  }

  /** The "{:02d}" format. */
  function Name(n: nat): string {
    if n < 10 then "0" + Digits(n) else Digits(n)
  }

  predicate AllDigits(s: string) {
    forall k :: 0 <= k < |s| ==> '0' <= s[k] <= '9'
  }

  /** int(...) on a string of digits. */
  function Parse(s: string): nat
    requires AllDigits(s)
  {
    if s == "" then 0 else
      Parse(s[..|s| - 1]) * 10 + (s[|s| - 1] - '0') as nat
  }

  lemma {:induction false} DigitsRoundTrip(n: nat)
    ensures AllDigits(Digits(n)) && Parse(Digits(n)) == n
    ensures n >= 10 ==> |Digits(n)| >= 2
    ensures |Digits(n)| <= 2 <==> n < 100
  {
    if n < 10 {
      assert Digits(n)[..0] == "";
    } else {
      DigitsRoundTrip(n / 10);
      assert Digits(n)[..|Digits(n)| - 1] == Digits(n / 10);
      if n >= 100 {
        assert |Digits(n / 10)| >= 2;
      }
    }
  }

  /** A printed name reads back as its number, so no two checkpoints share a name. */
  lemma NameRoundTrip(n: nat)
    ensures AllDigits(Name(n)) && Parse(Name(n)) == n
    ensures |Name(n)| == 2 <==> n < 100
    ensures forall m :: Name(m) == Name(n) ==> m == n
  {
    DigitsRoundTrip(n);
    if n < 10 {
      assert Name(n)[..1] == "0" && "0"[..0] == "";
    }
    forall m | Name(m) == Name(n)
      ensures m == n
    {
      ReadsBack(m);
      ReadsBack(n);
    }
  }

  lemma ReadsBack(n: nat)
    ensures AllDigits(Name(n)) && Parse(Name(n)) == n
  {
    DigitsRoundTrip(n);
    if n < 10 {
      assert Name(n)[..1] == "0" && "0"[..0] == "";
    }
  }

  /** Python's order on strings. */
  predicate Before(a: string, b: string) {
    b != "" && (a == "" || a[0] < b[0] || (a[0] == b[0] && Before(a[1..], b[1..])))
  }

  lemma {:induction false} LastCharacterDecides(a: string, x: char, b: string, y: char)
    requires |a| == |b|
    ensures Before(a + [x], b + [y]) <==> Before(a, b) || (a == b && x < y)
  {
    if a == "" {
    } else {
      assert (a + [x])[1..] == a[1..] + [x] && (b + [y])[1..] == b[1..] + [y];
      LastCharacterDecides(a[1..], x, b[1..], y);
      assert a == b <==> a[0] == b[0] && a[1..] == b[1..];
    }
  }

  lemma {:induction false} SameLengthOrder(a: string, b: string)
    requires AllDigits(a) && AllDigits(b) && |a| == |b|
    ensures Before(a, b) <==> Parse(a) < Parse(b)
    ensures Parse(a) == Parse(b) <==> a == b
  {
    if a == "" {
    } else {
      var n := |a| - 1;
      SameLengthOrder(a[..n], b[..n]);
      LastCharacterDecides(a[..n], a[n], b[..n], b[n]);
      assert a == a[..n] + [a[n]] && b == b[..n] + [b[n]];
    }
  }

  /** Sorting the names of checkpoints 0..m as strings sorts them by number exactly as long as
      every number is below 100. */
  lemma StringSortIsNumericSort(m: nat)
    ensures (forall i: nat, j: nat :: i <= m && j <= m ==> (Before(Name(i), Name(j)) <==> i < j)) <==> m < 100
  {
    if m < 100 {
      forall i: nat, j: nat | i <= m && j <= m
        ensures Before(Name(i), Name(j)) <==> i < j
      {
        NameRoundTrip(i);
        NameRoundTrip(j);
        SameLengthOrder(Name(i), Name(j));
      }
    } else {
      assert Digits(9) == "9" && Digits(10) == "10" && Digits(99) == "99" && Digits(100) == "100";
      assert Before(Name(100), Name(99));
    }
  }
}
