/**
 The 'features' parameter of a bucket read request: the parsing loop of bucket_read in
 loudml/server.py, on top of the parenthesis parser.
 */
module FeatureRequests {
  import opened Prelude
  import opened Expressions

  // ---------------------------------------------------------------- splitting and joining

  /** The position of the first c, or the length. */
  function Find(s: string, c: char): (n: nat)
    ensures n <= |s| && c !in s[..n] && (n < |s| ==> s[n] == c)
  {
    if s == "" then 0 else if s[0] == c then 0 else 1 + Find(s[1..], c)
  }

  /** str.split with a one-character separator. */
  function Split(s: string, c: char): seq<string>
    decreases |s|
  {
    var n := Find(s, c);
    if n < |s| then [s[..n]] + Split(s[n + 1..], c) else [s]
  }

  function Join(parts: seq<string>, c: char): string {
    if parts == [] then "" else if |parts| == 1 then parts[0] else parts[0] + [c] + Join(parts[1..], c)
  }

  lemma FindPrefix(s: string, c: char, t: string)
    requires c !in s && (t == "" || t[0] == c)
    ensures Find(s + t, c) == |s|
  {
    assert forall k :: 0 <= k < |s| ==> (s + t)[k] == s[k] != c;
    assert t != "" ==> (s + t)[|s|] == c;
  }

  lemma {:induction false} SplitUndoesJoin(parts: seq<string>, c: char)
    requires parts != [] && forall k :: 0 <= k < |parts| ==> c !in parts[k]
    ensures Split(Join(parts, c), c) == parts
  {
    if |parts| == 1 {
      FindPrefix(parts[0], c, "");
      assert parts[0] + "" == parts[0];
    } else {
      var rest := Join(parts[1..], c);
      var s := parts[0] + [c] + rest;
      assert s == parts[0] + ([c] + rest);
      FindPrefix(parts[0], c, [c] + rest);
      assert s[|parts[0]| + 1..] == rest;
      SplitUndoesJoin(parts[1..], c);
    }
  }

  /** And joining what a string splits into gives it back; no part contains the separator. So there
      is one way to split. */
  lemma {:induction false} JoinUndoesSplit(s: string, c: char)
    ensures Split(s, c) != [] && (forall k :: 0 <= k < |Split(s, c)| ==> c !in Split(s, c)[k])
    ensures Join(Split(s, c), c) == s
    decreases |s|
  {
    var n := Find(s, c);
    if n == |s| {
      assert s[..n] == s;
    } else {
      JoinUndoesSplit(s[n + 1..], c);
      assert s == s[..n] + [c] + s[n + 1..];
    }
  }

  // ---------------------------------------------------------------- one feature

  datatype Feature = Feature(metric: string, measurement: Option<string>, field: string)

  /** Invalid is answered with a client error; Unpack is the ValueError of an unpacking that
      nothing catches. */
  datatype Error = Invalid | Unpack

  /** The loop variables: None is Python's None. */
  datatype Parts = Parts(metric: Option<string>, measurement: Option<string>, field: Option<string>)

  const NO_PARTS := Parts(None, None, None)

  function Absorb(p: Parts, level: nat, val: string): Result<Parts, Error> {
    if level > 1 then Err(Invalid)
    else if level == 0 then Ok(p.(metric := Some(val[..Find(val, '(')])))
    else if '.' in val then
      var parts := Split(val, '.');
      if |parts| == 2 then Ok(p.(measurement := Some(parts[0]), field := Some(parts[1]))) else Err(Unpack)
    else Ok(p.(field := Some(val)))
  }

  function AbsorbAll(found: seq<(nat, string)>): Result<Parts, Error> {
    if found == [] then Ok(NO_PARTS) else
      match AbsorbAll(found[..|found| - 1])
      case Err(e) => Err(e)
      case Ok(p) => Absorb(p, found[|found| - 1].0, found[|found| - 1].1)
  }

  function Finish(p: Parts): Result<Feature, Error> {
    if p.field.None? || p.field.value == "" || p.metric.None? || p.metric.value == "" then Err(Invalid)
    else Ok(Feature(p.metric.value, p.measurement, p.field.value))
  }

  function FeatureOf(found: seq<(nat, string)>): Result<Feature, Error> {
    match AbsorbAll(found)
    case Err(e) => Err(e)
    case Ok(p) => Finish(p)
  }

  function Wrapped(feature: string): string { "(" + feature + ")" }

  ghost function Found(s: string): seq<(nat, string)> {
    PairsAreMatches(s, |s|);
    var pairs := Pairs(s, |s|);
    seq(|pairs|, k requires 0 <= k < |pairs| => Contents(s, pairs[k]))
  }

  /** What the request parameter `feature` means. */
  ghost function Parsed(feature: string): Result<Feature, Error> {
    FeatureOf(Found(Wrapped(feature)))
  }

  lemma {:induction false} ErrorsStick(found: seq<(nat, string)>, i: nat)
    requires i <= |found| && AbsorbAll(found[..i]).Err?
    ensures AbsorbAll(found) == AbsorbAll(found[..i])
    decreases |found|
  {
    if i == |found| {
      assert found[..i] == found;
    } else {
      var before := found[..|found| - 1];
      assert before[..i] == found[..i];
      ErrorsStick(before, i);
    }
  }

  lemma NothingToAbsorb()
    ensures AbsorbAll([]) == Ok(NO_PARTS)
  {
  }

  lemma AbsorbNext(found: seq<(nat, string)>, i: nat)
    requires i < |found| && AbsorbAll(found[..i]).Ok?
    ensures AbsorbAll(found[..i + 1]) == Absorb(AbsorbAll(found[..i]).value, found[i].0, found[i].1)
  {
    assert found[..i + 1][..i] == found[..i];
  }

  method ParseFeature(feature: string) returns (r: Result<Feature, Error>)
    ensures r == Parsed(feature)
  {
    hide AbsorbAll, Find, Split, Contents, StillOpen, Stack, Pairs;
    var s := Wrapped(feature);
    var found := ParseExpression(s);
    assert found == Found(s);
    assert AbsorbAll([]) == Ok(NO_PARTS) by {
      NothingToAbsorb();
    }
    var metric, measurement, field := None, None, None;
    for i := 0 to |found|
      invariant AbsorbAll(found[..i]) == Ok(Parts(metric, measurement, field))
    {
      var (level, val) := found[i];
      AbsorbNext(found, i);
      if level > 1 {
        ErrorsStick(found, i + 1);
        return Err(Invalid);
      }
      if level == 0 {
        metric := Some(val[..Find(val, '(')]);
      } else if '.' in val {
        var parts := Split(val, '.');
        if |parts| != 2 {
          ErrorsStick(found, i + 1);
          return Err(Unpack);
        }
        measurement, field := Some(parts[0]), Some(parts[1]);
      } else {
        field := Some(val);
      }
    }
    assert found[..|found|] == found;
    if field.None? || field.value == "" || metric.None? || metric.value == "" {
      return Err(Invalid);
    }
    return Ok(Feature(metric.value, measurement, field.value));
  }

  lemma DeepLevelIsRejected(found: seq<(nat, string)>, k: nat)
    requires k < |found| && found[k].0 > 1
    ensures FeatureOf(found).Err?
  {
    assert found[..k + 1][..k] == found[..k] && found[..k + 1][k] == found[k];
    ErrorsStick(found, k + 1);
  }

  /** Anything nested deeper than one call is rejected. */
  lemma DeepNestingIsRejected(feature: string, a: nat, b: nat)
    requires var s := Wrapped(feature); IsMatch(s, a, b) && |StillOpen(s, a)| > 1
    ensures Parsed(feature).Err?
  {
    var s := Wrapped(feature);
    PairsAreMatches(s, |s|);
    var k :| 0 <= k < |Pairs(s, |s|)| && Pairs(s, |s|)[k] == Pair(|StillOpen(s, a)|, a, b);
    DeepLevelIsRejected(Found(s), k);
  }

  // ---------------------------------------------------------------- what is accepted

  function Name(val: string): string { val[..Find(val, '(')] }

  /** What follows the last dot, or everything. */
  function FieldPart(val: string): string {
    Split(val, '.')[|Split(val, '.')| - 1]
  }

  lemma SplitParts(val: string)
    ensures |Split(val, '.')| == 1 <==> '.' !in val
    ensures '.' !in val ==> Split(val, '.') == [val]
  {
  }

  /** A call in no call, or an argument with at most one dot. */
  ghost predicate Fine(item: (nat, string)) {
    item.0 == 0 || (item.0 == 1 && |Split(item.1, '.')| <= 2)
  }

  ghost predicate AllFine(found: seq<(nat, string)>) {
    forall k :: 0 <= k < |found| ==> Fine(found[k])
  }

  /** Item k is the last one at a level. */
  ghost predicate IsLast(found: seq<(nat, string)>, level: nat, k: nat) {
    k < |found| && found[k].0 == level && forall j :: k < j < |found| ==> found[j].0 != level
  }

  ghost predicate IsDotted(item: (nat, string)) { item.0 == 1 && '.' in item.1 }

  ghost predicate IsLastDotted(found: seq<(nat, string)>, k: nat) {
    k < |found| && IsDotted(found[k]) && forall j :: k < j < |found| ==> !IsDotted(found[j])
  }

  /** The loop variables hold what the last items say: None only if there is no such item. */
  ghost predicate LastOnesWin(found: seq<(nat, string)>, p: Parts) {
    && (p.metric.Some? ==> exists k: nat :: IsLast(found, 0, k) && p.metric.value == Name(found[k].1))
    && (p.field.Some? ==> exists k: nat :: IsLast(found, 1, k) && p.field.value == FieldPart(found[k].1))
    && (p.measurement.Some? ==> exists k: nat :: IsLastDotted(found, k) && p.measurement.value == Split(found[k].1, '.')[0])
    && (p.metric.None? ==> forall k :: 0 <= k < |found| ==> found[k].0 != 0)
    && (p.field.None? ==> forall k :: 0 <= k < |found| ==> found[k].0 != 1)
    && (p.measurement.None? ==> forall k :: 0 <= k < |found| ==> !IsDotted(found[k]))
  }

  lemma AbsorbFine(p: Parts, level: nat, val: string)
    ensures Absorb(p, level, val).Ok? <==> Fine((level, val))
    ensures level == 0 ==> Absorb(p, level, val) == Ok(p.(metric := Some(Name(val))))
    ensures level == 1 && Fine((level, val)) ==>
      Absorb(p, level, val) == Ok(p.(
        measurement := if '.' in val then Some(Split(val, '.')[0]) else p.measurement, field := Some(FieldPart(val))))
  {
    SplitParts(val);
  }

  lemma StillLast(found: seq<(nat, string)>, n: nat, k: nat)
    requires n + 1 == |found| && k < n
    ensures forall level: nat :: IsLast(found[..n], level, k) && found[n].0 != level ==> IsLast(found, level, k)
    ensures IsLastDotted(found[..n], k) && !IsDotted(found[n]) ==> IsLastDotted(found, k)
  {
  }

  lemma LastOnesNext(found: seq<(nat, string)>, p: Parts)
    requires found != [] && LastOnesWin(found[..|found| - 1], p) && Fine(found[|found| - 1])
    ensures var r := Absorb(p, found[|found| - 1].0, found[|found| - 1].1); r.Ok? && LastOnesWin(found, r.value)
  {
    hide Absorb, Split, FieldPart, Name, IsLast, IsLastDotted;
    var n := |found| - 1;
    var before, level, val := found[..n], found[n].0, found[n].1;
    AbsorbFine(p, level, val);
    assert IsLast(found, level, n) && (IsDotted(found[n]) ==> IsLastDotted(found, n)) by {
      LastIsLast(found);
    }
    forall k | 0 <= k < n
      ensures IsLast(before, 0, k) && level != 0 ==> IsLast(found, 0, k)
      ensures IsLast(before, 1, k) && level != 1 ==> IsLast(found, 1, k)
      ensures IsLastDotted(before, k) && !IsDotted(found[n]) ==> IsLastDotted(found, k)
    {
      StillLast(found, n, k);
    }
    LastIsInside(before);
  }

  lemma LastIsLast(found: seq<(nat, string)>)
    requires found != []
    ensures var n := |found| - 1; IsLast(found, found[n].0, n) && (IsDotted(found[n]) ==> IsLastDotted(found, n))
  {
  }

  lemma LastIsInside(found: seq<(nat, string)>)
    ensures forall level: nat, k: nat :: IsLast(found, level, k) ==> k < |found|
    ensures forall k: nat :: IsLastDotted(found, k) ==> k < |found|
    ensures forall level: nat, j: nat, k: nat :: IsLast(found, level, j) && IsLast(found, level, k) ==> j == k
  {
  }

  lemma {:induction false} AbsorbAllIffFine(found: seq<(nat, string)>)
    ensures AbsorbAll(found).Ok? <==> AllFine(found)
    ensures AllFine(found) ==> LastOnesWin(found, AbsorbAll(found).value)
  {
    hide Fine, LastOnesWin, Absorb;
    if found == [] {
      NothingWins();
    } else {
      var n := |found| - 1;
      AbsorbAllIffFine(found[..n]);
      assert AllFine(found) <==> AllFine(found[..n]) && Fine(found[n]) by {
        assert forall k :: 0 <= k < n ==> found[..n][k] == found[k];
      }
      if AllFine(found[..n]) {
        AbsorbFine(AbsorbAll(found[..n]).value, found[n].0, found[n].1);
        if Fine(found[n]) {
          LastOnesNext(found, AbsorbAll(found[..n]).value);
        }
      }
    }
  }

  lemma NothingWins()
    ensures LastOnesWin([], NO_PARTS)
  {
  }

  /** A feature is accepted if and only if nothing in it is nested deeper than one call, no argument
      has more than one dot, the last call has a name and the last argument a field. Then these are
      what it means, whatever came before them. */
  lemma AcceptedFeatures(feature: string)
    ensures var found := Found(Wrapped(feature));
      && (Parsed(feature).Ok? <==>
            && AllFine(found)
            && (exists k: nat :: IsLast(found, 0, k) && Name(found[k].1) != "")
            && (exists k: nat :: IsLast(found, 1, k) && FieldPart(found[k].1) != ""))
      && (Parsed(feature).Ok? ==>
            var f := Parsed(feature).value;
            LastOnesWin(found, Parts(Some(f.metric), f.measurement, Some(f.field))))
  {
    hide Found, Wrapped, Name, FieldPart, AbsorbAll, AllFine;
    var found := Found(Wrapped(feature));
    AbsorbAllIffFine(found);
    LastIsInside(found);
  }

  lemma {:induction false} AbsorbAllError(found: seq<(nat, string)>, k: nat)
    requires k < |found| && AllFine(found[..k]) && !Fine(found[k])
    ensures AbsorbAll(found) == Err(if found[k].0 > 1 then Invalid else Unpack)
  {
    AbsorbAllIffFine(found[..k]);
    AbsorbNext(found, k);
    SplitParts(found[k].1);
    ErrorsStick(found, k + 1);
  }

  /** Which error a feature gets: the first content that is nested too deep, or is an argument with
      more than one dot, decides between the client's error and the unpacking that nothing catches;
      if there is none, a name or a field is missing, which is the client's error. */
  lemma RejectedFeatures(feature: string)
    ensures var found := Found(Wrapped(feature));
      && (forall k :: 0 <= k < |found| && AllFine(found[..k]) && !Fine(found[k]) ==>
            Parsed(feature) == Err(if found[k].0 > 1 then Invalid else Unpack))
      && (AllFine(found) && Parsed(feature).Err? ==> Parsed(feature) == Err(Invalid))
  {
    hide Found, Wrapped, Fine, AbsorbAll;
    var found := Found(Wrapped(feature));
    AbsorbAllIffFine(found);
    forall k | 0 <= k < |found| && AllFine(found[..k]) && !Fine(found[k])
      ensures Parsed(feature) == Err(if found[k].0 > 1 then Invalid else Unpack)
    {
      AbsorbAllError(found, k);
    }
  }

  // ---------------------------------------------------------------- round trip

  function PrintFeature(f: Feature): string {
    f.metric + "(" + Inner(f) + ")"
  }

  function Inner(f: Feature): string {
    (if f.measurement.Some? then f.measurement.value + "." else "") + f.field
  }

  predicate PlainName(name: string) {
    name != "" && forall c :: c in name ==> c != '(' && c != ')' && c != '.' && c != ';'
  }

  predicate Plain(f: Feature) {
    PlainName(f.metric) && PlainName(f.field) && (f.measurement.Some? ==> PlainName(f.measurement.value))
  }

  /** Scanning a stretch without parentheses changes nothing. */
  lemma {:induction false} ScanPlain(s: string, a: nat, b: nat)
    requires a <= b <= |s| && forall k :: a <= k < b ==> s[k] != '(' && s[k] != ')'
    ensures Stack(s, b) == Stack(s, a) && Pairs(s, b) == Pairs(s, a)
  {
    if a == b {
    } else {
      ScanPlain(s, a, b - 1);
    }
  }

  lemma ScanOpening(s: string, n: nat)
    requires n < |s| && s[n] == '('
    ensures Stack(s, n + 1) == Stack(s, n) + [n] && Pairs(s, n + 1) == Pairs(s, n)
  {
  }

  lemma ScanClosing(s: string, n: nat, below: seq<nat>, top: nat)
    requires n < |s| && s[n] == ')' && Stack(s, n) == below + [top]
    ensures Stack(s, n + 1) == below && Pairs(s, n + 1) == Pairs(s, n) + [Pair(|below|, top, n)]
  {
  }

  lemma ScanOpenings(s: string, open: nat)
    requires 0 < open < |s| && s[0] == s[open] == '('
    requires forall k :: 0 < k < open ==> s[k] != '(' && s[k] != ')'
    ensures Stack(s, open + 1) == [0, open] && Pairs(s, open + 1) == []
  {
    ScanOpening(s, 0);
    ScanPlain(s, 1, open);
    ScanOpening(s, open);
  }

  lemma ScanClosings(s: string, open: nat, close: nat)
    requires open < close == |s| - 2
    requires s[close] == s[close + 1] == ')'
    requires Stack(s, close) == [0, open] && Pairs(s, close) == []
    ensures Pairs(s, |s|) == [Pair(1, open, close), Pair(0, 0, close + 1)]
  {
    hide Stack, Pairs;
    assert [0, open] == [0] + [open] && [0] == [] + [0];
    ScanClosing(s, close, [0], open);
    ScanClosing(s, close + 1, [], 0);
  }

  lemma ScanCall(s: string, open: nat, close: nat)
    requires 0 < open < close == |s| - 2
    requires s[0] == s[open] == '(' && s[close] == s[close + 1] == ')'
    requires forall k :: 0 < k < close && k != open ==> s[k] != '(' && s[k] != ')'
    ensures Pairs(s, |s|) == [Pair(1, open, close), Pair(0, 0, close + 1)]
  {
    hide Stack, Pairs;
    ScanOpenings(s, open);
    ScanPlain(s, open + 1, close);
    ScanClosings(s, open, close);
  }

  lemma FoundInCall(metric: string, inner: string)
    requires forall c :: c in metric || c in inner ==> c != '(' && c != ')'
    ensures Found(Wrapped(metric + "(" + inner + ")")) == [(1, inner), (0, metric + "(" + inner + ")")]
  {
    hide Stack, Pairs;
    var s := Wrapped(metric + "(" + inner + ")");
    var open := 1 + |metric|;
    var close := open + 1 + |inner|;
    ParensInCall(metric, inner);
    ScanCall(s, open, close);
    assert s[open + 1..close] == inner;
    assert s[1..close + 1] == metric + "(" + inner + ")";
  }

  lemma ParensInCall(metric: string, inner: string)
    requires forall c :: c in metric || c in inner ==> c != '(' && c != ')'
    ensures var s := Wrapped(metric + "(" + inner + ")");
      var open := 1 + |metric|;
      var close := open + 1 + |inner|;
      && |s| == close + 2 && s[0] == s[open] == '(' && s[close] == s[close + 1] == ')'
      && forall k :: 0 < k < close && k != open ==> s[k] != '(' && s[k] != ')'
  {
    var s := Wrapped(metric + "(" + inner + ")");
    var open := 1 + |metric|;
    forall k | 0 < k < open + 1 + |inner| && k != open
      ensures s[k] != '(' && s[k] != ')'
    {
      if k < open {
        assert s[k] == metric[k - 1] && metric[k - 1] in metric;
      } else {
        assert s[k] == inner[k - open - 1] && inner[k - open - 1] in inner;
      }
    }
  }

  predicate NoParens(text: string) {
    forall c :: c in text ==> c != '(' && c != ')'
  }

  function TwoCalls(metric: string, first: string, between: string, second: string): string {
    metric + "(" + first + ")" + between + "(" + second + ")"
  }

  lemma ScanFirstCall(s: string, open: nat, close: nat)
    requires 0 < open < close < |s| && s[0] == s[open] == '(' && s[close] == ')'
    requires forall k :: 0 < k < close && k != open ==> s[k] != '(' && s[k] != ')'
    ensures Stack(s, close + 1) == [0] && Pairs(s, close + 1) == [Pair(1, open, close)]
  {
    hide Stack, Pairs;
    ScanOpenings(s, open);
    ScanPlain(s, open + 1, close);
    assert [0, open] == [0] + [open];
    ScanClosing(s, close, [0], open);
  }

  lemma ScanSecondCall(s: string, start: nat, open: nat, close: nat)
    requires start <= open < close == |s| - 2 && s[open] == '(' && s[close] == s[close + 1] == ')'
    requires forall k :: start <= k < close && k != open ==> s[k] != '(' && s[k] != ')'
    requires Stack(s, start) == [0]
    ensures Pairs(s, |s|) == Pairs(s, start) + [Pair(1, open, close), Pair(0, 0, close + 1)]
  {
    hide Stack, Pairs;
    ScanPlain(s, start, open);
    ScanOpening(s, open);
    ScanPlain(s, open + 1, close);
    assert [0] == [] + [0];
    ScanClosing(s, close, [0], open);
    ScanClosing(s, close + 1, [], 0);
  }

  lemma ScanTwoCalls(s: string, open1: nat, close1: nat, open2: nat, close2: nat)
    requires 0 < open1 < close1 < open2 < close2 == |s| - 2
    requires s[0] == s[open1] == s[open2] == '(' && s[close1] == s[close2] == s[close2 + 1] == ')'
    requires forall k :: 0 < k < close2 && k != open1 && k != close1 && k != open2 ==> s[k] != '(' && s[k] != ')'
    ensures Pairs(s, |s|) == [Pair(1, open1, close1), Pair(1, open2, close2), Pair(0, 0, close2 + 1)]
  {
    hide Stack, Pairs;
    ScanFirstCall(s, open1, close1);
    ScanSecondCall(s, close1 + 1, open2, close2);
  }

  lemma ParensInTwoCalls(metric: string, first: string, between: string, second: string)
    requires NoParens(metric) && NoParens(first) && NoParens(between) && NoParens(second)
    ensures var s := Wrapped(TwoCalls(metric, first, between, second));
      var open1 := 1 + |metric|;
      var close1 := open1 + 1 + |first|;
      var open2 := close1 + 1 + |between|;
      var close2 := open2 + 1 + |second|;
      && |s| == close2 + 2
      && s[0] == s[open1] == s[open2] == '(' && s[close1] == s[close2] == s[close2 + 1] == ')'
      && s[open1 + 1..close1] == first && s[open2 + 1..close2] == second
      && s[1..close2 + 1] == TwoCalls(metric, first, between, second)
      && forall k :: 0 < k < close2 && k != open1 && k != close1 && k != open2 ==> s[k] != '(' && s[k] != ')'
  {
    var s := Wrapped(TwoCalls(metric, first, between, second));
    var open1 := 1 + |metric|;
    var close1 := open1 + 1 + |first|;
    var open2 := close1 + 1 + |between|;
    var close2 := open2 + 1 + |second|;
    assert s[open1 + 1..close1] == first && s[open2 + 1..close2] == second;
    forall k | 0 < k < close2 && k != open1 && k != close1 && k != open2
      ensures s[k] != '(' && s[k] != ')'
    {
      if k < open1 {
        assert s[k] == metric[k - 1] && metric[k - 1] in metric;
      } else if k < close1 {
        assert s[k] == first[k - open1 - 1] && first[k - open1 - 1] in first;
      } else if k < open2 {
        assert s[k] == between[k - close1 - 1] && between[k - close1 - 1] in between;
      } else {
        assert s[k] == second[k - open2 - 1] && second[k - open2 - 1] in second;
      }
    }
  }

  lemma FoundInTwoCalls(metric: string, first: string, between: string, second: string)
    requires NoParens(metric) && NoParens(first) && NoParens(between) && NoParens(second)
    ensures var whole := TwoCalls(metric, first, between, second);
      Found(Wrapped(whole)) == [(1, first), (1, second), (0, whole)]
  {
    hide Stack, Pairs, Wrapped, TwoCalls, NoParens;
    var open1 := 1 + |metric|;
    var close1 := open1 + 1 + |first|;
    var open2 := close1 + 1 + |between|;
    var close2 := open2 + 1 + |second|;
    ParensInTwoCalls(metric, first, between, second);
    ScanTwoCalls(Wrapped(TwoCalls(metric, first, between, second)), open1, close1, open2, close2);
  }

  lemma NameOfTwoCalls(metric: string, first: string, between: string, second: string)
    requires NoParens(metric)
    ensures Name(TwoCalls(metric, first, between, second)) == metric
  {
    hide Find;
    var whole, rest := TwoCalls(metric, first, between, second), "(" + first + ")" + between + "(" + second + ")";
    assert whole == metric + rest;
    FindPrefix(metric, '(', rest);
  }

  /** A second call is not rejected: it replaces the argument of the first, and its own name, or
      whatever else stands between the two, is ignored. */
  lemma SecondCallReplacesArgument(metric: string, first: string, between: string, second: string)
    requires NoParens(metric) && NoParens(first) && NoParens(between) && NoParens(second)
    requires metric != "" && second != "" && '.' !in first && '.' !in second
    ensures Parsed(TwoCalls(metric, first, between, second)) == Ok(Feature(metric, None, second))
  {
    hide Found, Name, TwoCalls, Wrapped, AbsorbAll;
    FoundInTwoCalls(metric, first, between, second);
    NameOfTwoCalls(metric, first, between, second);
    AbsorbTwoCalls(first, second, TwoCalls(metric, first, between, second));
  }

  lemma AbsorbTwoCalls(first: string, second: string, whole: string)
    requires '.' !in first && '.' !in second
    ensures AbsorbAll([(1, first), (1, second), (0, whole)]) == Ok(Parts(Some(Name(whole)), None, Some(second)))
  {
    hide Find, Split;
    var found := [(1, first), (1, second), (0, whole)];
    assert found[..2] == [(1, first), (1, second)] && found[..2][..1] == [(1, first)];
    assert AbsorbAll(found[..2][..1][..0]) == Ok(NO_PARTS);
    assert AbsorbAll(found[..2][..1]) == Ok(Parts(None, None, Some(first)));
    assert AbsorbAll(found[..2]) == Ok(Parts(None, None, Some(second)));
  }

  lemma PrintedParts(f: Feature)
    requires Plain(f)
    ensures Found(Wrapped(PrintFeature(f))) == [(1, Inner(f)), (0, PrintFeature(f))]
    ensures PrintFeature(f)[..Find(PrintFeature(f), '(')] == f.metric
  {
    hide Stack, Pairs, Found, Find;
    FoundInCall(f.metric, Inner(f));
    FindPrefix(f.metric, '(', "(" + Inner(f) + ")");
    assert PrintFeature(f) == f.metric + ("(" + Inner(f) + ")");
  }

  lemma FeatureRoundTrip(f: Feature)
    requires Plain(f)
    ensures Parsed(PrintFeature(f)) == Ok(f)
  {
    hide Found, Find, Split, AbsorbAll, PrintFeature, Inner;
    PrintedParts(f);
    AbsorbCall(Inner(f), PrintFeature(f));
    SplitInner(f);
  }

  lemma AbsorbCall(inner: string, whole: string)
    ensures AbsorbAll([(1, inner), (0, whole)]) ==
      match Absorb(NO_PARTS, 1, inner) case Err(e) => Err(e) case Ok(p) => Absorb(p, 0, whole)
  {
    var found := [(1, inner), (0, whole)];
    var first := [(1, inner)];
    assert found[..1] == first && first[..0] == [];
    assert AbsorbAll(first) == Absorb(NO_PARTS, 1, inner);
  }

  lemma SplitInner(f: Feature)
    requires Plain(f)
    ensures Absorb(NO_PARTS, 1, Inner(f)) == Ok(Parts(None, f.measurement, Some(f.field)))
  {
    var inner := Inner(f);
    if f.measurement.Some? {
      var parts := [f.measurement.value, f.field];
      assert parts[1..] == [f.field];
      assert inner == Join(parts, '.');
      SplitUndoesJoin(parts, '.');
      assert inner[|f.measurement.value|] == '.';
    } else {
      assert inner == f.field;
    }
  }

  // ---------------------------------------------------------------- the whole parameter

  ghost function ParsedAll(features: seq<string>): Result<seq<Feature>, Error> {
    if features == [] then Ok([]) else
      match ParsedAll(features[..|features| - 1])
      case Err(e) => Err(e)
      case Ok(before) =>
        match Parsed(features[|features| - 1])
        case Err(e) => Err(e)
        case Ok(f) => Ok(before + [f])
  }

  lemma {:induction false} FirstErrorWins(features: seq<string>, i: nat)
    requires i <= |features| && ParsedAll(features[..i]).Err?
    ensures ParsedAll(features) == ParsedAll(features[..i])
    decreases |features|
  {
    if i == |features| {
      assert features[..i] == features;
    } else {
      var before := features[..|features| - 1];
      assert before[..i] == features[..i];
      FirstErrorWins(before, i);
    }
  }

  ghost predicate IsFirstError(features: seq<string>, k: nat)
    requires k < |features|
  {
    Parsed(features[k]).Err? && forall j :: 0 <= j < k ==> Parsed(features[j]).Ok?
  }

  /** A request parses if and only if every feature does, to their meanings in order; otherwise its
      error is that of the first that does not. */
  lemma {:induction false} RequestMeaning(features: seq<string>)
    ensures ParsedAll(features).Ok? <==> forall k :: 0 <= k < |features| ==> Parsed(features[k]).Ok?
    ensures ParsedAll(features).Ok? ==>
      && |ParsedAll(features).value| == |features|
      && forall k :: 0 <= k < |features| ==> Parsed(features[k]) == Ok(ParsedAll(features).value[k])
    ensures forall k :: 0 <= k < |features| && IsFirstError(features, k) ==> ParsedAll(features) == Err(Parsed(features[k]).error)
  {
    hide Parsed;
    if features == [] {
    } else {
      var n := |features| - 1;
      RequestMeaning(features[..n]);
      assert forall k :: 0 <= k < n ==> features[..n][k] == features[k];
    }
  }

  method ParseRequest(param: string) returns (r: Result<seq<Feature>, Error>)
    ensures r == ParsedAll(Split(param, ';'))
  {
    var features := [];
    var texts := Split(param, ';');
    for i := 0 to |texts|
      invariant ParsedAll(texts[..i]) == Ok(features)
    {
      assert texts[..i + 1][..i] == texts[..i];
      var f := ParseFeature(texts[i]);
      match f {
        case Err(e) =>
          FirstErrorWins(texts, i + 1);
          return Err(e);
        case Ok(feature) =>
          features := features + [feature];
      }
    }
    assert texts[..|texts|] == texts;
    return Ok(features);
  }

  function PrintAll(features: seq<Feature>): (texts: seq<string>)
    ensures |texts| == |features| && forall k :: 0 <= k < |texts| ==> texts[k] == PrintFeature(features[k])
  {
    seq(|features|, k requires 0 <= k < |features| => PrintFeature(features[k]))
  }

  lemma {:induction false} AllRoundTrip(features: seq<Feature>)
    requires forall k :: 0 <= k < |features| ==> Plain(features[k])
    ensures ParsedAll(PrintAll(features)) == Ok(features)
  {
    hide Parsed, PrintFeature;
    if features == [] {
    } else {
      var before, last := features[..|features| - 1], features[|features| - 1];
      AllRoundTrip(before);
      FeatureRoundTrip(last);
      assert PrintAll(features)[..|features| - 1] == PrintAll(before);
      assert before + [last] == features;
    }
  }

  /** Printing a list of features and parsing the parameter gives the list back. */
  lemma RequestRoundTrip(features: seq<Feature>)
    requires features != [] && forall k :: 0 <= k < |features| ==> Plain(features[k])
    ensures ParsedAll(Split(Join(PrintAll(features), ';'), ';')) == Ok(features)
  {
    forall k | 0 <= k < |features|
      ensures ';' !in PrintAll(features)[k]
    {
      assert Plain(features[k]);
    }
    SplitUndoesJoin(PrintAll(features), ';');
    AllRoundTrip(features);
  }
}
