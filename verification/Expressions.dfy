/**
 The parenthesis-stack parser: parse_expression in loudml/misc.py.

 The loop with its stack is proved to yield exactly the matching pairs of parentheses, where
 matching is defined by counting alone, with no stack.
 */
module Expressions {

  // ---------------------------------------------------------------- matching, by counting

  function Delta(c: char): int {
    if c == '(' then 1 else if c == ')' then -1 else 0
  }

  /** Opening minus closing parentheses in s[a..b]. */
  ghost function Height(s: string, a: nat, b: nat): int
    requires b <= |s|
  {
    if b <= a then 0 else Height(s, a, b - 1) + Delta(s[b - 1])
  }

  /** s[a..b] is balanced: it never closes more than it opened, and closes all it opened. */
  ghost predicate Balanced(s: string, a: nat, b: nat)
    requires a <= b <= |s|
  {
    && Height(s, a, b) == 0
    && forall k :: a <= k <= b ==> Height(s, a, k) >= 0
  }

  ghost predicate IsMatch(s: string, a: nat, b: nat) {
    a < b < |s| && s[a] == '(' && s[b] == ')' && Balanced(s, a + 1, b)
  }

  /** The parentheses before position n that are still open there. */
  ghost function StillOpen(s: string, n: nat): set<nat>
    requires n <= |s|
  {
    set p: nat | p < n && s[p] == '(' && (forall b: nat :: b < n ==> !IsMatch(s, p, b))
  }

  lemma {:induction false} HeightSplits(s: string, a: nat, b: nat, c: nat)
    requires a <= b <= c <= |s|
    ensures Height(s, a, c) == Height(s, a, b) + Height(s, b, c)
  {
    if b == c {
    } else {
      HeightSplits(s, a, b, c - 1);
    }
  }

  // ---------------------------------------------------------------- the stack machine

  datatype Pair = Pair(level: nat, start: nat, end: nat)

  /** The stack after the first n characters. */
  ghost function Stack(s: string, n: nat): seq<nat>
    requires n <= |s|
  {
    if n == 0 then [] else Pushed(Stack(s, n - 1), s[n - 1], n - 1)
  }

  ghost function Pushed(stack: seq<nat>, c: char, i: nat): seq<nat> {
    if c == '(' then stack + [i]
    else if c == ')' && stack != [] then stack[..|stack| - 1]
    else stack
  }

  ghost function Yielded(stack: seq<nat>, c: char, i: nat): seq<Pair> {
    if c == ')' && stack != [] then [Pair(|stack| - 1, stack[|stack| - 1], i)] else []
  }

  /** The pairs found in the first n characters, in the order they are found. */
  ghost function Pairs(s: string, n: nat): seq<Pair>
    requires n <= |s|
  {
    if n == 0 then [] else Pairs(s, n - 1) + Yielded(Stack(s, n - 1), s[n - 1], n - 1)
  }

  // ---------------------------------------------------------------- the stack, explained

  /** p is the innermost parenthesis open at position n: nothing is open after it, and below it
      lies what the stack was before it. */
  ghost predicate IsTop(s: string, p: nat, n: nat, stack: seq<nat>)
    requires n <= |s| && stack != []
  {
    p < n && s[p] == '(' && Balanced(s, p + 1, n) && Stack(s, p) == stack[..|stack| - 1]
  }

  lemma BalancedAround(s: string, a: nat, p: nat, b: nat)
    requires a <= p < b < |s| && Balanced(s, a, p) && IsMatch(s, p, b)
    ensures Balanced(s, a, b + 1)
  {
    forall k | a <= k <= b + 1
      ensures Height(s, a, k) >= 0 && (k == b + 1 ==> Height(s, a, k) == 0)
    {
      if p < k {
        HeightSplits(s, a, p, k);
        HeightSplits(s, p, p + 1, k);
        assert Height(s, p, p + 1) == 1;
        assert k == b + 1 ==> Height(s, p + 1, k) == Height(s, p + 1, b) - 1;
      }
    }
  }

  lemma TopNext(s: string, n: nat, stack: seq<nat>)
    requires n < |s| && stack == Stack(s, n)
    requires stack != [] ==> IsTop(s, stack[|stack| - 1], n, stack)
    requires |stack| > 1 ==> IsTop(s, stack[|stack| - 2], stack[|stack| - 1], stack[..|stack| - 1])
    ensures var next := Pushed(stack, s[n], n);
      next != [] ==> IsTop(s, next[|next| - 1], n + 1, next)
  {
    if s[n] == ')' && |stack| > 1 {
      var q, p := stack[|stack| - 2], stack[|stack| - 1];
      BalancedAround(s, q + 1, p, n);
      assert stack[..|stack| - 1][..|stack| - 2] == stack[..|stack| - 2];
    }
  }

  lemma {:induction false} TopIsInnermost(s: string, n: nat)
    requires n <= |s|
    ensures var stack := Stack(s, n); stack != [] ==> IsTop(s, stack[|stack| - 1], n, stack)
  {
    if n == 0 {
    } else {
      var stack := Stack(s, n - 1);
      TopIsInnermost(s, n - 1);
      if stack != [] {
        TopIsInnermost(s, stack[|stack| - 1]);
      }
      TopNext(s, n - 1, stack);
    }
  }

  lemma TopIsBefore(s: string, n: nat)
    requires n <= |s|
    ensures var stack := Stack(s, n); stack != [] ==> stack[|stack| - 1] < n
  {
    TopIsInnermost(s, n);
  }

  lemma OnlyOneMatch(s: string, a: nat, b: nat, n: nat)
    requires a < b < n <= |s| && s[b] == '(' && Balanced(s, a + 1, n)
    ensures !Balanced(s, b + 1, n)
  {
    HeightSplits(s, a + 1, b, n);
    HeightSplits(s, b, b + 1, n);
    assert Height(s, b, b + 1) == 1;
  }

  lemma MatchedIsNotOpen(s: string, a: nat, b: nat, n: nat)
    requires IsMatch(s, a, b) && b < n <= |s|
    ensures !Balanced(s, a + 1, n)
  {
    assert Height(s, a + 1, b + 1) == -1;
  }

  ghost predicate SameElements(stack: seq<nat>, open: set<nat>) {
    forall p :: p in stack <==> p in open
  }

  lemma StillOpenNext(s: string, n: nat, stack: seq<nat>)
    requires n < |s| && SameElements(stack, StillOpen(s, n))
    requires stack != [] ==> IsTop(s, stack[|stack| - 1], n, stack)
    requires forall k :: 0 <= k < |stack| - 1 ==> stack[k] < stack[|stack| - 1]
    ensures SameElements(Pushed(stack, s[n], n), StillOpen(s, n + 1))
  {
    assert forall p :: p in StillOpen(s, n + 1) <==>
      (p in StillOpen(s, n) || (p == n && s[p] == '(')) && !IsMatch(s, p, n);
    if s[n] == ')' && stack != [] {
      var top := stack[|stack| - 1];
      assert stack == stack[..|stack| - 1] + [top] && IsMatch(s, top, n);
      assert forall p :: p in stack[..|stack| - 1] <==> p in stack && p != top;
      forall p | p in stack[..|stack| - 1]
        ensures !IsMatch(s, p, n)
      {
        if IsMatch(s, p, n) {
          OnlyOneMatch(s, p, top, n);
        }
      }
    }
  }

  /** The stack holds the parentheses that are still open. */
  lemma {:induction false} StackIsStillOpen(s: string, n: nat)
    requires n <= |s|
    ensures SameElements(Stack(s, n), StillOpen(s, n))
  {
    if n == 0 {
    } else {
      var stack := Stack(s, n - 1);
      StackIsStillOpen(s, n - 1);
      TopIsInnermost(s, n - 1);
      if stack != [] {
        StackIsStillOpen(s, stack[|stack| - 1]);
        assert forall k :: 0 <= k < |stack| - 1 ==> stack[k] in stack[..|stack| - 1];
      }
      StillOpenNext(s, n - 1, stack);
    }
  }

  lemma {:induction false} StackDepth(s: string, n: nat)
    requires n <= |s|
    ensures |Stack(s, n)| == |StillOpen(s, n)|
  {
    var stack := Stack(s, n);
    StackIsStillOpen(s, n);
    if stack == [] {
      assert StillOpen(s, n) == {};
    } else {
      var top := stack[|stack| - 1];
      TopIsInnermost(s, n);
      StackDepth(s, top);
      StackIsStillOpen(s, top);
      assert stack == Stack(s, top) + [top];
      assert StillOpen(s, n) == StillOpen(s, top) + {top};
    }
  }

  /** A closing parenthesis matches what is on top of the stack, and nothing else. */
  lemma MatchIsTop(s: string, a: nat, b: nat)
    requires b < |s| && s[b] == ')'
    ensures var stack := Stack(s, b);
      IsMatch(s, a, b) <==> stack != [] && a == stack[|stack| - 1]
  {
    var stack := Stack(s, b);
    TopIsInnermost(s, b);
    StackIsStillOpen(s, b);
    if IsMatch(s, a, b) {
      if a !in stack {
        var b': nat :| b' < b && IsMatch(s, a, b');
        MatchedIsNotOpen(s, a, b', b);
      } else if a < stack[|stack| - 1] {
        OnlyOneMatch(s, a, stack[|stack| - 1], b);
      } else if stack[|stack| - 1] < a {
        OnlyOneMatch(s, stack[|stack| - 1], a, b);
      }
    }
  }

  // ---------------------------------------------------------------- the theorem

  /** The pairs are the matches ending before n: each once, in the order of their ends, with the
      number of parentheses still open before them as level. */
  ghost predicate AreMatches(s: string, n: nat, pairs: seq<Pair>)
    requires n <= |s|
  {
    && (forall k :: 0 <= k < |pairs| ==> pairs[k].end < n && IsMatch(s, pairs[k].start, pairs[k].end))
    && (forall k :: 0 <= k < |pairs| ==> pairs[k].level == |StillOpen(s, pairs[k].start)|)
    && (forall j, k :: 0 <= j < k < |pairs| ==> pairs[j].end < pairs[k].end)
    && (forall a: nat, b: nat :: b < n && IsMatch(s, a, b) ==> Pair(|StillOpen(s, a)|, a, b) in pairs)
  }

  /** The matches ending at b: at most one. */
  ghost predicate AreNew(s: string, b: nat, yielded: seq<Pair>)
    requires b < |s|
  {
    && |yielded| <= 1
    && (forall p :: p in yielded ==> p.end == b && IsMatch(s, p.start, b) && p.level == |StillOpen(s, p.start)|)
    && (forall a: nat :: IsMatch(s, a, b) ==> Pair(|StillOpen(s, a)|, a, b) in yielded)
  }

  lemma YieldedAreNew(s: string, b: nat)
    requires b < |s|
    ensures AreNew(s, b, Yielded(Stack(s, b), s[b], b))
  {
    var stack := Stack(s, b);
    if s[b] == ')' {
      if stack != [] {
        var top := stack[|stack| - 1];
        MatchIsTop(s, top, b);
        TopIsInnermost(s, b);
        StackDepth(s, top);
      }
      forall a: nat | IsMatch(s, a, b)
        ensures stack != [] && a == stack[|stack| - 1]
      {
        MatchIsTop(s, a, b);
      }
    }
  }

  lemma MatchesNext(s: string, n: nat, before: seq<Pair>, yielded: seq<Pair>, pairs: seq<Pair>)
    requires 0 < n <= |s| && AreMatches(s, n - 1, before) && AreNew(s, n - 1, yielded)
    requires pairs == before + yielded
    ensures AreMatches(s, n, pairs)
  {
    assert forall k :: |before| <= k < |pairs| ==> pairs[k] in yielded;
  }

  /** For every string, balanced or not, the pairs found are exactly the matches. */
  lemma {:induction false} PairsAreMatches(s: string, n: nat)
    requires n <= |s|
    ensures AreMatches(s, n, Pairs(s, n))
  {
    if n == 0 {
    } else {
      PairsAreMatches(s, n - 1);
      YieldedAreNew(s, n - 1);
      MatchesNext(s, n, Pairs(s, n - 1), Yielded(Stack(s, n - 1), s[n - 1], n - 1), Pairs(s, n));
    }
  }

  /** There is only one such list. */
  lemma {:induction false} OnlyOneListing(s: string, n: nat, p: seq<Pair>, q: seq<Pair>)
    requires n <= |s| && AreMatches(s, n, p) && AreMatches(s, n, q)
    ensures p == q
  {
    forall k | 0 <= k < |p|
      ensures p[k] in q
    {
      PairIsListed(s, n, p, q, p[k]);
    }
    forall k | 0 <= k < |q|
      ensures q[k] in p
    {
      PairIsListed(s, n, q, p, q[k]);
    }
    hide IsMatch, StillOpen;
    SameByEnds(p, q);
  }

  lemma PairIsListed(s: string, n: nat, p: seq<Pair>, q: seq<Pair>, x: Pair)
    requires n <= |s| && AreMatches(s, n, p) && AreMatches(s, n, q) && x in p
    ensures x in q
  {
    assert x == Pair(|StillOpen(s, x.start)|, x.start, x.end);
  }

  ghost predicate ByEnd(p: seq<Pair>) {
    forall j, k :: 0 <= j < k < |p| ==> p[j].end < p[k].end
  }

  ghost predicate Within(p: seq<Pair>, q: seq<Pair>) {
    forall k :: 0 <= k < |p| ==> p[k] in q
  }

  lemma LastsAgree(p: seq<Pair>, q: seq<Pair>)
    requires p != [] && q != [] && ByEnd(p) && ByEnd(q) && Within(p, q) && Within(q, p)
    ensures p[|p| - 1] == q[|q| - 1]
  {
    assert p[|p| - 1] in q && q[|q| - 1] in p;
  }

  lemma WithinButLast(p: seq<Pair>, q: seq<Pair>)
    requires p != [] && q != [] && ByEnd(p) && Within(p, q) && p[|p| - 1] == q[|q| - 1]
    ensures Within(p[..|p| - 1], q[..|q| - 1])
  {
    forall k | 0 <= k < |p| - 1
      ensures p[k] in q[..|q| - 1]
    {
      assert p[k] in q && p[k] != q[|q| - 1];
      var j :| 0 <= j < |q| && q[j] == p[k];
      assert q[..|q| - 1][j] == p[k];
    }
  }

  lemma {:induction false} SameByEnds(p: seq<Pair>, q: seq<Pair>)
    requires ByEnd(p) && ByEnd(q) && Within(p, q) && Within(q, p)
    ensures p == q
    decreases |p|
  {
    if p != [] && q != [] {
      LastsAgree(p, q);
      WithinButLast(p, q);
      WithinButLast(q, p);
      hide Within;
      SameByEnds(p[..|p| - 1], q[..|q| - 1]);
      assert p == p[..|p| - 1] + [p[|p| - 1]] && q == q[..|q| - 1] + [q[|q| - 1]];
    } else {
      EmptyTogether(p, q);
      EmptyTogether(q, p);
    }
  }

  lemma EmptyTogether(p: seq<Pair>, q: seq<Pair>)
    requires Within(q, p)
    ensures p == [] ==> q == []
  {
    assert q == [] || q[0] in p;
  }

  function Contents(s: string, p: Pair): (nat, string)
    requires p.start < p.end < |s|
  {
    (p.level, s[p.start + 1..p.end])
  }

  ghost predicate AreContents(s: string, pairs: seq<Pair>, found: seq<(nat, string)>) {
    && |found| == |pairs|
    && forall k :: 0 <= k < |pairs| ==>
         pairs[k].start < pairs[k].end < |s| && found[k] == Contents(s, pairs[k])
  }

  /** What has been yielded after position i. */
  function FoundAfter(s: string, stack: seq<nat>, i: nat, found: seq<(nat, string)>): seq<(nat, string)>
    requires i < |s| && (stack != [] ==> stack[|stack| - 1] < i)
  {
    if s[i] == ')' && stack != [] then found + [(|stack| - 1, s[stack[|stack| - 1] + 1..i])] else found
  }

  lemma FoundNext(s: string, i: nat, found: seq<(nat, string)>)
    requires i < |s| && AreContents(s, Pairs(s, i), found)
    ensures var stack := Stack(s, i);
      && (stack != [] ==> stack[|stack| - 1] < i)
      && Stack(s, i + 1) == Pushed(stack, s[i], i)
      && AreContents(s, Pairs(s, i + 1), FoundAfter(s, stack, i, found))
  {
    TopIsBefore(s, i);
    var stack, pairs := Stack(s, i), Pairs(s, i);
    var yielded := Yielded(stack, s[i], i);
    assert Pairs(s, i + 1) == pairs + yielded;
    hide Stack, Pairs, AreContents;
    if yielded == [] {
      assert pairs + yielded == pairs;
    } else {
      assert yielded == [yielded[0]];
      ContentsNext(s, pairs, found, yielded[0]);
    }
  }

  lemma ContentsNext(s: string, pairs: seq<Pair>, found: seq<(nat, string)>, p: Pair)
    requires AreContents(s, pairs, found) && p.start < p.end < |s|
    ensures AreContents(s, pairs + [p], found + [Contents(s, p)])
  {
  }

  /** What parse_expression yields, in order: level and contents of every matching pair. */
  method ParseExpression(s: string) returns (found: seq<(nat, string)>)
    ensures AreMatches(s, |s|, Pairs(s, |s|))
    ensures AreContents(s, Pairs(s, |s|), found)
  {
    PairsAreMatches(s, |s|);
    NothingFound(s);
    hide Stack, Pairs, AreMatches, AreContents;
    var stack: seq<nat> := [];
    found := [];
    for i := 0 to |s|
      invariant stack == Stack(s, i)
      invariant AreContents(s, Pairs(s, i), found)
    {
      FoundNext(s, i, found);
      if s[i] == '(' {
        stack := stack + [i];
      } else if s[i] == ')' && stack != [] {
        var start := stack[|stack| - 1];
        stack := stack[..|stack| - 1];
        found := found + [(|stack|, s[start + 1..i])];
      }
    }
  }

  lemma NothingFound(s: string)
    ensures Stack(s, 0) == [] && AreContents(s, Pairs(s, 0), [])
  {
  }
}
