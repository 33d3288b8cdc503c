/**
 The write buffers: enqueue, must_commit, commit and clear_pending of Bucket in loudml/bucket.py,
 and their replacements in MongoBucket, loudml/mongo.py.

 Sending can fail at any time; the laws say that nothing is lost, and when nothing is doubled.
 */
module WriteBuffer {
  import opened Prelude

  type Request = string

  // ---------------------------------------------------------------- the list buffer

  const FLUSH_SIZE := 1000
  const MICROSECONDS := 1_000_000
  const SECONDS_PER_DAY := 86_400

  /** timedelta.seconds: what is left of the difference after taking out whole days. */
  function SecondsOf(elapsed: int): int {
    (elapsed / MICROSECONDS) % SECONDS_PER_DAY
  }

  function MustCommit(nbPending: nat, elapsed: int): bool {
    if nbPending == 0 then false
    else if nbPending >= FLUSH_SIZE then true
    else SecondsOf(elapsed) >= 1
  }

  /** Time alone makes a nonempty buffer commit unless the elapsed time is within a second above
      a whole number of days, zero days included. */
  lemma CommitByTime(nbPending: nat, elapsed: int, days: int)
    requires 0 < nbPending < FLUSH_SIZE
    requires days * SECONDS_PER_DAY * MICROSECONDS <= elapsed < (days + 1) * SECONDS_PER_DAY * MICROSECONDS
    ensures MustCommit(nbPending, elapsed) <==> elapsed >= days * SECONDS_PER_DAY * MICROSECONDS + MICROSECONDS
  {
    var rest := elapsed - days * SECONDS_PER_DAY * MICROSECONDS;
    assert elapsed / MICROSECONDS == days * SECONDS_PER_DAY + rest / MICROSECONDS;
    assert (days * SECONDS_PER_DAY + rest / MICROSECONDS) % SECONDS_PER_DAY == rest / MICROSECONDS;
  }

  datatype Buffer = Buffer(pending: seq<Request>, lastCommit: int, delivered: seq<Request>)

  /** A call at a time, with the fate of the sending it may cause. */
  datatype Call = Enqueue(req: Request, now: int, sends: bool) | Commit(now: int, sends: bool)

  function Committed(b: Buffer, now: int, sends: bool): Buffer {
    if b.pending == [] then b.(lastCommit := now)
    else if sends then Buffer([], now, b.delivered + b.pending)
    else b
  }

  function Perform(b: Buffer, c: Call): Buffer {
    match c
    case Commit(now, sends) => Committed(b, now, sends)
    case Enqueue(req, now, sends) =>
      var b' := b.(pending := b.pending + [req]);
      if MustCommit(|b'.pending|, now - b.lastCommit) then Committed(b', now, sends) else b'
  }

  /** Whether the call raises: it had to send, and sending failed. */
  function Raises(b: Buffer, c: Call): bool {
    match c
    case Commit(_, sends) => b.pending != [] && !sends
    case Enqueue(_, now, sends) => MustCommit(|b.pending| + 1, now - b.lastCommit) && !sends
  }

  function PerformAll(b: Buffer, calls: seq<Call>): Buffer {
    if calls == [] then b else Perform(PerformAll(b, calls[..|calls| - 1]), calls[|calls| - 1])
  }

  function Enqueued(calls: seq<Call>): seq<Request> {
    if calls == [] then [] else
      Enqueued(calls[..|calls| - 1]) +
      match calls[|calls| - 1] case Enqueue(req, _, _) => [req] case Commit(_, _) => []
  }

  /** Whatever fails, delivered requests followed by pending ones are the enqueued ones, in order
      and each once. */
  lemma {:induction false} NothingLostNothingDoubled(b: Buffer, calls: seq<Call>)
    ensures var b' := PerformAll(b, calls);
      b'.delivered + b'.pending == b.delivered + b.pending + Enqueued(calls)
  {
    if calls == [] {
    } else {
      var before := calls[..|calls| - 1];
      NothingLostNothingDoubled(b, before);
      PerformKeepsRequests(PerformAll(b, before), calls[|calls| - 1]);
    }
  }

  lemma PerformKeepsRequests(b: Buffer, c: Call)
    ensures var b' := Perform(b, c);
      b'.delivered + b'.pending == b.delivered + b.pending + match c case Enqueue(req, _, _) => [req] case Commit(_, _) => []
  {
    match c {
      case Enqueue(req, _, _) =>
        assert b.delivered + (b.pending + [req]) == b.delivered + b.pending + [req];
      case Commit(_, _) =>
    }
  }

  /** The time of the last commit is that of the last call that left nothing pending. A call raises
      only if sending fails; a call that returns normally leaves fewer than 1000 requests pending, or none if it is a
      commit; one that raises has sent nothing. */
  lemma PendingAfterCall(b: Buffer, c: Call)
    ensures !Raises(b, c) && c.Enqueue? ==> |Perform(b, c).pending| < FLUSH_SIZE
    ensures !Raises(b, c) && c.Commit? ==> Perform(b, c).pending == []
    ensures Raises(b, c) ==> Perform(b, c).delivered == b.delivered && |Perform(b, c).pending| > 0
    ensures !Raises(b, c) && c.Enqueue? && MustCommit(|b.pending| + 1, c.now - b.lastCommit) ==> Perform(b, c).pending == []
    ensures c.Enqueue? && !MustCommit(|b.pending| + 1, c.now - b.lastCommit) ==> Perform(b, c) == b.(pending := b.pending + [c.req])
    ensures Perform(b, c).lastCommit == if Perform(b, c).pending == [] then c.now else b.lastCommit
    ensures c.sends ==> !Raises(b, c)
  {
  }

  class Bucket {
    var pending: seq<Request>
    var lastCommit: int
    ghost var delivered: seq<Request>

    constructor (now: int)
      ensures Contents() == Buffer([], now, [])
    {
      pending, lastCommit, delivered := [], now, [];
    }

    ghost function Contents(): Buffer
      reads this
    {
      Buffer(pending, lastCommit, delivered)
    }

    /** The database, which takes all of the requests or none. */
    method SendBulk(requests: seq<Request>, sends: bool)
      modifies this`delivered
      ensures delivered == if sends then old(delivered) + requests else old(delivered)
    {
      if sends {
        delivered := delivered + requests;
      }
    }

    method CommitPending(now: int, sends: bool) returns (raised: bool)
      modifies this
      ensures Contents() == Committed(old(Contents()), now, sends)
      ensures raised == (old(pending) != [] && !sends)
    {
      if |pending| > 0 {
        SendBulk(pending, sends);
        if !sends {
          return true;
        }
        pending := [];
      }
      lastCommit := now;
      return false;
    }

    method EnqueueRequest(req: Request, now: int, sends: bool) returns (raised: bool)
      modifies this
      ensures Contents() == Perform(old(Contents()), Enqueue(req, now, sends))
      ensures raised == Raises(old(Contents()), Enqueue(req, now, sends))
    {
      pending := pending + [req];
      raised := false;
      if MustCommit(|pending|, now - lastCommit) {
        raised := CommitPending(now, sends);
      }
    }
  }

  // ---------------------------------------------------------------- the dictionary buffer

  type Collection = string

  function At(m: map<Collection, seq<Request>>, c: Collection): seq<Request> {
    if c in m then m[c] else []
  }

  /** `history` is everything enqueued, `sent` how much of it had been enqueued when a commit last
      succeeded. */
  datatype Dict = Dict(
    pending: map<Collection, seq<Request>>,
    nbPending: nat,
    delivered: map<Collection, seq<Request>>,
    history: seq<(Collection, Request)>,
    sent: nat
  )

  const EMPTY := Dict(map[], 0, map[], [], 0)

  /** A commit sends one collection after the other; `done` are those it gets through with. */
  datatype DictCall = Put(c: Collection, req: Request) | Flush(done: set<Collection>)

  function Merged(delivered: map<Collection, seq<Request>>, pending: map<Collection, seq<Request>>, done: set<Collection>)
    : map<Collection, seq<Request>>
  {
    map c | c in delivered.Keys + pending.Keys * done :: At(delivered, c) + if c in done then At(pending, c) else []
  }

  /** The counter is not reset when the pending requests are cleared. */
  function PerformDict(d: Dict, call: DictCall): Dict {
    match call
    case Put(c, req) =>
      d.(pending := d.pending[c := At(d.pending, c) + [req]],
         nbPending := d.nbPending + 1,
         history := d.history + [(c, req)])
    case Flush(done) =>
      var d' := d.(delivered := Merged(d.delivered, d.pending, done));
      if d.nbPending == 0 then d
      else if d.pending.Keys <= done then d'.(pending := map[], sent := |d.history|)
      else d'
  }

  /** The requests of one collection, in order. */
  ghost function Of(history: seq<(Collection, Request)>, c: Collection): seq<Request> {
    if history == [] then [] else
      var (c', req) := history[|history| - 1];
      Of(history[..|history| - 1], c) + if c' == c then [req] else []
  }

  lemma {:induction false} OfConcat(a: seq<(Collection, Request)>, b: seq<(Collection, Request)>, c: Collection)
    ensures Of(a + b, c) == Of(a, c) + Of(b, c)
  {
    if b == [] {
      assert a + b == a;
    } else {
      assert (a + b)[..|a + b| - 1] == a + b[..|b| - 1];
      OfConcat(a, b[..|b| - 1], c);
    }
  }

  /** Pending is what was enqueued since the last successful commit, and the counter counts
      everything ever enqueued, so it never under-counts. */
  ghost predicate Counted(d: Dict) {
    && d.sent <= |d.history| == d.nbPending
    && (forall c :: At(d.pending, c) == Of(d.history[d.sent..], c))
    && (forall c :: c in d.pending ==> d.pending[c] != [])
  }

  lemma AppendToHistory(h: seq<(Collection, Request)>, sent: nat, c: Collection, req: Request, k: Collection)
    requires sent <= |h|
    ensures Of((h + [(c, req)])[sent..], k) == Of(h[sent..], k) + if c == k then [req] else []
  {
    assert (h + [(c, req)])[sent..] == h[sent..] + [(c, req)];
    assert [(c, req)][..0] == [];
    assert Of([(c, req)], k) == if c == k then [req] else [];
    OfConcat(h[sent..], [(c, req)], k);
  }

  lemma PutIsCounted(d: Dict, c: Collection, req: Request)
    requires Counted(d)
    ensures Counted(PerformDict(d, Put(c, req)))
  {
    hide Of;
    var d' := PerformDict(d, Put(c, req));
    forall k
      ensures At(d'.pending, k) == Of(d'.history[d'.sent..], k)
    {
      AppendToHistory(d.history, d.sent, c, req, k);
    }
  }

  lemma FlushIsCounted(d: Dict, done: set<Collection>)
    requires Counted(d)
    ensures Counted(PerformDict(d, Flush(done)))
  {
    hide Merged;
    assert d.history[|d.history|..] == [];
  }

  lemma CounterCoversPending(d: Dict)
    requires Counted(d)
    ensures d.pending != map[] ==> d.nbPending > 0
  {
    if d.pending != map[] {
      var c :| c in d.pending;
      assert Of(d.history[d.sent..], c) != [];
    }
  }

  lemma PerformIsCounted(d: Dict, call: DictCall)
    requires Counted(d)
    ensures Counted(PerformDict(d, call))
    ensures d.pending != map[] ==> d.nbPending > 0
  {
    hide Counted, PerformDict;
    CounterCoversPending(d);
    match call {
      case Put(c, req) => PutIsCounted(d, c, req);
      case Flush(done) => FlushIsCounted(d, done);
    }
  }

  /** The law, per collection: delivered followed by pending is what was enqueued. */
  ghost predicate Conserved(d: Dict) {
    forall c :: At(d.delivered, c) + At(d.pending, c) == Of(d.history, c)
  }

  /** The commit sends every collection, or fails before it has sent any. */
  ghost predicate AllOrNothing(d: Dict, call: DictCall) {
    call.Flush? ==> d.pending.Keys <= call.done || d.pending.Keys !! call.done
  }

  lemma MergedAt(delivered: map<Collection, seq<Request>>, pending: map<Collection, seq<Request>>, done: set<Collection>, k: Collection)
    ensures At(Merged(delivered, pending, done), k) == At(delivered, k) + if k in done then At(pending, k) else []
  {
  }

  lemma MergedNothing(delivered: map<Collection, seq<Request>>, pending: map<Collection, seq<Request>>)
    ensures Merged(delivered, pending, {}) == delivered
  {
    assert forall c :: c in delivered ==> delivered[c] + [] == delivered[c];
  }

  lemma PutInHistory(d: Dict, c: Collection, req: Request, k: Collection)
    ensures Of(PerformDict(d, Put(c, req)).history, k) == Of(d.history, k) + if c == k then [req] else []
  {
    AppendToHistory(d.history, 0, c, req, k);
    assert (d.history + [(c, req)])[0..] == d.history + [(c, req)] && d.history[0..] == d.history;
  }

  lemma PutConserves(d: Dict, c: Collection, req: Request)
    requires Conserved(d)
    ensures Conserved(PerformDict(d, Put(c, req)))
  {
    hide Of;
    var d' := PerformDict(d, Put(c, req));
    forall k
      ensures At(d'.delivered, k) + At(d'.pending, k) == Of(d'.history, k)
    {
      PutInHistory(d, c, req, k);
      assert At(d.delivered, k) + At(d.pending, k) == Of(d.history, k);
    }
  }

  lemma FlushConserves(d: Dict, done: set<Collection>, k: Collection)
    requires Counted(d) && Conserved(d)
    ensures var d' := PerformDict(d, Flush(done));
      At(d'.delivered, k) + At(d'.pending, k) == Of(d.history, k) <==>
        k !in d.pending || d.pending.Keys <= done || k !in done
  {
    hide Of;
    assert d.pending != map[] ==> d.nbPending > 0 by {
      PerformIsCounted(d, Flush(done));
    }
    assert At(d.delivered, k) + At(d.pending, k) == Of(d.history, k);
    MergedAt(d.delivered, d.pending, done, k);
    var d' := PerformDict(d, Flush(done));
    if k in d.pending && k in done && !(d.pending.Keys <= done) {
      assert |At(d'.delivered, k) + At(d'.pending, k)| > |At(d.delivered, k) + At(d.pending, k)|;
    }
  }

  /** The law survives a commit exactly when that is all or nothing: otherwise what was sent
      before the failure stays pending, and will be delivered twice. */
  lemma ConservedIffAllOrNothing(d: Dict, call: DictCall)
    requires Counted(d) && Conserved(d)
    ensures Conserved(PerformDict(d, call)) <==> AllOrNothing(d, call)
  {
    hide Of;
    match call {
      case Put(c, req) =>
        PutConserves(d, c, req);
      case Flush(done) =>
        forall k
          ensures FlushKeeps(d, done, k) <==> k !in d.pending || d.pending.Keys <= done || k !in done
        {
          FlushConserves(d, done, k);
        }
        var d' := PerformDict(d, call);
        assert d'.history == d.history;
        if !AllOrNothing(d, call) {
          var k :| k in d.pending && k in done;
          assert !FlushKeeps(d, done, k);
        } else {
          assert forall k :: FlushKeeps(d, done, k);
        }
    }
  }

  lemma AtMostOne(keys: set<Collection>)
    ensures |keys| <= 1 <==> forall a, b :: a in keys && b in keys ==> a == b
  {
    if |keys| > 1 {
      var a :| a in keys;
      assert |keys - {a}| > 0;
      var b :| b in keys - {a};
    } else if keys != {} {
      var a :| a in keys;
      assert |keys - {a}| == 0;
      assert keys - {a} == {};
    }
  }

  /** Before a commit: it keeps the law whatever fails if and only if at most one collection has
      requests pending; with two, one can be sent before the other fails. */
  lemma ConservedIffOneCollection(d: Dict)
    requires Counted(d) && Conserved(d)
    ensures (forall done :: Conserved(PerformDict(d, Flush(done)))) <==> |d.pending.Keys| <= 1
  {
    hide Of, Counted, Conserved, PerformDict;
    AtMostOne(d.pending.Keys);
    forall done
      ensures Conserved(PerformDict(d, Flush(done))) <==> AllOrNothing(d, Flush(done))
    {
      ConservedIffAllOrNothing(d, Flush(done));
    }
    if |d.pending.Keys| > 1 {
      var a, b :| a in d.pending.Keys && b in d.pending.Keys && a != b;
      assert !AllOrNothing(d, Flush({a}));
    }
  }

  /** A bucket that only ever uses one collection, as insert_data does, conserves every request
      whatever fails. */
  lemma {:induction false} OneCollectionConserves(calls: seq<DictCall>, c: Collection)
    requires forall k :: 0 <= k < |calls| && calls[k].Put? ==> calls[k].c == c
    ensures PerformDictAll(EMPTY, calls).pending.Keys <= {c}
    ensures Conserved(PerformDictAll(EMPTY, calls))
  {
    hide Of, Counted, Conserved;
    if calls == [] {
      DictRun([]);
    } else {
      var before := PerformDictAll(EMPTY, calls[..|calls| - 1]);
      OneCollectionConserves(calls[..|calls| - 1], c);
      DictRun(calls[..|calls| - 1]);
      ConservedIffAllOrNothing(before, calls[|calls| - 1]);
    }
  }

  ghost predicate FlushKeeps(d: Dict, done: set<Collection>, k: Collection) {
    var d' := PerformDict(d, Flush(done));
    At(d'.delivered, k) + At(d'.pending, k) == Of(d.history, k)
  }

  ghost function PerformDictAll(d: Dict, calls: seq<DictCall>): Dict {
    if calls == [] then d else PerformDict(PerformDictAll(d, calls[..|calls| - 1]), calls[|calls| - 1])
  }

  ghost predicate EachAllOrNothing(d: Dict, calls: seq<DictCall>) {
    calls == [] ||
    (EachAllOrNothing(d, calls[..|calls| - 1]) &&
     AllOrNothing(PerformDictAll(d, calls[..|calls| - 1]), calls[|calls| - 1]))
  }

  /** Every run counts correctly, and conserves the requests if its sendings are all or nothing. */
  lemma {:induction false} DictRun(calls: seq<DictCall>)
    ensures Counted(PerformDictAll(EMPTY, calls))
    ensures EachAllOrNothing(EMPTY, calls) ==> Conserved(PerformDictAll(EMPTY, calls))
  {
    if calls == [] {
    } else {
      var before := PerformDictAll(EMPTY, calls[..|calls| - 1]);
      DictRun(calls[..|calls| - 1]);
      PerformIsCounted(before, calls[|calls| - 1]);
      if EachAllOrNothing(EMPTY, calls) {
        ConservedIffAllOrNothing(before, calls[|calls| - 1]);
      }
    }
  }

  /** A commit that gets through with every collection leaves nothing pending and has delivered
      everything enqueued; one that does not leaves everything pending, delivers the collections it
      got through with, and nothing else. */
  lemma FlushDelivers(d: Dict, done: set<Collection>, c: Collection)
    requires Counted(d) && Conserved(d)
    ensures var d' := PerformDict(d, Flush(done));
      if d.pending.Keys <= done then d'.pending == map[] && At(d'.delivered, c) == Of(d.history, c)
      else
        && d'.pending == d.pending
        && At(d'.delivered, c) == At(d.delivered, c) + if c in done then At(d.pending, c) else []
  {
    hide Of;
    CounterCoversPending(d);
    MergedAt(d.delivered, d.pending, done, c);
    assert At(d.delivered, c) + At(d.pending, c) == Of(d.history, c);
  }

  /** Nothing is ever lost, not even by a commit that fails half way. */
  ghost predicate NothingLost(d: Dict) {
    forall c :: multiset(Of(d.history, c)) <= multiset(At(d.delivered, c)) + multiset(At(d.pending, c))
  }

  lemma PutLosesNothing(d: Dict, c: Collection, req: Request, k: Collection)
    requires NothingLost(d)
    ensures var d' := PerformDict(d, Put(c, req));
      multiset(Of(d'.history, k)) <= multiset(At(d'.delivered, k)) + multiset(At(d'.pending, k))
  {
    hide Of, NothingLost;
    var d' := PerformDict(d, Put(c, req));
    NothingLostAt(d, k);
    PutInHistory(d, c, req, k);
    var more := if c == k then [req] else [];
    assert At(d'.pending, k) == At(d.pending, k) + more;
    assert multiset(At(d.pending, k) + more) == multiset(At(d.pending, k)) + multiset(more);
    assert multiset(Of(d.history, k) + more) == multiset(Of(d.history, k)) + multiset(more);
  }

  lemma FlushLosesNothing(d: Dict, done: set<Collection>, k: Collection)
    requires NothingLost(d)
    ensures var d' := PerformDict(d, Flush(done));
      multiset(Of(d'.history, k)) <= multiset(At(d'.delivered, k)) + multiset(At(d'.pending, k))
  {
    hide Of, NothingLost, PerformDict, At;
    NothingLostAt(d, k);
    FlushAt(d, done, k);
    assert multiset(At(d.delivered, k) + At(d.pending, k)) == multiset(At(d.delivered, k)) + multiset(At(d.pending, k));
  }

  /** A commit leaves the requests of a collection alone, delivers them, or delivers them and
      keeps them pending. */
  lemma FlushAt(d: Dict, done: set<Collection>, k: Collection)
    ensures var d' := PerformDict(d, Flush(done));
      var sent, kept, sent', kept' := At(d.delivered, k), At(d.pending, k), At(d'.delivered, k), At(d'.pending, k);
      && d'.history == d.history
      && ((sent' == sent && kept' == kept) || (sent' == sent + kept && (kept' == kept || kept' == [])))
  {
    MergedAt(d.delivered, d.pending, done, k);
  }

  lemma NothingLostAt(d: Dict, k: Collection)
    requires NothingLost(d)
    ensures multiset(Of(d.history, k)) <= multiset(At(d.delivered, k)) + multiset(At(d.pending, k))
  {
  }

  lemma PerformLosesNothing(d: Dict, call: DictCall)
    requires NothingLost(d)
    ensures NothingLost(PerformDict(d, call))
  {
    hide Of, PerformDict;
    forall k
      ensures var d' := PerformDict(d, call);
        multiset(Of(d'.history, k)) <= multiset(At(d'.delivered, k)) + multiset(At(d'.pending, k))
    {
      match call
      case Put(c, req) => PutLosesNothing(d, c, req, k);
      case Flush(done) => FlushLosesNothing(d, done, k);
    }
  }

  lemma {:induction false} EveryRequestSurvives(calls: seq<DictCall>)
    ensures NothingLost(PerformDictAll(EMPTY, calls))
  {
    if calls == [] {
    } else {
      EveryRequestSurvives(calls[..|calls| - 1]);
      PerformLosesNothing(PerformDictAll(EMPTY, calls[..|calls| - 1]), calls[|calls| - 1]);
    }
  }

  class MongoBucket {
    var pending: map<Collection, seq<Request>>
    var nbPending: nat
    ghost var delivered: map<Collection, seq<Request>>
    ghost var history: seq<(Collection, Request)>
    ghost var sent: nat

    constructor ()
      ensures Contents() == EMPTY
    {
      pending, nbPending, delivered, history, sent := map[], 0, map[], [], 0;
    }

    ghost function Contents(): Dict
      reads this
    {
      Dict(pending, nbPending, delivered, history, sent)
    }

    method EnqueueRequest(collection: Collection, request: Request)
      modifies this
      ensures Contents() == PerformDict(old(Contents()), Put(collection, request))
    {
      if collection !in pending {
        pending := pending[collection := []];
      }
      pending := pending[collection := pending[collection] + [request]];
      nbPending := nbPending + 1;
      history := history + [(collection, request)];
    }

    /** One bulk write per collection, each of them all or nothing; stops at the first that fails. */
    method SendBulk(requests: map<Collection, seq<Request>>, failing: set<Collection>) returns (ghost done: set<Collection>, ok: bool)
      modifies this`delivered
      ensures done <= requests.Keys && done !! failing
      ensures ok <==> done == requests.Keys
      ensures ok <==> requests.Keys !! failing
      ensures delivered == Merged(old(delivered), requests, done)
    {
      var rest := requests.Keys;
      done := {};
      assert delivered == Merged(old(delivered), requests, {}) by {
        MergedNothing(delivered, requests);
      }
      while rest != {}
        invariant rest <= requests.Keys && done == requests.Keys - rest && done !! failing
        invariant delivered == Merged(old(delivered), requests, done)
        decreases rest
      {
        var collection :| collection in rest;
        if collection in failing {
          return done, false;
        }
        delivered := delivered[collection := At(delivered, collection) + requests[collection]];
        rest := rest - {collection};
        done := done + {collection};
      }
      ok := true;
    }

    method Commit(failing: set<Collection>) returns (raised: bool)
      modifies this
      ensures exists done ::
        && done !! failing
        && Contents() == PerformDict(old(Contents()), Flush(done))
        && (raised <==> old(nbPending) > 0 && !(old(pending).Keys <= done))
      ensures raised <==> old(nbPending) > 0 && !(old(pending).Keys !! failing)
    {
      ghost var done := {};
      if nbPending > 0 {
        var ok: bool;
        done, ok := SendBulk(pending, failing);
        if !ok {
          assert Contents() == PerformDict(old(Contents()), Flush(done));
          return true;
        }
        pending := map[];
        sent := |history|;
      }
      assert Contents() == PerformDict(old(Contents()), Flush(done));
      return false;
    }
  }
}
