/**
 The server's side of the job protocol, as objects that are updated in place: the methods of Job
 and the functions on g_jobs in loudml/server.py, each proved to be one step of the protocol.
 */
module JobServer {
  import opened Prelude
  import opened Jobs

  class JobObject {
    const createdAt: int
    var state: JobState
    var progress: Option<Progress>
    var doneAt: Option<int>
    var outcome: Option<Outcome>
    var called: bool

    ghost function Value(): Job
      reads this
    {
      Job(state, progress, createdAt, doneAt, outcome, called)
    }

    constructor (now: int)
      ensures Value() == Job(Waiting, None, now, None, None, false)
    {
      createdAt, state, progress, doneAt, outcome, called := now, Waiting, None, None, None, false;
    }

    method CancelJob() returns (conflict: bool)
      modifies this
      ensures conflict == (old(state) == Done || old(state) == Failed || old(state) == Canceled)
      ensures state == if conflict then old(state) else Canceling
      ensures outcome == if !conflict && old(outcome).None? then Some(Cancelled) else old(outcome)
      ensures Value() == CancelRequested(old(Value()))
    {
      if state == Done || state == Failed || state == Canceled {
        return true;
      }
      state := Canceling;
      if outcome.None? {
        outcome := Some(Cancelled);
      }
      return false;
    }

    method SetFinalState(final: JobState, now: int)
      modifies this
      ensures Value() == old(Value()).(state := final, doneAt := Some(now))
    {
      doneAt := Some(now);
      state := final;
    }

    /** The completion callback of the future. */
    method DoneCb(now: int)
      requires outcome.Some?
      modifies this
      ensures Value() == Completed(old(Value()), now)
      ensures state == (match outcome.value case Returned => Done case Raised => Failed case Cancelled => Canceled)
      ensures doneAt == Some(now) && called
    {
      match outcome.value {
        case Returned => SetFinalState(Done, now);
        case Cancelled => SetFinalState(Canceled, now);
        case Raised => SetFinalState(Failed, now);
      }
      called := true;
    }

    method IsExpired(now: int, ttl: int) returns (expired: bool)
      requires IsStopped(Value()) ==> doneAt.Some?
      ensures expired == Expired(Value(), now, ttl)
    {
      expired := (state == Done || state == Failed || state == Canceled) && now - doneAt.value > ttl;
    }

    method SetRunning(newProgress: Option<Progress>)
      modifies this
      ensures Value() == Updated(old(Value()), newProgress)
      ensures if old(state) == Done || old(state) == Failed then state == old(state) && progress == old(progress)
        else state == Running && progress == newProgress
    {
      if state == Done || state == Failed {
        return;
      }
      state := Running;
      progress := newProgress;
    }
  }

  /** `jobs` is g_jobs, `queue` the message queue; the ghost fields are the rest of the system: all
      jobs ever started, the workers, and the messages read so far. */
  class Server {
    var jobs: map<JobId, JobObject>
    var queue: seq<Message>
    var now: int
    ghost var started: map<JobId, JobObject>
    ghost var workers: map<JobId, Worker>
    ghost var taken: seq<Message>

    ghost predicate Valid()
      reads this
    {
      && (forall id :: id in jobs ==> id in started && jobs[id] == started[id])
      && (forall i, j :: i in started && j in started && i != j ==> started[i] != started[j])
    }

    ghost function Contents(): Sys
      reads this, started.Values
    {
      Sys(Values(started), jobs.Keys, workers, queue, taken, now)
    }

    static ghost function Values(objects: map<JobId, JobObject>): map<JobId, Job>
      reads objects.Values
    {
      map id | id in objects :: objects[id].Value()
    }

    constructor ()
      ensures Valid() && Contents() == INITIAL
    {
      jobs, queue, now, started, workers, taken := map[], [], 0, map[], map[], [];
    }

    method StartJob(id: JobId, ghost requested: Option<int>, ghost configured: int)
      requires Valid() && id !in started
      modifies this
      ensures Valid() && Contents() == Step(old(Contents()), Start(id, requested, configured))
    {
      hide Step, Values, JobObject.Value;
      ghost var before := Contents();
      var job := new JobObject(now);
      assert forall i :: i in started ==> started[i] != job;
      ValuesPut(started, id, job);
      jobs := jobs[id := job];
      started := started[id := job];
      workers := workers[id := NewWorker(requested, configured)];
      StartStep(before, id, requested, configured);
    }

    static lemma ValuesPut(objects: map<JobId, JobObject>, id: JobId, job: JobObject)
      ensures Values(objects[id := job]) == Values(objects)[id := job.Value()]
      ensures Values(objects).Keys == objects.Keys
    {
    }

    method CancelById(id: JobId) returns (found: bool, conflict: bool)
      requires Valid()
      modifies started.Values
      ensures Valid() && Contents() == Step(old(Contents()), Jobs.Cancel(id))
      ensures found == (id in jobs)
      ensures found && !conflict ==> jobs[id].state == Canceling && jobs[id].outcome.Some?
      ensures conflict == (id in jobs && IsStopped(old(Contents()).jobs[id]))
    {
      if id !in jobs {
        return false, false;
      }
      assert jobs[id] in started.Values;
      conflict := jobs[id].CancelJob();
      found := true;
    }

    /** set_job_state for the first message of the queue. */
    method DeliverMessage()
      requires Valid() && queue != []
      modifies this`queue, this`taken, started.Values
      ensures Valid() && Contents() == Step(old(Contents()), Deliver)
      ensures queue == old(queue)[1..]
    {
      var m := queue[0];
      queue, taken := queue[1..], taken + [m];
      if m.id in jobs {
        assert jobs[m.id] in started.Values;
        jobs[m.id].SetRunning(m.progress);
      }
    }

    /** Reads until the queue is empty. */
    method ReadMessages()
      requires Valid()
      modifies this`queue, this`taken, started.Values
      ensures Valid() && queue == []
      ensures Contents() == Run(old(Contents()), seq(|old(queue)|, _ => Deliver))
    {
      ghost var before := Contents();
      ghost var n := |queue|;
      ghost var k: nat := 0;
      while |queue| > 0
        invariant Valid() && k + |queue| == n
        invariant Contents() == Run(before, seq(k, _ => Deliver))
        decreases |queue|
      {
        DeliverMessage();
        RunLast(before, seq(k, _ => Deliver), Deliver);
        assert seq(k, _ => Deliver) + [Deliver] == seq(k + 1, _ => Deliver);
        k := k + 1;
      }
    }

    method ExpiredJobs(ttl: int) returns (expired: set<JobId>)
      requires Valid() && Inv(Contents())
      ensures forall id :: id in expired <==> id in jobs && Expired(Contents().jobs[id], now, ttl)
    {
      hide Inv;
      ghost var all := Contents().jobs;
      var rest := jobs.Keys;
      expired := {};
      while rest != {}
        invariant rest <= jobs.Keys
        invariant forall id :: id in expired <==> id in jobs && id !in rest && Expired(all[id], now, ttl)
        decreases rest
      {
        var id :| id in rest;
        StoppedHasTime(Contents(), id);
        assert jobs[id].Value() == all[id];
        var isExpired := jobs[id].IsExpired(now, ttl);
        if isExpired {
          expired := expired + {id};
        }
        rest := rest - {id};
      }
    }

    /** daemon_clear_jobs: collects the expired jobs, then drops them. */
    method ClearJobs(ttl: int)
      requires Valid() && Inv(Contents())
      modifies this`jobs
      ensures Valid() && Contents() == Step(old(Contents()), Sweep(ttl))
    {
      var expired := ExpiredJobs(ttl);
      jobs := jobs - expired;
      assert Contents().registered == Step(old(Contents()), Sweep(ttl)).registered;
    }
  }

  lemma StartStep(s: Sys, id: JobId, requested: Option<int>, configured: int)
    requires id !in s.jobs
    ensures Step(s, Start(id, requested, configured)) ==
      s.(jobs := s.jobs[id := Job(Waiting, None, s.now, None, None, false)],
         registered := s.registered + {id},
         workers := s.workers[id := NewWorker(requested, configured)])
  {
  }

  lemma StoppedHasTime(s: Sys, id: JobId)
    requires Inv(s) && id in s.jobs
    ensures IsStopped(s.jobs[id]) ==> s.jobs[id].doneAt.Some?
  {
    assert JobOk(s.jobs[id], s.now);
  }
}
