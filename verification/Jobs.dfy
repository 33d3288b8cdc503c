/**
 The job protocol: Job, TrainingJob, set_job_state, read_messages and daemon_clear_jobs in
 loudml/server.py, with the workers of loudml/worker.py as senders of messages.

 A transition system with one step per method. Everything else, the workers, the process pool
 and the clock, moves between the steps as it likes.
 */
module Jobs {
  import opened Prelude

  type JobId = nat

  datatype JobState = Waiting | Running | Canceling | Done | Failed | Canceled

  datatype Progress = Progress(eval: nat, maxEvals: Option<int>)

  /** How the future of a job completed. */
  datatype Outcome = Returned | Raised | Cancelled

  /** `outcome` is the future's, `called` whether the completion callback has run. */
  datatype Job = Job(
    state: JobState,
    progress: Option<Progress>,
    createdAt: int,
    doneAt: Option<int>,
    outcome: Option<Outcome>,
    called: bool
  )

  /** A 'running' message; the first one of a job has no progress. */
  datatype Message = Message(id: JobId, progress: Option<Progress>)

  datatype Phase = Pending | Active | Stopped

  /** The worker of a job: how many reports it has sent, the max_evals requested for the job, if any,
      and the one training goes by, which is the model's own if none is requested. */
  datatype Worker = Worker(phase: Phase, picked: bool, reports: nat, requested: Option<int>, budget: int)

  /** Report k: the first is sent before training, with what was requested, the others after each
      evaluation. */
  function ReportAt(w: Worker, k: nat): Progress {
    if k == 0 then Progress(0, w.requested) else Progress(k, Some(w.budget))
  }

  /** Evaluations are made by an optimiser, which makes none without a budget. */
  predicate CanReport(w: Worker) {
    w.phase.Active? && (w.reports == 0 || w.budget > 0)
  }

  /** `registered` are the keys of g_jobs, `taken` the messages read from the queue so far. */
  datatype Sys = Sys(
    jobs: map<JobId, Job>,
    registered: set<JobId>,
    workers: map<JobId, Worker>,
    queue: seq<Message>,
    taken: seq<Message>,
    now: int
  )

  const INITIAL := Sys(map[], {}, map[], [], [], 0)

  datatype Action =
    | Start(id: JobId, requested: Option<int>, configured: int)
    | Pickup(id: JobId)
    | Report(id: JobId)
    | Finish(id: JobId, raises: bool)
    | Kill(id: JobId)
    | Callback(id: JobId)
    | Cancel(id: JobId)
    | Deliver
    | Sweep(ttl: int)
    | Tick(elapsed: nat)

  predicate IsStopped(j: Job) {
    j.state.Done? || j.state.Failed? || j.state.Canceled?
  }

  function Final(o: Outcome): JobState {
    match o case Returned => Done case Raised => Failed case Cancelled => Canceled
  }

  function Completed(j: Job, now: int): Job
    requires j.outcome.Some?
  {
    j.(state := Final(j.outcome.value), doneAt := Some(now), called := true)
  }

  function CancelRequested(j: Job): Job {
    if IsStopped(j) then j
    else j.(state := Canceling, outcome := if j.outcome.None? then Some(Cancelled) else j.outcome)
  }

  /** set_job_state: too late for done and failed jobs, but not for canceled ones. */
  function Updated(j: Job, progress: Option<Progress>): Job {
    if j.state.Done? || j.state.Failed? then j else j.(state := Running, progress := progress)
  }

  predicate Expired(j: Job, now: int, ttl: int) {
    IsStopped(j) && j.doneAt.Some? && now - j.doneAt.value > ttl
  }

  function NewWorker(requested: Option<int>, configured: int): Worker {
    Worker(Pending, false, 0, requested, if requested.Some? then requested.value else configured)
  }

  /** One step; a step that is not possible changes nothing. */
  function Step(s: Sys, a: Action): Sys {
    match a
    case Start(id, requested, configured) =>
      if id in s.jobs then s else
        s.(jobs := s.jobs[id := Job(Waiting, None, s.now, None, None, false)],
           registered := s.registered + {id},
           workers := s.workers[id := NewWorker(requested, configured)])
    case Pickup(id) =>
      if id in s.jobs && id in s.workers && s.jobs[id].outcome.None? && s.workers[id].phase.Pending? then
        s.(workers := s.workers[id := s.workers[id].(phase := Active, picked := true)],
           queue := s.queue + [Message(id, None)])
      else s
    case Report(id) =>
      if id in s.workers && CanReport(s.workers[id]) then
        var w := s.workers[id];
        s.(workers := s.workers[id := w.(reports := w.reports + 1)],
           queue := s.queue + [Message(id, Some(ReportAt(w, w.reports)))])
      else s
    case Finish(id, raises) =>
      if id in s.jobs && id in s.workers && s.jobs[id].outcome.None? && s.workers[id].phase.Active? then
        s.(jobs := s.jobs[id := s.jobs[id].(outcome := Some(if raises then Raised else Returned))],
           workers := s.workers[id := s.workers[id].(phase := Stopped)])
      else s
    case Kill(id) =>
      if id in s.jobs && id in s.workers && s.jobs[id].outcome == Some(Cancelled) then
        s.(workers := s.workers[id := s.workers[id].(phase := Stopped)])
      else s
    case Callback(id) =>
      if id in s.jobs && s.jobs[id].outcome.Some? && !s.jobs[id].called then
        s.(jobs := s.jobs[id := Completed(s.jobs[id], s.now)])
      else s
    case Cancel(id) =>
      if id in s.registered && id in s.jobs then s.(jobs := s.jobs[id := CancelRequested(s.jobs[id])]) else s
    case Deliver =>
      if s.queue == [] then s else
        var m := s.queue[0];
        var s' := s.(queue := s.queue[1..], taken := s.taken + [m]);
        if m.id in s.registered && m.id in s.jobs then
          s'.(jobs := s.jobs[m.id := Updated(s.jobs[m.id], m.progress)])
        else s'
    case Sweep(ttl) =>
      s.(registered := set id | id in s.registered && !(id in s.jobs && Expired(s.jobs[id], s.now, ttl)))
    case Tick(elapsed) => s.(now := s.now + elapsed)
  }

  function Run(s: Sys, actions: seq<Action>): Sys {
    if actions == [] then s else Step(Run(s, actions[..|actions| - 1]), actions[|actions| - 1])
  }

  // ---------------------------------------------------------------- what every step keeps

  /** What holds of one job: its final state is what its future says, except that a canceled job
      may have been put back to running. */
  ghost predicate JobOk(j: Job, now: int) {
    && (j.called ==> j.outcome.Some?)
    && (j.doneAt.Some? <==> j.called)
    && j.createdAt <= now && (j.doneAt.Some? ==> j.createdAt <= j.doneAt.value <= now)
    && (!j.called ==> !IsStopped(j))
    && (j.called && j.outcome == Some(Returned) ==> j.state == Done)
    && (j.called && j.outcome == Some(Raised) ==> j.state == Failed)
    && (j.called && j.outcome == Some(Cancelled) ==> j.state == Canceled || j.state == Running || j.state == Canceling)
  }

  ghost predicate Inv(s: Sys) {
    && s.registered <= s.jobs.Keys == s.workers.Keys
    && forall id :: id in s.jobs ==> JobOk(s.jobs[id], s.now)
  }

  lemma ChangedJobsAreOk(j: Job, now: int, progress: Option<Progress>, o: Outcome, elapsed: nat)
    requires JobOk(j, now)
    ensures JobOk(CancelRequested(j), now) && JobOk(Updated(j, progress), now)
    ensures j.outcome.Some? && !j.called ==> JobOk(Completed(j, now), now)
    ensures j.outcome.None? ==> JobOk(j.(outcome := Some(o)), now)
    ensures JobOk(j, now + elapsed)
  {
  }

  lemma StepKeepsInv(s: Sys, a: Action)
    requires Inv(s)
    ensures Inv(Step(s, a)) && s.jobs.Keys <= Step(s, a).jobs.Keys
  {
    var s' := Step(s, a);
    forall id | id in s'.jobs
      ensures JobOk(s'.jobs[id], s'.now)
    {
      if id in s.jobs {
        hide JobOk, Completed, CancelRequested, Updated;
        assert JobOk(s.jobs[id], s.now);
        ChangedJobsAreOk(s.jobs[id], s.now, if s.queue != [] then s.queue[0].progress else None,
          if a.Finish? && !a.raises then Returned else Raised, if a.Tick? then a.elapsed else 0);
      }
    }
  }

  lemma StoppedIsComplete(s: Sys, id: JobId)
    requires Inv(s) && id in s.jobs && IsStopped(s.jobs[id])
    ensures var j := s.jobs[id];
      j.doneAt.Some? && j.called && j.outcome.Some? && j.state == Final(j.outcome.value)
  {
    assert JobOk(s.jobs[id], s.now);
  }

  /** In every interleaving: a stopped job has its completion time, its future has completed and
      its callback has run. */
  lemma {:induction false} EveryRunIsOk(actions: seq<Action>)
    ensures Inv(Run(INITIAL, actions))
    ensures forall id :: id in Run(INITIAL, actions).jobs && IsStopped(Run(INITIAL, actions).jobs[id]) ==>
      var j := Run(INITIAL, actions).jobs[id];
      && j.doneAt.Some? && j.called
      && j.outcome == Some(match j.state case Done => Returned case Failed => Raised case _ => Cancelled)
  {
    hide Run;
    RunFromInitial(actions);
    var s := Run(INITIAL, actions);
    forall id | id in s.jobs && IsStopped(s.jobs[id])
      ensures var j := s.jobs[id];
        && j.doneAt.Some? && j.called
        && j.outcome == Some(match j.state case Done => Returned case Failed => Raised case _ => Cancelled)
    {
      StoppedIsComplete(s, id);
    }
  }

  lemma RunFromInitial(actions: seq<Action>)
    ensures Inv(Run(INITIAL, actions))
  {
    RunKeepsInv(INITIAL, actions);
  }

  lemma {:induction false} RunKeepsInv(s: Sys, actions: seq<Action>)
    requires Inv(s)
    ensures Inv(Run(s, actions)) && s.jobs.Keys <= Run(s, actions).jobs.Keys
  {
    hide Inv, Step;
    if actions == [] {
    } else {
      RunKeepsInv(s, actions[..|actions| - 1]);
      StepKeepsInv(Run(s, actions[..|actions| - 1]), actions[|actions| - 1]);
    }
  }

  // ---------------------------------------------------------------- single steps

  /** A cancel request in any reachable state: a job that is unknown or stopped is left alone; any
      other is canceling, and its future has completed, as cancelled unless it had completed before.
      Nothing else changes, and the callback then makes a job that was still running canceled. */
  lemma CancelIsRequested(actions: seq<Action>, id: JobId)
    ensures Run(INITIAL, actions).registered <= Run(INITIAL, actions).jobs.Keys
    ensures var s := Run(INITIAL, actions);
      var t := Step(s, Cancel(id));
      if id !in s.registered then t == s else
        var j := s.jobs[id];
        if j.state == Done || j.state == Failed || j.state == Canceled then t == s else
          && id in t.jobs
          && t == s.(jobs := s.jobs[id := t.jobs[id]])
          && t.jobs[id] == j.(state := Canceling, outcome := t.jobs[id].outcome)
          && t.jobs[id].outcome == (if j.outcome.None? then Some(Cancelled) else j.outcome)
          && (j.outcome.None? ==>
                Step(t, Callback(id)).jobs[id] ==
                  j.(state := Canceled, outcome := Some(Cancelled), doneAt := Some(s.now), called := true))
  {
    hide Run;
    RunFromInitial(actions);
    var s := Run(INITIAL, actions);
    if id in s.registered {
      assert JobOk(s.jobs[id], s.now);
    }
  }

  /** The callback of a completed future stamps the job with the time and its future's outcome. */
  lemma CallbackFinishes(s: Sys, id: JobId)
    requires id in s.jobs && s.jobs[id].outcome.Some? && !s.jobs[id].called
    ensures var t := Step(s, Callback(id));
      var j := s.jobs[id];
      && id in t.jobs && t == s.(jobs := s.jobs[id := t.jobs[id]])
      && t.jobs[id] == j.(state := t.jobs[id].state, doneAt := Some(s.now), called := true)
      && (t.jobs[id].state == Done <==> j.outcome == Some(Returned))
      && (t.jobs[id].state == Failed <==> j.outcome == Some(Raised))
      && (t.jobs[id].state == Canceled <==> j.outcome == Some(Cancelled))
  {
  }

  /** A job that is started is waiting, registered and created now; nothing else changes. */
  lemma StartedIsWaiting(s: Sys, id: JobId, requested: Option<int>, configured: int)
    requires id !in s.jobs
    ensures var t := Step(s, Start(id, requested, configured));
      && t.jobs == s.jobs[id := Job(Waiting, None, s.now, None, None, false)]
      && t.registered == s.registered + {id}
      && t.workers.Keys == s.workers.Keys + {id} && (forall k :: k in s.workers && k != id ==> t.workers[k] == s.workers[k])
      && t.workers[id].phase == Pending && !t.workers[id].picked && t.workers[id].reports == 0
      && t.workers[id].requested == requested
      && t.workers[id].budget == (match requested case Some(n) => n case None => configured)
      && t.queue == s.queue && t.taken == s.taken && t.now == s.now
  {
  }

  /** What workers put on the queue: that they have started, without progress; before training, that
      nothing was evaluated yet, with the max_evals requested; and after each evaluation how many
      there were, with the max_evals training goes by. */
  lemma WorkersSend(s: Sys, id: JobId)
    requires id in s.jobs && id in s.workers
    ensures var t := Step(s, Pickup(id));
      s.workers[id].phase == Pending && s.jobs[id].outcome.None? ==>
        && t == s.(queue := s.queue + [Message(id, None)], workers := s.workers[id := t.workers[id]])
        && t.workers[id].phase == Active
    ensures var t := Step(s, Report(id));
      var w := s.workers[id];
      w.phase == Active && (w.reports == 0 || w.budget > 0) ==>
        && t.workers == s.workers[id := w.(reports := w.reports + 1)]
        && t == s.(queue := t.queue, workers := t.workers)
        && t.queue == s.queue + [Message(id, Some(Progress(w.reports, if w.reports == 0 then w.requested else Some(w.budget))))]
  {
  }

  // ---------------------------------------------------------------- absorbing states

  /** done and failed are final: nothing changes such a job any more. */
  lemma {:induction false} DoneAndFailedAreFinal(s: Sys, actions: seq<Action>, id: JobId)
    requires Inv(s) && id in s.jobs && (s.jobs[id].state == Done || s.jobs[id].state == Failed)
    ensures id in Run(s, actions).jobs && Run(s, actions).jobs[id] == s.jobs[id]
  {
    if actions == [] {
    } else {
      var before := actions[..|actions| - 1];
      DoneAndFailedAreFinal(s, before, id);
      RunKeepsInv(s, before);
      FinalStep(Run(s, before), actions[|actions| - 1], id);
    }
  }

  lemma FinalStep(s: Sys, a: Action, id: JobId)
    requires Inv(s) && id in s.jobs && (s.jobs[id].state == Done || s.jobs[id].state == Failed)
    ensures id in Step(s, a).jobs && Step(s, a).jobs[id] == s.jobs[id]
  {
    assert JobOk(s.jobs[id], s.now);
  }

  /** The expiry sweep drops a job exactly when it is stopped and its time is up; then its future
      has completed. */
  lemma SweepDropsExpired(s: Sys, ttl: int, id: JobId)
    requires Inv(s) && id in s.registered
    ensures var j := s.jobs[id];
      && (id !in Step(s, Sweep(ttl)).registered <==> IsStopped(j) && j.doneAt.Some? && s.now - j.doneAt.value > ttl)
      && (id !in Step(s, Sweep(ttl)).registered ==> j.called && j.outcome.Some?)
  {
    assert JobOk(s.jobs[id], s.now);
  }

  // ---------------------------------------------------------------- canceled jobs

  /** The step delivers a message to a job that is still registered. */
  ghost predicate Delivers(s: Sys, a: Action, id: JobId) {
    a.Deliver? && s.queue != [] && s.queue[0].id == id && id in s.registered
  }

  ghost predicate DeliversTo(s: Sys, actions: seq<Action>, id: JobId) {
    exists k :: 0 <= k < |actions| && Delivers(Run(s, actions[..k]), actions[k], id)
  }

  lemma CanceledStep(s: Sys, a: Action, id: JobId)
    requires Inv(s) && id in s.jobs && s.jobs[id].state == Canceled
    ensures id in Step(s, a).jobs
    ensures if Delivers(s, a, id) then Step(s, a).jobs[id].state == Running
      else Step(s, a).jobs[id] == s.jobs[id]
  {
    assert JobOk(s.jobs[id], s.now);
  }

  /** A job whose callback has run without leaving it stopped: canceled, then put back. */
  ghost predicate Resurrected(j: Job) {
    j.called && !IsStopped(j)
  }

  lemma ResurrectedStep(s: Sys, a: Action, id: JobId)
    requires Inv(s) && id in s.jobs && Resurrected(s.jobs[id])
    ensures id in Step(s, a).jobs && Resurrected(Step(s, a).jobs[id])
    ensures id in s.registered ==> id in Step(s, a).registered
  {
    assert JobOk(s.jobs[id], s.now);
  }

  /** Once put back it never stops again, whatever happens: it can be asked to cancel, but no
      callback is left to finish it, and the sweep keeps it forever. */
  lemma {:induction false} ResurrectedNeverStops(s: Sys, actions: seq<Action>, id: JobId)
    requires Inv(s) && id in s.jobs && Resurrected(s.jobs[id])
    ensures id in Run(s, actions).jobs && Resurrected(Run(s, actions).jobs[id])
    ensures id in s.registered ==> id in Run(s, actions).registered
  {
    if actions == [] {
    } else {
      var before := actions[..|actions| - 1];
      ResurrectedNeverStops(s, before, id);
      RunKeepsInv(s, before);
      ResurrectedStep(Run(s, before), actions[|actions| - 1], id);
    }
  }

  /** What has become of canceled job j. */
  ghost predicate KeptOrResurrected(s: Sys, id: JobId, j: Job, delivered: bool) {
    id in s.jobs && if delivered then Resurrected(s.jobs[id]) else s.jobs[id] == j
  }

  lemma CanceledNext(s: Sys, a: Action, id: JobId, j: Job, delivered: bool)
    requires Inv(s) && j.state == Canceled && KeptOrResurrected(s, id, j, delivered)
    ensures KeptOrResurrected(Step(s, a), id, j, delivered || Delivers(s, a, id))
  {
    assert JobOk(s.jobs[id], s.now);
    if delivered {
      ResurrectedStep(s, a, id);
    } else {
      CanceledStep(s, a, id);
    }
  }

  lemma {:induction false} CanceledRun(s: Sys, actions: seq<Action>, id: JobId)
    requires Inv(s) && id in s.jobs && s.jobs[id].state == Canceled
    ensures KeptOrResurrected(Run(s, actions), id, s.jobs[id], DeliversTo(s, actions, id))
  {
    hide Inv, Step, Delivers;
    if actions == [] {
    } else {
      var n := |actions| - 1;
      var t := Run(s, actions[..n]);
      CanceledRun(s, actions[..n], id);
      RunKeepsInv(s, actions[..n]);
      DeliversNext(s, actions, id);
      CanceledNext(t, actions[n], id, s.jobs[id], DeliversTo(s, actions[..n], id));
    }
  }

  /** A canceled job stays canceled exactly as long as no message for it is delivered while it is
      registered; until then it does not change at all, and after that it never stops again. */
  lemma CanceledUntilDelivery(s: Sys, actions: seq<Action>, id: JobId)
    requires Inv(s) && id in s.jobs && s.jobs[id].state == Canceled
    ensures id in Run(s, actions).jobs
    ensures Run(s, actions).jobs[id].state == Canceled <==> !DeliversTo(s, actions, id)
    ensures !DeliversTo(s, actions, id) ==> Run(s, actions).jobs[id] == s.jobs[id]
    ensures DeliversTo(s, actions, id) ==> Resurrected(Run(s, actions).jobs[id])
  {
    CanceledRun(s, actions, id);
  }

  lemma DeliversNext(s: Sys, actions: seq<Action>, id: JobId)
    requires actions != []
    ensures var n := |actions| - 1;
      DeliversTo(s, actions, id) <==> DeliversTo(s, actions[..n], id) || Delivers(Run(s, actions[..n]), actions[n], id)
  {
    hide Run, Delivers;
    var n := |actions| - 1;
    if DeliversTo(s, actions[..n], id) {
      var k :| 0 <= k < n && Delivers(Run(s, actions[..n][..k]), actions[..n][k], id);
      assert actions[..n][..k] == actions[..k];
    }
    if DeliversTo(s, actions, id) {
      var k :| 0 <= k <= n && Delivers(Run(s, actions[..k]), actions[k], id);
      if k < n {
        assert actions[..n][..k] == actions[..k] && actions[..n][k] == actions[k];
      }
    }
    if Delivers(Run(s, actions[..n]), actions[n], id) {
      assert DeliversTo(s, actions, id);
    }
  }

  /** No message for the job is queued, and its worker can send none. */
  ghost predicate Quiet(s: Sys, id: JobId) {
    && (forall k :: 0 <= k < |s.queue| ==> s.queue[k].id != id)
    && id in s.workers && id in s.jobs && s.jobs[id].outcome.Some? && !CanReport(s.workers[id])
  }

  lemma QuietStep(s: Sys, a: Action, id: JobId)
    requires Inv(s) && Quiet(s, id)
    ensures Quiet(Step(s, a), id) && !Delivers(s, a, id)
  {
  }

  lemma {:induction false} QuietRun(s: Sys, actions: seq<Action>, id: JobId)
    requires Inv(s) && Quiet(s, id)
    ensures Quiet(Run(s, actions), id) && !DeliversTo(s, actions, id)
  {
    if actions == [] {
    } else {
      QuietRun(s, actions[..|actions| - 1], id);
      RunKeepsInv(s, actions[..|actions| - 1]);
      QuietStep(Run(s, actions[..|actions| - 1]), actions[|actions| - 1], id);
      DeliversNext(s, actions, id);
    }
  }

  lemma {:induction false} RunConcat(s: Sys, a: seq<Action>, b: seq<Action>)
    ensures Run(s, a + b) == Run(Run(s, a), b)
  {
    hide Step;
    if b == [] {
      assert a + b == a;
    } else {
      assert (a + b)[..|a + b| - 1] == a + b[..|b| - 1];
      RunConcat(s, a, b[..|b| - 1]);
    }
  }

  function Deliveries(n: nat): seq<Action> {
    seq(n, _ => Deliver)
  }

  lemma {:induction false} RunDeliveries(s: Sys, n: nat)
    requires n <= |s.queue|
    ensures var t := Run(s, Deliveries(n)); t.queue == s.queue[n..] && t.registered == s.registered
  {
    if n == 0 {
    } else {
      RunDeliveries(s, n - 1);
      assert Deliveries(n)[..n - 1] == Deliveries(n - 1);
    }
  }

  /** Reading the queue up to a message for the job delivers it. */
  lemma DrainingDelivers(s: Sys, id: JobId, k: nat)
    requires id in s.registered && k < |s.queue| && s.queue[k].id == id
    ensures DeliversTo(s, Deliveries(k + 1), id)
  {
    var actions := Deliveries(k + 1);
    assert actions[..k] == Deliveries(k) && actions[k] == Deliver;
    RunDeliveries(s, k);
    assert Delivers(Run(s, actions[..k]), actions[k], id);
  }

  /** Unless everything is quiet, some run brings the canceled job back. */
  lemma BroughtBack(s: Sys, id: JobId)
    requires Inv(s) && id in s.registered && s.jobs[id].state == Canceled && !Quiet(s, id)
    ensures exists actions :: id in Run(s, actions).jobs && Resurrected(Run(s, actions).jobs[id])
  {
    hide Run, DeliversTo, Resurrected;
    assert JobOk(s.jobs[id], s.now);
    if exists k :: 0 <= k < |s.queue| && s.queue[k].id == id {
      var k :| 0 <= k < |s.queue| && s.queue[k].id == id;
      DrainingDelivers(s, id, k);
      CanceledUntilDelivery(s, Deliveries(k + 1), id);
    } else {
      var t, n := Step(s, Report(id)), |s.queue|;
      StepKeepsInv(s, Report(id));
      DrainingDelivers(t, id, n);
      CanceledUntilDelivery(t, Deliveries(n + 1), id);
      RunOne(s, Report(id));
      RunConcat(s, [Report(id)], Deliveries(n + 1));
    }
  }

  /** A canceled job that is registered stays as it is forever, whatever happens, if and only if no
      message for it is queued and its worker can send none. */
  lemma CanceledForeverIffQuiet(s: Sys, id: JobId)
    requires Inv(s) && id in s.registered && s.jobs[id].state == Canceled
    ensures (forall actions :: id in Run(s, actions).jobs && Run(s, actions).jobs[id] == s.jobs[id]) <==> Quiet(s, id)
  {
    hide Quiet, Run;
    if Quiet(s, id) {
      forall actions
        ensures id in Run(s, actions).jobs && Run(s, actions).jobs[id] == s.jobs[id]
      {
        QuietRun(s, actions, id);
        CanceledUntilDelivery(s, actions, id);
      }
    } else {
      BroughtBack(s, id);
    }
  }

  const COMEBACK := [Start(0, None, 21)] + [Pickup(0)] + [Cancel(0)] + [Callback(0)] + [Kill(0)]

  /** A system with one job. */
  function OneJob(j: Job, w: Worker, queue: seq<Message>): Sys {
    Sys(map[0 := j], {0}, map[0 := w], queue, [], 0)
  }

  /** The end of the comeback run: canceled, its worker gone, its first message still queued. */
  const BEFORE_COMEBACK := OneJob(
    Job(Canceled, None, 0, Some(0), Some(Cancelled), true), Worker(Stopped, true, 0, None, 21), [Message(0, None)])

  lemma ComebackSteps()
    ensures var waiting := Job(Waiting, None, 0, None, None, false);
      var active := Worker(Active, true, 0, None, 21);
      var canceling := waiting.(state := Canceling, outcome := Some(Cancelled));
      var s1 := OneJob(waiting, Worker(Pending, false, 0, None, 21), []);
      var s2 := OneJob(waiting, active, [Message(0, None)]);
      var s3 := OneJob(canceling, active, [Message(0, None)]);
      var s4 := OneJob(BEFORE_COMEBACK.jobs[0], active, [Message(0, None)]);
      && Step(INITIAL, Start(0, None, 21)) == s1 && Step(s1, Pickup(0)) == s2 && Step(s2, Cancel(0)) == s3
      && Step(s3, Callback(0)) == s4 && Step(s4, Kill(0)) == BEFORE_COMEBACK
  {
  }

  lemma ComebackRun()
    ensures Run(INITIAL, COMEBACK) == BEFORE_COMEBACK
  {
    hide Run, Step, OneJob;
    var a1 := [Start(0, None, 21)];
    var a2 := a1 + [Pickup(0)];
    var a3 := a2 + [Cancel(0)];
    var a4 := a3 + [Callback(0)];
    ComebackSteps();
    RunOne(INITIAL, Start(0, None, 21));
    RunLast(INITIAL, a1, Pickup(0));
    RunLast(INITIAL, a2, Cancel(0));
    RunLast(INITIAL, a3, Callback(0));
    RunLast(INITIAL, a4, Kill(0));
  }

  lemma RunOne(s: Sys, a: Action)
    ensures Run(s, [a]) == Step(s, a)
  {
    assert [a][..0] == [];
  }

  /** The hypothesis is needed: a message sent before the job is canceled, and delivered after,
      puts it back to running for good, its completion time and its worker's end notwithstanding. */
  lemma CanceledCanComeBack()
    ensures exists actions :: var s := Run(INITIAL, actions);
      && 0 in s.jobs && s.jobs[0].state == Canceled
      && 0 in s.workers && s.workers[0].phase == Stopped
      && Resurrected(Step(s, Deliver).jobs[0]) && Step(s, Deliver).jobs[0].doneAt.Some?
  {
    ComebackRun();
    assert BEFORE_COMEBACK.jobs[0].state == Canceled;
    assert Resurrected(Step(BEFORE_COMEBACK, Deliver).jobs[0]);
    assert Run(INITIAL, COMEBACK) == BEFORE_COMEBACK;
  }

  lemma RunLast(s: Sys, actions: seq<Action>, a: Action)
    ensures Run(s, actions + [a]) == Step(Run(s, actions), a)
  {
    assert (actions + [a])[..|actions|] == actions;
  }

  // ---------------------------------------------------------------- progress

  /** What a worker has sent: a message without progress, then its reports from 0 on. */
  ghost function Emitted(w: Worker): seq<Option<Progress>> {
    if !w.picked then [] else [None] + seq(w.reports, k requires 0 <= k => Some(ReportAt(w, k)))
  }

  /** The messages for one job. */
  ghost function OfJob(ms: seq<Message>, id: JobId): seq<Option<Progress>> {
    if ms == [] then [] else
      OfJob(ms[..|ms| - 1], id) + if ms[|ms| - 1].id == id then [ms[|ms| - 1].progress] else []
  }

  lemma {:induction false} OfJobConcat(a: seq<Message>, b: seq<Message>, id: JobId)
    ensures OfJob(a + b, id) == OfJob(a, id) + OfJob(b, id)
  {
    if b == [] {
      assert a + b == a;
    } else {
      assert (a + b)[..|a + b| - 1] == a + b[..|b| - 1];
      OfJobConcat(a, b[..|b| - 1], id);
    }
  }

  lemma OfJobAppend(ms: seq<Message>, m: Message, id: JobId)
    ensures OfJob(ms + [m], id) == OfJob(ms, id) + if m.id == id then [m.progress] else []
  {
    assert (ms + [m])[..|ms|] == ms;
  }

  /** First in, first out: for each job the messages read, then those queued, are what its worker
      has sent. */
  ghost predicate Fifo(s: Sys, id: JobId) {
    if id in s.workers then
      var w := s.workers[id];
      && OfJob(s.taken, id) + OfJob(s.queue, id) == Emitted(w)
      && (w.phase.Active? ==> w.picked) && (w.phase.Pending? ==> !w.picked)
      && (!w.picked ==> w.reports == 0)
    else OfJob(s.taken, id) + OfJob(s.queue, id) == []
  }

  /** The progress shown by a job is below the next report to be read. */
  ghost predicate Lagging(s: Sys, id: JobId) {
    id in s.jobs && s.jobs[id].progress.Some? ==> s.jobs[id].progress.value.eval + 2 <= |OfJob(s.taken, id)|
  }

  lemma SendingKeepsFifo(s: Sys, id: JobId, m: Message, w: Worker)
    requires Fifo(s, id) && id in s.workers && m.id == id
    requires var v := s.workers[id];
      || (v.phase.Pending? && w == v.(phase := Active, picked := true) && m.progress == None)
      || (v.phase.Active? && w == v.(reports := v.reports + 1) && m.progress == Some(ReportAt(v, v.reports)))
    ensures Fifo(s.(queue := s.queue + [m], workers := s.workers[id := w]), id)
  {
    OfJobAppend(s.queue, m, id);
    assert Emitted(w) == Emitted(s.workers[id]) + [m.progress];
  }

  lemma DeliverTakesNext(s: Sys, id: JobId)
    requires s.queue != []
    ensures var m := s.queue[0];
      && OfJob(s.taken, id) + OfJob(s.queue, id) == OfJob(s.taken + [m], id) + OfJob(s.queue[1..], id)
      && (m.id == id ==> OfJob(s.taken + [m], id) == OfJob(s.taken, id) + [m.progress])
      && (m.id != id ==> OfJob(s.taken + [m], id) == OfJob(s.taken, id))
  {
    var m := s.queue[0];
    assert s.queue == [m] + s.queue[1..];
    OfJobAppend(s.taken, m, id);
    OfJobConcat([m], s.queue[1..], id);
    OfJobAppend([], m, id);
    assert [] + [m] == [m];
  }

  lemma StepKeepsFifo(s: Sys, a: Action, id: JobId)
    requires Inv(s) && Fifo(s, id)
    ensures Fifo(Step(s, a), id)
  {
    hide OfJob, JobOk;
    match a {
      case Pickup(i) =>
        OfJobAppend(s.queue, Message(i, None), id);
        if id in s.workers && i == id && Step(s, a) != s {
          SendingKeepsFifo(s, id, Message(id, None), Step(s, a).workers[id]);
        }
      case Report(i) =>
        if Step(s, a) != s {
          OfJobAppend(s.queue, Message(i, Some(ReportAt(s.workers[i], s.workers[i].reports))), id);
          if i == id {
            SendingKeepsFifo(s, id, Message(id, Some(ReportAt(s.workers[id], s.workers[id].reports))), Step(s, a).workers[id]);
          }
        }
      case Deliver =>
        if s.queue != [] {
          DeliverTakesNext(s, id);
        }
      case _ =>
    }
  }

  /** The next message for a job that shows progress is a later report. */
  lemma NextReport(s: Sys, id: JobId)
    requires Fifo(s, id) && s.queue != [] && s.queue[0].id == id
    ensures var n := |OfJob(s.taken, id)|;
      s.queue[0].progress == if n == 0 then None else Some(ReportAt(s.workers[id], n - 1))
    ensures id in s.workers
  {
    DeliverTakesNext(s, id);
    var n := |OfJob(s.taken, id)|;
    assert (OfJob(s.taken, id) + OfJob(s.queue, id))[n] == s.queue[0].progress;
  }

  lemma StepKeepsLagging(s: Sys, a: Action, id: JobId)
    requires Inv(s) && Fifo(s, id) && Lagging(s, id)
    ensures Lagging(Step(s, a), id)
    ensures id in s.jobs && s.jobs[id].progress.Some? ==>
      var p := Step(s, a).jobs[id].progress; p.Some? && p.value.eval >= s.jobs[id].progress.value.eval
  {
    hide OfJob, JobOk, Fifo;
    if a.Deliver? && s.queue != [] {
      DeliverTakesNext(s, id);
      if s.queue[0].id == id {
        NextReport(s, id);
      }
    }
  }

  lemma {:induction false} RunKeepsFifo(actions: seq<Action>, id: JobId)
    ensures Fifo(Run(INITIAL, actions), id) && Lagging(Run(INITIAL, actions), id)
  {
    hide Inv, Step, Fifo, Lagging;
    if actions == [] {
      InitialFifo(id);
    } else {
      var before := Run(INITIAL, actions[..|actions| - 1]);
      RunKeepsFifo(actions[..|actions| - 1], id);
      RunFromInitial(actions[..|actions| - 1]);
      StepKeepsFifo(before, actions[|actions| - 1], id);
      StepKeepsLagging(before, actions[|actions| - 1], id);
    }
  }

  lemma InitialFifo(id: JobId)
    ensures Fifo(INITIAL, id) && Lagging(INITIAL, id)
  {
  }

  ghost function LastOf(messages: seq<Option<Progress>>): Option<Progress> {
    if messages == [] then None else messages[|messages| - 1]
  }

  /** A job that is not done or failed shows what the last message read for it says, and is running
      or asked to stop, or was canceled, once there was one. */
  ghost predicate ShowsLastRead(s: Sys, id: JobId) {
    id in s.registered && id in s.jobs && s.jobs[id].state != Done && s.jobs[id].state != Failed ==>
      && s.jobs[id].progress == LastOf(OfJob(s.taken, id))
      && (OfJob(s.taken, id) != [] ==> s.jobs[id].state != Waiting)
  }

  lemma DeliveryShowsLastRead(s: Sys, id: JobId)
    requires s.queue != [] && ShowsLastRead(s, id)
    ensures ShowsLastRead(Step(s, Deliver), id)
  {
    hide OfJob;
    DeliverTakesNext(s, id);
  }

  /** Steps other than reading leave what was read alone, and the progress of every job; they make
      no job waiting but the one they start. */
  lemma OtherStepsKeepProgress(s: Sys, a: Action, id: JobId)
    requires Inv(s) && !a.Deliver? && id in s.jobs
    ensures var t := Step(s, a);
      && t.taken == s.taken && (id in t.registered ==> id in s.registered)
      && id in t.jobs && t.jobs[id].progress == s.jobs[id].progress
      && (t.jobs[id].state == Waiting ==> s.jobs[id].state == Waiting)
      && ((s.jobs[id].state == Done || s.jobs[id].state == Failed) ==> t.jobs[id].state == s.jobs[id].state)
  {
    assert JobOk(s.jobs[id], s.now);
  }

  lemma StepShowsLastRead(s: Sys, a: Action, id: JobId)
    requires Inv(s) && Fifo(s, id) && ShowsLastRead(s, id)
    ensures ShowsLastRead(Step(s, a), id)
  {
    hide OfJob, JobOk, Fifo;
    if a.Deliver? {
      if s.queue != [] {
        DeliveryShowsLastRead(s, id);
      }
    } else if id in s.jobs {
      hide Step;
      OtherStepsKeepProgress(s, a, id);
    } else {
      NothingSent(s, id);
    }
  }

  lemma NothingSent(s: Sys, id: JobId)
    requires Fifo(s, id)
    ensures id !in s.workers ==> OfJob(s.taken, id) == []
  {
  }

  /** In every run, what is shown is the last message read. */
  lemma {:induction false} ShownIsLastRead(actions: seq<Action>, id: JobId)
    ensures ShowsLastRead(Run(INITIAL, actions), id)
  {
    hide Inv, Step, Fifo, Lagging, ShowsLastRead;
    if actions == [] {
      NothingShown(id);
    } else {
      ShownIsLastRead(actions[..|actions| - 1], id);
      RunKeepsFifo(actions[..|actions| - 1], id);
      RunFromInitial(actions[..|actions| - 1]);
      StepShowsLastRead(Run(INITIAL, actions[..|actions| - 1]), actions[|actions| - 1], id);
    }
  }

  lemma NothingShown(id: JobId)
    ensures ShowsLastRead(INITIAL, id)
  {
  }

  /** Reading the next message for a registered job that is not done or failed shows what it says
      and makes the job running; a done or failed one is left alone; no other job changes. */
  lemma DeliveredIsShown(s: Sys)
    requires s.queue != []
    ensures var m := s.queue[0];
      var t := Step(s, Deliver);
      && t.queue == s.queue[1..] && t.taken == s.taken + [m] && t.registered == s.registered
      && t.workers == s.workers && t.now == s.now
      && if m.id in s.registered && m.id in s.jobs && s.jobs[m.id].state != Done && s.jobs[m.id].state != Failed
         then t.jobs == s.jobs[m.id := s.jobs[m.id].(state := Running, progress := m.progress)]
         else t.jobs == s.jobs
  {
    var m := s.queue[0];
    assert m.id in s.jobs ==> s.jobs[m.id := s.jobs[m.id]] == s.jobs;
  }

  /** The progress a job shows never goes back, in any run and whatever the next step is. */
  lemma ProgressNeverDecreases(actions: seq<Action>, a: Action, id: JobId)
    requires id in Run(INITIAL, actions).jobs
    ensures var s := Run(INITIAL, actions);
      var p, p' := s.jobs[id].progress, Step(s, a).jobs[id].progress;
      id in Step(s, a).jobs && (p.Some? ==> p'.Some? && p'.value.eval >= p.value.eval)
  {
    RunFromInitial(actions);
    RunKeepsFifo(actions, id);
    StepKeepsInv(Run(INITIAL, actions), a);
    StepKeepsLagging(Run(INITIAL, actions), a, id);
  }

  // ---------------------------------------------------------------- the description of a job

  function Duration(j: Job, now: int): int {
    (if j.doneAt.Some? then j.doneAt.value else now) - j.createdAt
  }

  function DoneRatio(p: Progress): real {
    var most := if p.maxEvals.None? || p.maxEvals.value == 0 then 1.0 else p.maxEvals.value as real;
    var ratio := p.eval as real / most;
    if ratio > 1.0 then 1.0 else ratio
  }

  /** The remaining time of desc, if it has one. */
  function RemainingTime(j: Job, now: int): Option<real> {
    if j.progress.None? || DoneRatio(j.progress.value) == 0.0 then None
    else Some(Duration(j, now) as real * (1.0 - DoneRatio(j.progress.value)))
  }

  /** A report of evaluations comes with the budget they were made for. */
  ghost predicate Budgeted(p: Option<Progress>) {
    p.Some? && p.value.eval > 0 ==> p.value.maxEvals.Some? && p.value.maxEvals.value > 0
  }

  ghost predicate AllBudgeted(s: Sys) {
    && (forall id :: id in s.jobs ==> Budgeted(s.jobs[id].progress))
    && (forall k :: 0 <= k < |s.queue| ==> Budgeted(s.queue[k].progress))
  }

  lemma StepKeepsBudgets(s: Sys, a: Action)
    requires AllBudgeted(s)
    ensures AllBudgeted(Step(s, a))
  {
    assert Budgeted(None);
    hide Budgeted;
    if a.Report? && a.id in s.workers && CanReport(s.workers[a.id]) {
      ReportIsBudgeted(s.workers[a.id]);
    }
  }

  lemma ReportIsBudgeted(w: Worker)
    requires CanReport(w)
    ensures Budgeted(Some(ReportAt(w, w.reports)))
  {
  }

  lemma {:induction false} RunKeepsBudgets(actions: seq<Action>)
    ensures AllBudgeted(Run(INITIAL, actions))
  {
    hide Step;
    if actions == [] {
    } else {
      RunKeepsBudgets(actions[..|actions| - 1]);
      StepKeepsBudgets(Run(INITIAL, actions[..|actions| - 1]), actions[|actions| - 1]);
    }
  }

  /** In every run a job shows a remaining time as soon as something was evaluated, and it is between
      zero and the time elapsed, also when more was evaluated than announced: the part of the time
      elapsed that is left to evaluate, zero from the last announced evaluation on. */
  lemma RemainingTimeInRange(actions: seq<Action>, id: JobId)
    requires id in Run(INITIAL, actions).jobs
    ensures var s := Run(INITIAL, actions);
      var j := s.jobs[id];
      var d, remaining := (match j.doneAt case Some(t) => t case None => s.now) - j.createdAt, RemainingTime(j, s.now);
      && (remaining.Some? <==> j.progress.Some? && j.progress.value.eval > 0)
      && (remaining.Some? ==>
            && 0.0 <= remaining.value <= d as real
            && j.progress.value.maxEvals.Some?
            && var done, most := j.progress.value.eval, j.progress.value.maxEvals.value;
               if done >= most then remaining.value == 0.0
               else remaining.value * most as real == d as real * (most - done) as real)
  {
    hide Run;
    var s := Run(INITIAL, actions);
    RunFromInitial(actions);
    RunKeepsBudgets(actions);
    assert JobOk(s.jobs[id], s.now) && Budgeted(s.jobs[id].progress);
    RemainingTimeOfJob(s.jobs[id], s.now);
  }

  lemma RemainingTimeOfJob(j: Job, now: int)
    requires JobOk(j, now) && Budgeted(j.progress)
    ensures var d, remaining := Duration(j, now), RemainingTime(j, now);
      && (remaining.Some? <==> j.progress.Some? && j.progress.value.eval > 0)
      && (remaining.Some? ==>
            && 0.0 <= remaining.value <= d as real
            && var done, most := j.progress.value.eval, j.progress.value.maxEvals.value;
               if done >= most then remaining.value == 0.0
               else remaining.value * most as real == d as real * (most - done) as real)
  {
    if j.progress.Some? {
      var p, d := j.progress.value, Duration(j, now) as real;
      var most := if p.maxEvals.None? || p.maxEvals.value == 0 then 1.0 else p.maxEvals.value as real;
      QuotientSign(p.eval as real, most);
      if p.eval > 0 {
        ProductBounds(d, 1.0 - DoneRatio(p));
        RestOfQuotient(d, p.eval as real, most);
      }
    }
  }

  lemma QuotientSign(a: real, b: real)
    requires a >= 0.0 && b != 0.0
    ensures a / b == 0.0 <==> a == 0.0
    ensures b > 0.0 ==> a / b >= 0.0 && (a / b >= 1.0 <==> a >= b)
  {
    var q := a / b;
    assert q * b == a;
    if b > 0.0 {
      ProductOrder(q, b);
    }
  }

  lemma ProductOrder(q: real, b: real)
    requires b > 0.0
    ensures q * b >= 0.0 ==> q >= 0.0
    ensures q >= 1.0 <==> q * b >= b
  {
    assert q < 0.0 ==> (-q) * b > 0.0;
    if q >= 1.0 {
      ProductIsNonnegative(q - 1.0, b);
    } else {
      var p := (1.0 - q) * b;
      assert p > 0.0;
      assert p == b - q * b;
    }
  }

  lemma ProductIsNonnegative(x: real, y: real)
    requires x >= 0.0 && y >= 0.0
    ensures x * y >= 0.0
  {
  }

  lemma RestOfQuotient(d: real, done: real, most: real)
    requires most > 0.0
    ensures d * (1.0 - done / most) * most == d * (most - done)
  {
    var q := done / most;
    assert q * most == done;
    assert (1.0 - q) * most == most - done;
    assert d * (1.0 - q) * most == d * ((1.0 - q) * most);
  }

  lemma ProductBounds(d: real, f: real)
    requires d >= 0.0 && 0.0 <= f <= 1.0
    ensures 0.0 <= d * f <= d && (d * f == 0.0 <==> d == 0.0 || f == 0.0)
  {
    assert d * f - d == d * (f - 1.0);
    assert d > 0.0 && f > 0.0 ==> d * f > 0.0;
  }
}
