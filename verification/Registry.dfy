/**
 * The service's registry of jobs and workers: its operations one at a time, and what a whole
 * run of them leaves registered.
 */
module Registry {
  import Handshake
  import opened Results

  type Id = string

  datatype WorkerState = RUNNING | STOPPED

  /** A worker, and whether it has a process. */
  datatype WorkerEntry = WorkerEntry(jobId: Id, state: WorkerState, hasProcess: bool)

  /** Running, as far as the service knows, but without a process: its launch threw. */
  predicate Stillborn(e: WorkerEntry) {
    e.state == RUNNING && !e.hasProcess
  }

  /** No process could be launched, or it was, and wrote a text until it said it runs or ended. */
  datatype Start = NoLaunch | Wrote(text: string)

  predicate Succeeds(start: Start) {
    start.Wrote? && Handshake.Shake(start.text, 0, map[]).Running?
  }

  datatype JobEntry = JobEntry(name: string, description: string)

  datatype Tables = Tables(workers: map<Id, WorkerEntry>, jobs: map<Id, JobEntry>)

  /** The operations of the manager; what the outside decides is part of them. */
  datatype Op =
    | CreateWorker(worker: Id, jobId: Id, start: Start)
    | DeleteWorker(worker: Id)
    | GetWorkers
    | CreateJob(job: Id, entry: JobEntry)
    | GetJobs
    | GetJob(job: Id)
    | DeleteJob(job: Id)
    | Poll(gone: set<Id>)
    | Stop

  datatype Reply = Done | Unknown | StartFailed | Crashed | Workers(workers: map<Id, WorkerEntry>) | Jobs(jobs: map<Id, JobEntry>)
                 | JobWorkers(entry: JobEntry, listed: map<Id, WorkerEntry>)

  /** The workers that carry the job's id. */
  function Of(workers: map<Id, WorkerEntry>, job: Id): map<Id, WorkerEntry> {
    map w | w in workers && workers[w].jobId == job :: workers[w]
  }

  function Without(workers: map<Id, WorkerEntry>, job: Id): map<Id, WorkerEntry> {
    map w | w in workers && workers[w].jobId != job :: workers[w]
  }

  function Polled(e: WorkerEntry, gone: bool): WorkerEntry {
    if e.state == RUNNING && e.hasProcess && gone then e.(state := STOPPED, hasProcess := false) else e
  }

  /** The tables after an operation. A worker whose program does not start stays registered. */
  function Apply(t: Tables, op: Op): Tables {
    match op
    case CreateWorker(worker, jobId, start) =>
      t.(workers := t.workers[worker := WorkerEntry(jobId, RUNNING, start.Wrote?)])
    case DeleteWorker(worker) => t.(workers := t.workers - {worker})
    case CreateJob(job, entry) => t.(jobs := t.jobs[job := entry])
    case DeleteJob(job) => if job in t.jobs then Tables(Without(t.workers, job), t.jobs - {job}) else t
    case Poll(gone) => t.(workers := map w | w in t.workers :: Polled(t.workers[w], w in gone))
    case Stop => t.(workers := map[])
    case _ => t
  }

  function Answer(t: Tables, op: Op): Reply {
    match op
    case CreateWorker(_, _, start) => if Succeeds(start) then Done else StartFailed
    case DeleteWorker(worker) => if worker in t.workers then Done else Unknown
    case GetWorkers => Workers(t.workers)
    case GetJobs => Jobs(t.jobs)
    case GetJob(job) => if job in t.jobs then JobWorkers(t.jobs[job], Of(t.workers, job)) else Unknown
    case DeleteJob(job) => if job in t.jobs then Done else Unknown
    case Poll(_) => if exists w :: w in t.workers && Stillborn(t.workers[w]) then Crashed else Done
    case _ => Done
  }

  class Manager {
    var workers: map<Id, WorkerEntry>
    var jobs: map<Id, JobEntry>

    ghost function Model(): Tables
      reads this
    {
      Tables(workers, jobs)
    }

    constructor ()
      ensures Model() == Tables(map[], map[])
    {
      workers, jobs := map[], map[];
    }

    /** The worker is registered first, and stays so whether its program can be started or not. */
    method CreateWorkerOp(worker: Id, jobId: Id, start: Start) returns (r: Reply)
      modifies this
      ensures Model() == Apply(old(Model()), CreateWorker(worker, jobId, start))
      ensures r == Answer(old(Model()), CreateWorker(worker, jobId, start))
      ensures worker in workers && workers == old(workers)[worker := workers[worker]] && jobs == old(jobs)
      ensures workers[worker].jobId == jobId && workers[worker].state == RUNNING
      ensures workers[worker].hasProcess <==> start.Wrote?
      ensures r == Done <==> start.Wrote? && exists lines :: Handshake.Reports(start.text, lines)
      ensures r == Done || r == StartFailed
    {
      if start.Wrote? {
        Handshake.RunningExactly(start.text);
      }
      workers := workers[worker := WorkerEntry(jobId, RUNNING, false)];
      if start.NoLaunch? {
        return StartFailed;
      }
      workers := workers[worker := WorkerEntry(jobId, RUNNING, true)];
      var o := Handshake.RunProcess(start.text);
      r := if o.Running? then Done else StartFailed;
    }

    method DeleteWorkerOp(worker: Id) returns (r: Reply)
      modifies this
      ensures Model() == Apply(old(Model()), DeleteWorker(worker)) && r == Answer(old(Model()), DeleteWorker(worker))
      ensures worker !in workers && (forall w :: w in old(workers) && w != worker ==> w in workers)
      ensures r == if worker in old(workers) then Done else Unknown
    {
      if worker !in workers {
        assert workers - {worker} == workers;
        return Unknown;
      }
      workers := workers - {worker};
      r := Done;
    }

    method CreateJobOp(job: Id, entry: JobEntry) returns (r: Reply)
      modifies this
      ensures Model() == Apply(old(Model()), CreateJob(job, entry)) && r == Answer(old(Model()), CreateJob(job, entry))
      ensures job in jobs && jobs[job] == entry
      ensures forall j :: j in old(jobs) && j != job ==> j in jobs && jobs[j] == old(jobs)[j]
    {
      jobs := jobs[job := entry];
      r := Done;
    }

    /** One pass over the workers: erases the first that carries the job's id. */
    method ErasePass(job: Id) returns (changed: bool, ghost erased: Id)
      modifies this`workers
      ensures changed ==>
                && erased in old(workers) && old(workers)[erased].jobId == job
                && workers == old(workers) - {erased}
      ensures !changed ==> workers == old(workers) && forall w :: w in workers ==> workers[w].jobId != job
    {
      erased := "";
      var todo := workers.Keys;
      while todo != {}
        invariant todo <= workers.Keys && workers == old(workers)
        invariant forall w :: w in workers && w !in todo ==> workers[w].jobId != job
      {
        var w :| w in todo;
        if workers[w].jobId == job {
          workers := workers - {w};
          return true, w;
        }
        todo := todo - {w};
      }
      changed := false;
    }

    /** Passes until one changes nothing; then the job itself goes. */
    method DeleteJobOp(job: Id) returns (r: Reply)
      modifies this
      ensures Model() == Apply(old(Model()), DeleteJob(job)) && r == Answer(old(Model()), DeleteJob(job))
    {
      hide Without, Of;
      if job !in jobs {
        return Unknown;
      }
      var changed := true;
      while changed
        invariant jobs == old(jobs) && Without(workers, job) == Without(old(workers), job)
        invariant !changed ==> workers == Without(workers, job)
        decreases |workers|, changed
      {
        ghost var before, erased := workers, job;
        changed, erased := ErasePass(job);
        if changed {
          OneErased(before, job, erased);
        } else {
          NoneErased(workers, job);
        }
      }
      jobs := jobs - {job};
      r := Done;
    }

    method GetJobOp(job: Id) returns (r: Reply)
      ensures r == Answer(Model(), GetJob(job))
      ensures if job !in jobs then r == Unknown
              else
                && r.JobWorkers? && r.entry == jobs[job]
                && (forall w :: w in r.listed <==> w in workers && workers[w].jobId == job)
                && (forall w :: w in r.listed ==> r.listed[w] == workers[w])
    {
      if job !in jobs {
        return Unknown;
      }
      var listed: map<Id, WorkerEntry>, todo := map[], workers.Keys;
      while todo != {}
        invariant todo <= workers.Keys
        invariant listed == map w | w in workers && w !in todo && workers[w].jobId == job :: workers[w]
      {
        var w :| w in todo;
        if workers[w].jobId == job {
          listed := listed[w := workers[w]];
        }
        todo := todo - {w};
      }
      r := JobWorkers(jobs[job], listed);
    }

    /**
     * The background thread's look at every worker; `gone` are those whose process is not there
     * any more.  It throws, with nobody to catch it, exactly if some worker never had a process.
     * Otherwise exactly those are stopped that were before, or were running and are gone.
     */
    method PollOp(gone: set<Id>) returns (r: Reply)
      modifies this
      ensures r == Answer(old(Model()), Poll(gone)) && (r == Crashed || Model() == Apply(old(Model()), Poll(gone)))
      ensures r == Crashed <==> exists w :: w in old(workers) && old(workers)[w].state == RUNNING && !old(workers)[w].hasProcess
      ensures workers.Keys == old(workers).Keys && jobs == old(jobs)
      ensures forall w :: w in workers ==>
                var e, e' := old(workers)[w], workers[w];
                && e'.jobId == e.jobId
                && (e' == e || (e.state == RUNNING && e.hasProcess && w in gone && e'.state == STOPPED && !e'.hasProcess))
                && (r != Crashed ==> (e'.state == STOPPED <==> e.state == STOPPED || (e.state == RUNNING && w in gone)))
    {
      var todo := workers.Keys;
      while todo != {}
        invariant todo <= workers.Keys == old(workers).Keys && jobs == old(jobs)
        invariant forall w :: w in workers ==>
                    workers[w] == if w in todo then old(workers)[w] else Polled(old(workers)[w], w in gone)
        invariant forall w :: w in workers && w !in todo ==> !Stillborn(old(workers)[w])
      {
        var w :| w in todo;
        if workers[w].state == RUNNING {
          if !workers[w].hasProcess {
            return Crashed;
          }
          if w in gone {
            workers := workers[w := workers[w].(state := STOPPED, hasProcess := false)];
          }
        }
        todo := todo - {w};
      }
      r := Done;
    }

    method StopOp()
      modifies this
      ensures Model() == Apply(old(Model()), Stop)
    {
      workers := map[];
    }
  }

  lemma OneErased(workers: map<Id, WorkerEntry>, job: Id, w: Id)
    requires w in workers && workers[w].jobId == job
    ensures Without(workers - {w}, job) == Without(workers, job) && |workers - {w}| == |workers| - 1
  {
    var rest := workers - {w};
    assert rest.Keys == workers.Keys - {w};
    assert |rest.Keys| == |rest| && |workers.Keys| == |workers|;
  }

  lemma NoneErased(workers: map<Id, WorkerEntry>, job: Id)
    requires forall w :: w in workers ==> workers[w].jobId != job
    ensures Without(workers, job) == workers
  {
  }

  // ---- whole runs ----

  function Run(t: Tables, ops: seq<Op>): Tables {
    if ops == [] then t else Apply(Run(t, ops[..|ops| - 1]), ops[|ops| - 1])
  }

  /** The operation unregisters the worker. */
  predicate Removes(t: Tables, op: Op, w: Id) {
    match op
    case DeleteWorker(worker) => worker == w
    case DeleteJob(job) => job in t.jobs && w in t.workers && t.workers[w].jobId == job
    case Stop => true
    case _ => false
  }

  /** The k-th operation created the worker, and nothing since has unregistered it. */
  ghost predicate CreatedLast(t: Tables, ops: seq<Op>, k: nat, w: Id) {
    && k < |ops| && ops[k].CreateWorker? && ops[k].worker == w
    && forall j :: k < j < |ops| ==>
         !Removes(Run(t, ops[..j]), ops[j], w) && !(ops[j].CreateWorker? && ops[j].worker == w)
  }

  const EMPTY := Tables(map[], map[])

  /** A worker is registered exactly if it was created and not unregistered since, under its job. */
  lemma {:induction false} RegisteredIfCreated(ops: seq<Op>, w: Id)
    ensures var t := Run(EMPTY, ops);
            && (w in t.workers <==> exists k: nat :: CreatedLast(EMPTY, ops, k, w))
            && forall k: nat :: CreatedLast(EMPTY, ops, k, w) ==>
                 && w in t.workers && t.workers[w].jobId == ops[k].jobId
                 && (Stillborn(t.workers[w]) <==> ops[k].start.NoLaunch?)
    decreases |ops|
  {
    hide CreatedLast;
    if ops == [] {
      NoneCreated(w);
    } else {
      var n := |ops| - 1;
      RegisteredIfCreated(ops[..n], w);
      OneOpMore(ops, w);
      AppliedTo(Run(EMPTY, ops[..n]), ops[n], w);
      if ops[n].CreateWorker? && ops[n].worker == w {
        assert CreatedLast(EMPTY, ops, n, w);
      }
    }
  }

  /**
   * A registered worker is stopped exactly if its program could be launched and some poll since
   * its creation found its process gone.
   */
  lemma {:induction false} StoppedIfGone(ops: seq<Op>, k: nat, w: Id)
    requires CreatedLast(EMPTY, ops, k, w)
    ensures k < |ops| && ops[k].CreateWorker? && w in Run(EMPTY, ops).workers
    ensures Run(EMPTY, ops).workers[w].state == STOPPED <==> ops[k].start.Wrote? && FoundGone(ops, k, w)
    decreases |ops|
  {
    hide CreatedLast, Removes;
    RegisteredIfCreated(ops, w);
    var n := |ops| - 1;
    OneOpMore(ops, w);
    if ops[n].CreateWorker? && ops[n].worker == w {
      assert k == n;
    } else {
      assert CreatedLast(EMPTY, ops[..n], k, w);
      StoppedIfGone(ops[..n], k, w);
      RegisteredIfCreated(ops[..n], w);
      FoundOnceMore(ops, k, w);
      StateMoves(Run(EMPTY, ops[..n]), ops[n], w);
    }
  }

  ghost predicate FoundGone(ops: seq<Op>, k: nat, w: Id) {
    exists j :: k < j < |ops| && ops[j].Poll? && w in ops[j].gone
  }

  lemma FoundOnceMore(ops: seq<Op>, k: nat, w: Id)
    requires k < |ops| - 1
    ensures var n := |ops| - 1;
            FoundGone(ops, k, w) <==> FoundGone(ops[..n], k, w) || (ops[n].Poll? && w in ops[n].gone)
  {
    var n := |ops| - 1;
    assert forall j :: 0 <= j < n ==> ops[..n][j] == ops[j];
    if FoundGone(ops[..n], k, w) {
      var j :| k < j < n && ops[..n][j].Poll? && w in ops[..n][j].gone;
      assert ops[j].Poll?;
    }
  }

  /** What an operation does to the state of a worker that stays registered and is not created anew. */
  lemma StateMoves(t: Tables, op: Op, w: Id)
    requires w in t.workers && w in Apply(t, op).workers && !(op.CreateWorker? && op.worker == w)
    ensures var e, e' := t.workers[w], Apply(t, op).workers[w];
            e'.state == STOPPED <==> e.state == STOPPED || (e.hasProcess && op.Poll? && w in op.gone)
  {
  }

  /** The k-th operation created the job, and it was not deleted since. */
  ghost predicate JobCreatedLast(ops: seq<Op>, k: nat, job: Id) {
    && k < |ops| && ops[k].CreateJob? && ops[k].job == job
    && forall j :: k < j < |ops| ==> !(ops[j].DeleteJob? && ops[j].job == job) && !(ops[j].CreateJob? && ops[j].job == job)
  }

  /** A job is registered exactly if it was created and not deleted since, as it was created. */
  lemma {:induction false} JobIfCreated(ops: seq<Op>, job: Id)
    ensures var t := Run(EMPTY, ops);
            && (job in t.jobs <==> exists k: nat :: JobCreatedLast(ops, k, job))
            && forall k: nat :: JobCreatedLast(ops, k, job) ==> job in t.jobs && t.jobs[job] == ops[k].entry
    decreases |ops|
  {
    if ops != [] {
      hide JobCreatedLast;
      var n := |ops| - 1;
      JobIfCreated(ops[..n], job);
      OneJobOpMore(ops, job);
      if ops[n].CreateJob? && ops[n].job == job {
        assert JobCreatedLast(ops, n, job);
      }
    }
  }

  lemma OneJobOpMore(ops: seq<Op>, job: Id)
    requires ops != []
    ensures var n := |ops| - 1;
            forall k: nat :: JobCreatedLast(ops, k, job) <==>
              if ops[n].CreateJob? && ops[n].job == job then k == n
              else JobCreatedLast(ops[..n], k, job) && !(ops[n].DeleteJob? && ops[n].job == job)
    ensures var n := |ops| - 1;
            forall k: nat :: JobCreatedLast(ops[..n], k, job) ==> k < n && ops[..n][k] == ops[k]
  {
    var n := |ops| - 1;
    assert forall j :: 0 <= j < n ==> ops[..n][j] == ops[j];
  }

  /** After every run a poll ends the service exactly if a worker is left whose launch threw. */
  lemma PollCrashesExactly(ops: seq<Op>, gone: set<Id>)
    ensures Answer(Run(EMPTY, ops), Poll(gone)) == Crashed <==>
              exists w, k: nat :: CreatedLast(EMPTY, ops, k, w) && ops[k].start.NoLaunch?
  {
    hide Run, Stillborn, Removes;
    var t := Run(EMPTY, ops);
    if w :| w in t.workers && Stillborn(t.workers[w]) {
      RegisteredIfCreated(ops, w);
    }
    if w, k: nat :| CreatedLast(EMPTY, ops, k, w) && ops[k].start.NoLaunch? {
      RegisteredIfCreated(ops, w);
    }
  }

  lemma NoneCreated(w: Id)
    ensures forall k: nat :: !CreatedLast(EMPTY, [], k, w)
  {
  }

  lemma AppliedTo(t: Tables, op: Op, w: Id)
    ensures var t' := Apply(t, op);
            if op.CreateWorker? && op.worker == w then
              && w in t'.workers && t'.workers[w].jobId == op.jobId
              && (Stillborn(t'.workers[w]) <==> op.start.NoLaunch?)
            else
              && (w in t'.workers <==> w in t.workers && !Removes(t, op, w))
              && (w in t'.workers ==>
                    && t'.workers[w].jobId == t.workers[w].jobId
                    && (Stillborn(t'.workers[w]) <==> Stillborn(t.workers[w])))
  {
  }

  lemma OneOpMore(ops: seq<Op>, w: Id)
    requires ops != []
    ensures var n := |ops| - 1;
            forall k: nat :: CreatedLast(EMPTY, ops, k, w) <==>
              if ops[n].CreateWorker? && ops[n].worker == w then k == n
              else CreatedLast(EMPTY, ops[..n], k, w) && !Removes(Run(EMPTY, ops[..n]), ops[n], w)
    ensures var n := |ops| - 1;
            forall k: nat :: CreatedLast(EMPTY, ops[..n], k, w) ==> k < n && ops[..n][k] == ops[k]
  {
    hide Run, Removes;
    var n := |ops| - 1;
    forall k: nat | CreatedLast(EMPTY, ops[..n], k, w)
      ensures k < n && ops[..n][k] == ops[k]
    {
    }
    assert forall j :: 0 <= j < n ==> ops[..n][j] == ops[j] && ops[..n][..j] == ops[..j];
    assert ops[..n][..n] == ops[..n];
  }

  /** Deleting a job removes it, all its workers, and nothing else. */
  lemma DeleteJobExactly(t: Tables, job: Id)
    requires job in t.jobs
    ensures var t' := Apply(t, DeleteJob(job));
            job !in t'.jobs && Answer(t', GetJob(job)) == Unknown && Of(t'.workers, job) == map[]
    ensures var t' := Apply(t, DeleteJob(job));
            Of(t.workers, job).Keys + t'.workers.Keys == t.workers.Keys
    ensures var t' := Apply(t, DeleteJob(job));
            forall j :: j in t.jobs && j != job ==> j in t'.jobs && Answer(t', GetJob(j)) == Answer(t, GetJob(j))
  {
    var t' := Apply(t, DeleteJob(job));
    assert Of(t'.workers, job) == map[];
    assert Of(t.workers, job).Keys + t'.workers.Keys == t.workers.Keys;
    forall j | j in t.jobs && j != job
      ensures Answer(t', GetJob(j)) == Answer(t, GetJob(j))
    {
      assert Of(t'.workers, j) == Of(t.workers, j);
    }
  }
}
