/**
 * The registry under its two locks: threads run operations in steps, in any interleaving. No
 * state is a deadlock, and the tables are always those of a run of whole operations.
 */
module RegistryThreads {
  import opened Registry
  import opened Results

  /** Where a thread is in its operation; `Leaving` still holds the jobs lock. */
  datatype Pc = Idle | WantJobs(op: Op) | HasJobs(op: Op) | WantWorkers(op: Op) | HasWorkers(op: Op) | Leaving

  /** An operation at the point where it takes effect. */
  datatype Entry = Entry(thread: nat, op: Op, reply: Reply)

  datatype State = State(
    tables: Tables, jobsLock: Option<nat>, workersLock: Option<nat>, threads: seq<Pc>, begun: seq<nat>, log: seq<Entry>)

  /** What a step leaves open: the operation that begins, and the worker that a pass finds. */
  datatype Choice = Choice(op: Op, worker: Id)

  predicate UsesJobs(op: Op) {
    op.CreateJob? || op.GetJobs? || Both(op)
  }

  predicate Both(op: Op) {
    op.GetJob? || op.DeleteJob?
  }

  function Commit(s: State, t: nat, op: Op): seq<Entry> {
    s.log + [Entry(t, op, Answer(s.tables, op))]
  }

  /** The next step of a thread; None where it waits for a lock. */
  function Step(s: State, t: nat, c: Choice): Option<State>
    requires t < |s.threads| == |s.begun|
  {
    match s.threads[t]
    case Idle =>
      Some(s.(threads := s.threads[t := if UsesJobs(c.op) then WantJobs(c.op) else WantWorkers(c.op)],
              begun := s.begun[t := s.begun[t] + 1]))
    case WantJobs(op) =>
      if s.jobsLock.Some? then None else Some(s.(threads := s.threads[t := HasJobs(op)], jobsLock := Some(t)))
    case HasJobs(op) =>
      if Both(op) && op.job in s.tables.jobs then Some(s.(threads := s.threads[t := WantWorkers(op)]))
      else Some(s.(threads := s.threads[t := Idle], jobsLock := None, tables := Apply(s.tables, op), log := Commit(s, t, op)))
    case WantWorkers(op) =>
      if s.workersLock.Some? then None
      else Some(s.(threads := s.threads[t := HasWorkers(op)], workersLock := Some(t),
                   log := if op.DeleteJob? then Commit(s, t, op) else s.log))
    case HasWorkers(op) =>
      if op.DeleteJob? then
        if Of(s.tables.workers, op.job) != map[] then
          if c.worker !in Of(s.tables.workers, op.job) then None
          else Some(s.(tables := s.tables.(workers := s.tables.workers - {c.worker})))
        else
          Some(s.(threads := s.threads[t := Leaving], workersLock := None,
                  tables := s.tables.(jobs := s.tables.jobs - {op.job})))
      else
        Some(s.(threads := s.threads[t := if op.GetJob? then Leaving else Idle], workersLock := None,
                tables := Apply(s.tables, op), log := Commit(s, t, op)))
    case Leaving => Some(s.(threads := s.threads[t := Idle], jobsLock := None))
  }

  predicate Init(s: State) {
    && s.tables == EMPTY && s.jobsLock == None && s.workersLock == None && s.log == [] && |s.begun| == |s.threads|
    && forall t :: 0 <= t < |s.threads| ==> s.threads[t] == Idle && s.begun[t] == 0
  }

  // ---- the invariant ----

  predicate HoldsJobs(pc: Pc) {
    pc.HasJobs? || pc.Leaving? || ((pc.WantWorkers? || pc.HasWorkers?) && Both(pc.op))
  }

  predicate PcOk(pc: Pc, jobs: map<Id, JobEntry>) {
    && (pc.WantJobs? || pc.HasJobs? ==> UsesJobs(pc.op))
    && (pc.WantWorkers? || pc.HasWorkers? ==> !UsesJobs(pc.op) || (Both(pc.op) && pc.op.job in jobs))
  }

  ghost predicate Locks(s: State) {
    && |s.begun| == |s.threads|
    && (forall t :: 0 <= t < |s.threads| ==> PcOk(s.threads[t], s.tables.jobs))
    && (forall t :: 0 <= t < |s.threads| ==> (s.jobsLock == Some(t) <==> HoldsJobs(s.threads[t])))
    && (forall t :: 0 <= t < |s.threads| ==> (s.workersLock == Some(t) <==> s.threads[t].HasWorkers?))
    && (s.jobsLock.Some? ==> s.jobsLock.value < |s.threads|)
    && (s.workersLock.Some? ==> s.workersLock.value < |s.threads|)
  }

  predicate Deleting(s: State) {
    && s.workersLock.Some? && s.workersLock.value < |s.threads|
    && s.threads[s.workersLock.value].HasWorkers? && s.threads[s.workersLock.value].op.DeleteJob?
  }

  /** The tables as if a deletion that has begun were over. */
  function Settled(s: State): Tables {
    if Deleting(s) then
      var job := s.threads[s.workersLock.value].op.job;
      Tables(Without(s.tables.workers, job), s.tables.jobs - {job})
    else s.tables
  }

  /** The operations of the log, one at a time. */
  function Replay(log: seq<Entry>): Tables {
    if log == [] then EMPTY else Apply(Replay(log[..|log| - 1]), log[|log| - 1].op)
  }

  ghost predicate Replies(log: seq<Entry>) {
    forall k :: 0 <= k < |log| ==> log[k].reply == Answer(Replay(log[..k]), log[k].op)
  }

  function Count(log: seq<Entry>, t: nat): nat {
    if log == [] then 0 else Count(log[..|log| - 1], t) + if log[|log| - 1].thread == t then 1 else 0
  }

  /** The operation of the thread has not taken effect yet. */
  predicate Pending(pc: Pc) {
    pc.WantJobs? || pc.HasJobs? || pc.WantWorkers? || (pc.HasWorkers? && !pc.op.DeleteJob?)
  }

  ghost predicate OnceEach(s: State)
    requires |s.begun| == |s.threads|
  {
    forall t :: 0 <= t < |s.threads| ==> Count(s.log, t) + (if Pending(s.threads[t]) then 1 else 0) == s.begun[t]
  }

  /** Every operation takes effect at one point between its begin and its end, and answers by it. */
  ghost predicate Inv(s: State) {
    Locks(s) && Settled(s) == Replay(s.log) && Replies(s.log) && OnceEach(s)
  }

  lemma InitKeeps(s: State)
    requires Init(s)
    ensures Inv(s)
  {
  }

  lemma LocksKept(s: State, t: nat, c: Choice)
    requires Locks(s) && t < |s.threads| && Step(s, t, c).Some?
    ensures Locks(Step(s, t, c).value)
  {
    hide Apply, Answer, Of;
    JobsStay(s.tables, s.threads[t]);
    var s' := Step(s, t, c).value;
  }

  /** Only a deletion takes a job away. */
  lemma JobsStay(tables: Tables, pc: Pc)
    ensures pc.HasJobs? && UsesJobs(pc.op) && !(Both(pc.op) && pc.op.job in tables.jobs) ==>
              tables.jobs.Keys <= Apply(tables, pc.op).jobs.Keys
    ensures pc.HasWorkers? && !pc.op.DeleteJob? && (!UsesJobs(pc.op) || Both(pc.op)) ==> Apply(tables, pc.op).jobs == tables.jobs
  {
  }

  /** What a step adds to the log. */
  function Added(s: State, t: nat): seq<Entry>
    requires t < |s.threads|
  {
    match s.threads[t]
    case HasJobs(op) => if Both(op) && op.job in s.tables.jobs then [] else [Entry(t, op, Answer(s.tables, op))]
    case WantWorkers(op) => if op.DeleteJob? then [Entry(t, op, Answer(s.tables, op))] else []
    case HasWorkers(op) => if op.DeleteJob? then [] else [Entry(t, op, Answer(s.tables, op))]
    case _ => []
  }

  /** A step adds at most one operation, and to the settled tables does just what it does. */
  lemma StepIsOperation(s: State, t: nat, c: Choice)
    requires Locks(s) && t < |s.threads| && Step(s, t, c).Some?
    ensures var s' := Step(s, t, c).value;
            && s'.log == s.log + Added(s, t)
            && (Added(s, t) == [] ==> Settled(s') == Settled(s))
            && (Added(s, t) != [] ==>
                  && Settled(s') == Apply(Settled(s), Added(s, t)[0].op)
                  && Added(s, t)[0].reply == Answer(Settled(s), Added(s, t)[0].op))
  {
    LocksKept(s, t, c);
    var pc := s.threads[t];
    if pc.HasWorkers? && pc.op.DeleteJob? {
      assert Deleting(s);
      ErasedOne(s.tables.workers, pc.op.job, c.worker);
    } else if pc.WantWorkers? && pc.op.DeleteJob? {
      assert !Deleting(s);
    }
  }

  /** A pass leaves what the deletion will leave; without a worker to erase, that is reached. */
  lemma ErasedOne(workers: map<Id, WorkerEntry>, job: Id, w: Id)
    ensures w in Of(workers, job) ==> Without(workers - {w}, job) == Without(workers, job)
    ensures Of(workers, job) == map[] ==> Without(workers, job) == workers
  {
    if Of(workers, job) == map[] {
      forall x | x in workers
        ensures workers[x].jobId != job
      {
        assert x !in Of(workers, job);
      }
    }
  }

  lemma OnceEachKept(s: State, t: nat, c: Choice)
    requires Locks(s) && OnceEach(s) && t < |s.threads| && Step(s, t, c).Some?
    ensures |Step(s, t, c).value.begun| == |Step(s, t, c).value.threads| && OnceEach(Step(s, t, c).value)
  {
    hide Step, Count, Settled, Added, Replay;
    var s' := Step(s, t, c).value;
    StepIsOperation(s, t, c);
    StepCounts(s, t, c);
    forall u | 0 <= u < |s.threads|
      ensures Count(s'.log, u) == Count(s.log, u) + if u == t then |Added(s, t)| else 0
    {
      CountAdded(s.log, Added(s, t), t, u);
    }
  }

  lemma CountAdded(log: seq<Entry>, added: seq<Entry>, t: nat, u: nat)
    requires added == [] || (|added| == 1 && added[0].thread == t)
    ensures Count(log + added, u) == Count(log, u) + if u == t then |added| else 0
  {
    if added == [] {
      assert log + added == log;
    } else {
      assert (log + added)[..|log|] == log;
    }
  }

  /** A thread begins an operation, or adds it to the log, or neither. */
  lemma StepCounts(s: State, t: nat, c: Choice)
    requires t < |s.threads| == |s.begun| && Step(s, t, c).Some?
    ensures var s' := Step(s, t, c).value;
            && |s'.begun| == |s'.threads| == |s.threads|
            && (Added(s, t) == [] || (|Added(s, t)| == 1 && Added(s, t)[0].thread == t))
            && |Added(s, t)| + (if Pending(s'.threads[t]) then 1 else 0) + s.begun[t] ==
               s'.begun[t] + (if Pending(s.threads[t]) then 1 else 0)
            && forall u :: 0 <= u < |s.threads| && u != t ==> s'.threads[u] == s.threads[u] && s'.begun[u] == s.begun[u]
  {
    hide Apply, Answer, Of, Commit;
  }

  lemma InvKept(s: State, t: nat, c: Choice)
    requires Inv(s) && t < |s.threads| && Step(s, t, c).Some?
    ensures Inv(Step(s, t, c).value)
  {
    hide Step, Settled, OnceEach, Apply, Answer;
    LocksKept(s, t, c);
    StepIsOperation(s, t, c);
    OnceEachKept(s, t, c);
    var added, s' := Added(s, t), Step(s, t, c).value;
    if added != [] {
      assert s'.log[..|s.log|] == s.log;
      forall k | 0 <= k < |s'.log|
        ensures s'.log[k].reply == Answer(Replay(s'.log[..k]), s'.log[k].op)
      {
        if k < |s.log| {
          assert s'.log[..k] == s.log[..k];
        }
      }
    } else {
      assert s'.log == s.log;
    }
  }

  // ---- whole executions ----

  /** The state after the steps; those of threads that wait do nothing. */
  function Execute(s: State, steps: seq<(nat, Choice)>): State
    requires |s.threads| == |s.begun|
    ensures |Execute(s, steps).threads| == |Execute(s, steps).begun| == |s.threads|
    decreases |steps|
  {
    if steps == [] then s
    else
      var n := |steps| - 1;
      var before := Execute(s, steps[..n]);
      if steps[n].0 < |s.threads| then
        match Step(before, steps[n].0, steps[n].1)
        case None => before
        case Some(next) => next
      else before
  }

  /** In every reachable state the settled tables are those of the operations in the log. */
  lemma {:induction false} ReachableIsSequential(s: State, steps: seq<(nat, Choice)>)
    requires Init(s)
    ensures Inv(Execute(s, steps))
    decreases |steps|
  {
    hide Inv, Step;
    if steps == [] {
      InitKeeps(s);
    } else {
      var n := |steps| - 1;
      ReachableIsSequential(s, steps[..n]);
      var before := Execute(s, steps[..n]);
      if steps[n].0 < |s.threads| && Step(before, steps[n].0, steps[n].1).Some? {
        InvKept(before, steps[n].0, steps[n].1);
      }
    }
  }

  predicate CanStep(s: State, t: nat)
    requires t < |s.threads| == |s.begun|
  {
    match s.threads[t]
    case WantJobs(_) => s.jobsLock.None?
    case WantWorkers(_) => s.workersLock.None?
    case _ => true
  }

  lemma CanStepSteps(s: State, t: nat)
    requires t < |s.threads| == |s.begun|
    ensures CanStep(s, t) <==> exists c :: Step(s, t, c).Some?
  {
    if CanStep(s, t) {
      var w: Id :| !s.threads[t].HasWorkers? || !s.threads[t].op.DeleteJob? || Of(s.tables.workers, s.threads[t].op.job) == map[]
                   || w in Of(s.tables.workers, s.threads[t].op.job);
      assert Step(s, t, Choice(GetJobs, w)).Some?;
    }
  }

  /**
   * No reachable state is a deadlock: the holder of the workers lock never waits, and the holder
   * of the jobs lock waits for the workers lock only.
   */
  lemma NoDeadlock(s: State, t: nat)
    requires Locks(s) && t < |s.threads| && s.threads[t] != Idle
    ensures exists u, c :: 0 <= u < |s.threads| && s.threads[u] != Idle && Step(s, u, c).Some?
  {
    var u :=
      if CanStep(s, t) then t
      else if s.threads[t].WantWorkers? || !CanStep(s, s.jobsLock.value) then s.workersLock.value
      else s.jobsLock.value;
    CanStepSteps(s, u);
  }

  // ---- operations end ----

  function Rank(pc: Pc): nat {
    match pc
    case Idle => 0
    case Leaving => 1
    case HasWorkers(_) => 2
    case WantWorkers(_) => 3
    case HasJobs(_) => 4
    case WantJobs(_) => 5
  }

  function RankSum(threads: seq<Pc>): nat {
    if threads == [] then 0 else Rank(threads[0]) + RankSum(threads[1..])
  }

  lemma {:induction false} RankOf(threads: seq<Pc>, t: nat, pc: Pc)
    requires t < |threads|
    ensures RankSum(threads[t := pc]) == RankSum(threads) - Rank(threads[t]) + Rank(pc)
  {
    var changed := threads[t := pc];
    if t == 0 {
      assert changed[1..] == threads[1..];
    } else {
      assert changed[1..] == threads[1..][t - 1 := pc];
      RankOf(threads[1..], t - 1, pc);
    }
  }

  /** Unless an operation begins, every step brings all of them nearer to their ends. */
  lemma StepsEnd(s: State, t: nat, c: Choice)
    requires t < |s.threads| == |s.begun| && s.threads[t] != Idle && Step(s, t, c).Some?
    ensures var s' := Step(s, t, c).value;
            || RankSum(s'.threads) < RankSum(s.threads)
            || (s'.threads == s.threads && |s'.tables.workers| < |s.tables.workers|)
  {
    hide Step, RankSum, Rank;
    var s' := Step(s, t, c).value;
    StepMoves(s, t, c);
    if s'.threads != s.threads {
      RankOf(s.threads, t, s'.threads[t]);
    }
  }

  /** A step moves its thread on, or erases a worker. */
  lemma StepMoves(s: State, t: nat, c: Choice)
    requires t < |s.threads| == |s.begun| && s.threads[t] != Idle && Step(s, t, c).Some?
    ensures var s' := Step(s, t, c).value;
            || (t < |s'.threads| && s'.threads == s.threads[t := s'.threads[t]] && Rank(s'.threads[t]) < Rank(s.threads[t]))
            || (s'.threads == s.threads && |s'.tables.workers| < |s.tables.workers|)
  {
    hide Step, Rank, Of;
    if Erases(s, t) {
      EraseShrinks(s, t, c);
    } else {
      OthersAdvance(s, t, c);
    }
  }

  /** The thread's next step erases a worker. */
  predicate Erases(s: State, t: nat)
    requires t < |s.threads|
  {
    s.threads[t].HasWorkers? && s.threads[t].op.DeleteJob? && Of(s.tables.workers, s.threads[t].op.job) != map[]
  }

  lemma EraseShrinks(s: State, t: nat, c: Choice)
    requires t < |s.threads| == |s.begun| && Erases(s, t) && Step(s, t, c).Some?
    ensures var s' := Step(s, t, c).value;
            s'.threads == s.threads && |s'.tables.workers| < |s.tables.workers|
  {
    hide Apply, Answer, Commit, Both, UsesJobs, Of;
    MemberErased(s.tables.workers, s.threads[t].op.job, c.worker);
  }

  lemma OthersAdvance(s: State, t: nat, c: Choice)
    requires t < |s.threads| == |s.begun| && !Erases(s, t) && s.threads[t] != Idle && Step(s, t, c).Some?
    ensures var s' := Step(s, t, c).value;
            && t < |s'.threads| && s'.threads == s.threads[t := s'.threads[t]]
            && Rank(s'.threads[t]) < Rank(s.threads[t])
  {
    hide Apply, Answer, Commit, Both, UsesJobs, Of;
  }

  lemma MemberErased(workers: map<Id, WorkerEntry>, job: Id, w: Id)
    requires w in Of(workers, job)
    ensures |workers - {w}| < |workers|
  {
    OneErased(workers, job, w);
  }
}
