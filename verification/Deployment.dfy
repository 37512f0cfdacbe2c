/**
 * Deploying a job: its workers are created one after the other, the targets of an output before
 * the worker that has it, and each worker is told the addresses that its targets announced.
 */
module Deployment {
  import opened Handshake
  import opened OutputArguments
  import opened Results
  import opened Text

  /** A program that the service has started: its arguments, and what it wrote to descriptor 3. */
  datatype Instance = Instance(args: seq<string>, text: string)

  /** The inputs that the program announced. */
  function Inputs(i: Instance): map<string, string> {
    var o := Shake(i.text, 0, map[]);
    if o.Running? then o.inputs else map[]
  }

  /** The inputs in the service's answer; the property tree nests names that have a dot. */
  function Answer(inputs: map<string, string>): map<string, string> {
    map n | n in inputs && Find(n, '.', 0) == |n| :: inputs[n]
  }

  /** Every announced name without a dot is answered with its address, and nothing else is. */
  lemma AnswerIs(inputs: map<string, string>)
    ensures forall n :: n in Answer(inputs) <==> n in inputs && '.' !in n
    ensures forall n :: n in Answer(inputs) ==> Answer(inputs)[n] == inputs[n]
  {
    forall n: string
      ensures Find(n, '.', 0) == |n| <==> '.' !in n
    {
      var dot := Find(n, '.', 0);
      if dot < |n| {
        assert n[dot] in n;
      }
    }
  }

  ghost predicate IsUp(i: Instance) {
    !Fails(i.text)
  }

  class Service {
    /** The running programs; a worker's id is its place here. */
    var instances: seq<Instance>

    /** create-worker: prints the outputs as arguments, starts the program, waits until it runs. */
    method CreateWorker(file: string, outputs: map<string, Wires>)
      returns (r: Option<(nat, Option<map<string, string>>)>, ghost text: string)
      modifies this
      ensures r.None? <==> Fails(text)
      ensures r.None? ==> instances == old(instances)
      ensures r.Some? ==>
                && |instances| == |old(instances)| + 1 && instances[..|old(instances)|] == old(instances)
                && var i := instances[|old(instances)|];
                   && i.text == text && StartedWith(i, file, outputs) && |i.args| >= 2 && i.args[..2] == ["python", file]
                   && r.value == (|old(instances)|, if Inputs(i) == map[] then None else Some(Answer(Inputs(i))))
                   && (r.value.1.Some? ==>
                         && (forall n :: n in r.value.1.value <==> n in Inputs(i) && '.' !in n)
                         && (forall n :: n in r.value.1.value ==> r.value.1.value[n] == Inputs(i)[n]))
    {
      hide Shake, Printed, Answer;
      var args := PrintOutputs(outputs);
      var written: string := *;
      text := written;
      var o := RunProcess(written);
      if !o.Running? {
        return None, text;
      }
      var i := Instance(["python", file] + args, written);
      instances := instances + [i];
      assert StartedWith(i, file, outputs) by {
        assert Printed(args, outputs) && i.args == ["python", file] + args;
      }
      AnswerIs(o.inputs);
      r := Some((|instances| - 1, if o.inputs == map[] then None else Some(Answer(o.inputs))));
    }
  }

  /** A program that writes this does not count as running. */
  ghost predicate Fails(text: string) {
    !Shake(text, 0, map[]).Running?
  }

  /** The arguments of a program that is started with these outputs. */
  ghost predicate StartedWith(i: Instance, file: string, outputs: map<string, Wires>) {
    exists args :: Printed(args, outputs) && i.args == ["python", file] + args
  }

  /** The members of the set, each once. */
  ghost predicate Orders(xs: seq<nat>, s: set<nat>) {
    && (forall i, j :: 0 <= i < j < |xs| ==> xs[i] != xs[j])
    && (forall i :: 0 <= i < |xs| ==> xs[i] in s)
    && (forall x :: x in s ==> x in xs)
  }

  /** The addresses under a name, one for each instance, in some order. */
  ghost predicate Gathers(was: seq<string>, ins: map<nat, map<string, string>>, name: string) {
    exists xs :: Orders(xs, ins.Keys) && Along(was, ins, name, xs)
  }

  ghost predicate Along(was: seq<string>, ins: map<nat, map<string, string>>, name: string, xs: seq<nat>) {
    && |xs| == |was|
    && forall i :: 0 <= i < |xs| ==> xs[i] in ins && name in ins[xs[i]] && was[i] == ins[xs[i]][name]
  }

  type Connections = seq<(Worker, string)>

  class Worker {
    const file: string
    /** For each output its targets, with the name of the input there. */
    const outputs: map<string, Connections>
    const parallelism: nat

    /** The fields that `implement` makes. */
    var implemented: bool
    var inputs: map<nat, map<string, string>>
    var ids: seq<nat>

    ghost function Targets(): set<Worker> {
      set v, t | v in outputs && 0 <= t < |outputs[v]| :: outputs[v][t].0
    }

    ghost function Others(): set<Worker> {
      set v, t | v in outputs && 0 <= t < |outputs[v]| && outputs[v][t].0 != this :: outputs[v][t].0
    }

    /** What a target announced; of this worker itself, what `mine` has of it. */
    ghost function InputsOf(u: Worker, mine: map<nat, map<string, string>>): map<nat, map<string, string>>
      reads if u == this then {} else {u}
    {
      if u == this then mine else u.inputs
    }

    ghost predicate Gathered(v: string, wires: Wires, mine: map<nat, map<string, string>>)
      requires v in outputs
      reads Others()
    {
      && |wires| == |outputs[v]|
      && forall t :: 0 <= t < |wires| ==> Gathers(wires[t], InputsOf(outputs[v][t].0, mine), outputs[v][t].1)
    }

    /** The outputs as a request to the service names them. */
    ghost predicate Requested(request: map<string, Wires>, mine: map<nat, map<string, string>>)
      reads Others()
    {
      request.Keys == outputs.Keys && forall v :: v in outputs ==> Gathered(v, request[v], mine)
    }

    ghost predicate StartedBy(i: Instance, mine: map<nat, map<string, string>>)
      reads Others()
    {
      exists request :: Requested(request, mine) && StartedWith(i, file, request)
    }

    /**
     * Every instance runs, was told its targets' addresses, and its own inputs are known.  A
     * worker that is its own target is told of the instances that came before.
     */
    ghost predicate Deployed(instances: seq<Instance>)
      reads this, Targets()
    {
      && implemented && |ids| == parallelism && Known(instances)
      && forall i :: 0 <= i < |ids| ==> StartedBy(instances[ids[i]], Part(ids[..i], inputs))
    }

    ghost predicate Known(instances: seq<Instance>)
      reads this
    {
      KnownAs(ids, inputs, instances)
    }

    /** Some target has no inputs yet, or lacks the input that is to be connected. */
    ghost predicate Blocked()
      reads Targets()
    {
      exists v, t :: v in outputs && 0 <= t < |outputs[v]| && Lacks(outputs[v][t].0, outputs[v][t].1)
    }

    constructor (file: string, outputs: map<string, Connections>, parallelism: nat)
      ensures this.file == file && this.outputs == outputs && this.parallelism == parallelism && !implemented
    {
      this.file, this.outputs, this.parallelism, implemented := file, outputs, parallelism, false;
    }

    /** The addresses of one target; None for a target without inputs yet, or without this one. */
    method Gather(name: string) returns (was: Option<seq<string>>)
      ensures was.Some? ==> implemented && Gathers(was.value, inputs, name)
      ensures was.None? <==> Lacks(this, name)
    {
      if !implemented {
        return None;
      }
      var addresses: seq<string>, todo := [], inputs.Keys;
      ghost var xs: seq<nat> := [];
      while todo != {}
        invariant todo <= inputs.Keys && Orders(xs, inputs.Keys - todo) && Along(addresses, inputs, name, xs)
      {
        var x :| x in todo;
        if name !in inputs[x] {
          return None;
        }
        MoreOrders(xs, inputs.Keys, todo, x);
        addresses, xs, todo := addresses + [inputs[x][name]], xs + [x], todo - {x};
      }
      assert inputs.Keys - todo == inputs.Keys;
      was := Some(addresses);
    }

    /** The outputs of the request for one instance; None where gathering raises an error. */
    method Request() returns (request: Option<map<string, Wires>>)
      ensures request.Some? ==> Requested(request.value, inputs)
      ensures request.None? <==> Blocked()
    {
      hide Gathers;
      var done: map<string, Wires>, todo := map[], outputs.Keys;
      while todo != {}
        invariant todo <= outputs.Keys && done.Keys == outputs.Keys - todo
        invariant forall v :: v in done ==> Gathered(v, done[v], inputs)
        invariant forall v, t :: v in done && 0 <= t < |outputs[v]| ==> !Lacks(outputs[v][t].0, outputs[v][t].1)
      {
        var v :| v in todo;
        var wals: Wires := [];
        for t := 0 to |outputs[v]|
          invariant |wals| == t
          invariant forall k :: 0 <= k < t ==> Gathers(wals[k], outputs[v][k].0.inputs, outputs[v][k].1)
          invariant forall k :: 0 <= k < t ==> !Lacks(outputs[v][k].0, outputs[v][k].1)
        {
          var was := outputs[v][t].0.Gather(outputs[v][t].1);
          if was.None? {
            return None;
          }
          wals := wals + [was.value];
        }
        done, todo := done[v := wals], todo - {v};
      }
      request := Some(done);
    }

    /** One round of the loop: one instance more. */
    method ImplementOne(service: Service) returns (ok: bool, ghost text: string)
      requires Known(service.instances)
      modifies this`inputs, this`ids, service
      ensures Grown(old(service.instances), service.instances)
      ensures !ok ==> (Blocked() || Fails(text)) && Known(service.instances)
      ensures ok ==> TargetsThere()
      ensures ok ==>
                && Known(service.instances) && ids == old(ids) + [|old(service.instances)|]
                && |service.instances| == |old(service.instances)| + 1
                && Part(old(ids), inputs) == old(inputs)
                && (forall k :: 0 <= k < |old(ids)| ==> Part(old(ids)[..k], inputs) == Part(old(ids)[..k], old(inputs)))
                && StartedBy(service.instances[|old(service.instances)|], old(inputs))
    {
      hide StartedBy, StartedWith, Requested, KnownAs, Fails, Blocked, TargetsThere;
      ghost var others, targets := Others(), Targets();  // what the request depends on
      var request := Request();
      if request.None? {
        return false, "";
      }
      NotBlocked();
      var r;
      r, text := service.CreateWorker(file, request.value);
      if r.None? {
        return false, text;
      }
      StartedAs(service.instances[r.value.0], request.value, inputs);
      PartsStay(ids, inputs, old(service.instances), r.value.0, r.value.1);
      KnownMore(ids, inputs, service.instances);
      ids := ids + [r.value.0];
      if r.value.1.Some? {
        inputs := inputs[r.value.0 := r.value.1.value];
      }
      ok := true;
    }

    /** Worker.implement; false where it raises an error. */
    method Implement(service: Service) returns (ok: bool, ghost text: string)
      modifies this, service
      ensures Grown(old(service.instances), service.instances) && implemented
      ensures ok ==> Deployed(service.instances)
      ensures ok && parallelism > 0 ==> TargetsThere()
      ensures Known(service.instances) && (!ok ==> Blocked() || Fails(text))
    {
      hide StartedBy, KnownAs, Fails, Blocked, TargetsThere;
      text := "";
      implemented, inputs, ids := true, map[], [];
      KnownNone(service.instances);
      for instance := 0 to parallelism
        invariant implemented && |ids| == instance && Grown(old(service.instances), service.instances)
        invariant Known(service.instances)
        invariant forall i :: 0 <= i < |ids| ==> ids[i] < |service.instances|
        invariant forall i :: 0 <= i < |ids| ==> StartedBy(service.instances[ids[i]], Part(ids[..i], inputs))
        invariant instance > 0 ==> TargetsThere()
      {
        ghost var before, others := ids, Others();  // what the programs depend on
        ok, text := ImplementOne(service);
        if !ok {
          return;
        }
        assert forall i :: 0 <= i <= |before| ==> ids[..i] == before[..i];
        assert before[..|before|] == before;
      }
      ok := true;
    }

    /** Every target is implemented. */
    ghost predicate TargetsThere()
      reads Targets()`implemented
    {
      forall u <- Targets() :: u.implemented
    }

    lemma NotBlocked()
      requires !Blocked()
      ensures TargetsThere()
    {
    }

    lemma StartedAs(i: Instance, request: map<string, Wires>, mine: map<nat, map<string, string>>)
      ensures Requested(request, mine) && StartedWith(i, file, request) ==> StartedBy(i, mine)
    {
    }
  }

  /** The service only ever starts more programs. */
  ghost predicate Grown(before: seq<Instance>, now: seq<Instance>) {
    |before| <= |now| && now[..|before|] == before
  }

  /** The ids of running instances, and the inputs of those that announced any. */
  ghost predicate KnownAs(ids: seq<nat>, inputs: map<nat, map<string, string>>, instances: seq<Instance>) {
    && (forall i, j :: 0 <= i < j < |ids| ==> ids[i] != ids[j])
    && (forall i :: 0 <= i < |ids| ==> ids[i] < |instances| && IsUp(instances[ids[i]]))
    && (forall id :: id in inputs <==> id in ids && Inputs(instances[id]) != map[])
    && (forall id :: id in inputs ==> inputs[id] == Answer(Inputs(instances[id])))
  }

  /** The inputs of these instances only. */
  ghost function Part(ids: seq<nat>, inputs: map<nat, map<string, string>>): map<nat, map<string, string>> {
    map id | id in inputs && id in ids :: inputs[id]
  }

  /** One instance more adds nothing to those before. */
  lemma PartsStay(ids: seq<nat>, inputs: map<nat, map<string, string>>, instances: seq<Instance>, n: nat,
                  answer: Option<map<string, string>>)
    requires KnownAs(ids, inputs, instances) && n == |instances|
    ensures var more := if answer.Some? then inputs[n := answer.value] else inputs;
            && Part(ids, more) == inputs
            && forall k :: 0 <= k < |ids| ==> Part(ids[..k], more) == Part(ids[..k], inputs)
  {
    hide IsUp, Inputs, Answer;
    var more := if answer.Some? then inputs[n := answer.value] else inputs;
    assert n !in ids;
    forall k | 0 <= k < |ids|
      ensures Part(ids[..k], more) == Part(ids[..k], inputs)
    {
      assert n !in ids[..k];
    }
  }

  lemma KnownPart(ids: seq<nat>, inputs: map<nat, map<string, string>>, instances: seq<Instance>, k: nat)
    requires KnownAs(ids, inputs, instances) && k <= |ids|
    ensures KnownAs(ids[..k], Part(ids[..k], inputs), instances)
  {
    hide IsUp, Inputs, Answer;
    assert forall id :: id in ids[..k] ==> id in ids;
  }

  lemma KnownNone(instances: seq<Instance>)
    ensures KnownAs([], map[], instances)
  {
  }

  lemma KnownMore(ids: seq<nat>, inputs: map<nat, map<string, string>>, instances: seq<Instance>)
    requires instances != [] && KnownAs(ids, inputs, instances[..|instances| - 1]) && IsUp(instances[|instances| - 1])
    ensures var n := |instances| - 1;
            KnownAs(ids + [n], if Inputs(instances[n]) == map[] then inputs else inputs[n := Answer(Inputs(instances[n]))],
                    instances)
  {
    hide IsUp, Answer, Inputs;
    var n := |instances| - 1;
    assert forall i :: 0 <= i < n ==> instances[..n][i] == instances[i];
    var more := if Inputs(instances[n]) == map[] then inputs else inputs[n := Answer(Inputs(instances[n]))];
    forall id
      ensures id in more <==> id in ids + [n] && Inputs(instances[id]) != map[]
    {
      assert id in ids ==> id < n;
      assert id in ids + [n] <==> id in ids || id == n;
    }
  }

  ghost predicate Lacks(u: Worker, name: string)
    reads u
  {
    !u.implemented || exists x :: x in u.inputs && name !in u.inputs[x]
  }

  lemma MoreOrders(xs: seq<nat>, all: set<nat>, todo: set<nat>, x: nat)
    requires Orders(xs, all - todo) && x in todo && todo <= all
    ensures Orders(xs + [x], all - (todo - {x}))
  {
    forall y | y in all - (todo - {x})
      ensures y in xs + [x]
    {
      assert y == x || y in all - todo;
    }
  }

  /** Each worker stands behind the targets of its outputs, itself aside, and once. */
  ghost predicate BackToFront(workers: seq<Worker>) {
    && (forall i, j :: 0 <= i < j < |workers| ==> workers[i] != workers[j])
    && (forall i, w :: 0 <= i < |workers| && w in workers[i].Targets() ==> w in workers[..i + 1])
  }

  class Job {
    const workers: seq<Worker>

    constructor (workers: seq<Worker>)
      ensures this.workers == workers
    {
      this.workers := workers;
    }

    /**
     * Job.implement: creates the workers in the order in which they are listed.  It succeeds only
     * if every target of a worker with instances was implemented before or is listed up to it.
     */
    method Implement(service: Service) returns (ok: bool, ghost refused: bool, ghost text: string)
      modifies service, set w | w in workers
      ensures Grown(old(service.instances), service.instances)
      ensures ok && BackToFront(workers) ==>
                forall i :: 0 <= i < |workers| ==> workers[i].Deployed(service.instances)
      ensures ok ==>
                forall i, u :: 0 <= i < |workers| && workers[i].parallelism > 0 && u in workers[i].Targets() ==>
                  u in workers[..i + 1] || old(u.implemented)
      ensures !ok ==> refused || Fails(text) || exists i :: 0 <= i < |workers| && workers[i].Blocked()
      ensures
        (&& BackToFront(workers) && !refused && !Fails(text)
         && forall i :: 0 <= i < |workers| ==> !Unserved(workers[i], service.instances))
        ==> ok
    {
      hide Grown, Fails, Worker.Blocked, Unserved, Worker.Deployed, Ready, InOrder, DeployedTo;
      ghost var was := set u | u in AllTargets() && u.implemented;
      assert forall u <- was :: old(u.implemented);
      AtFirst(was, service.instances);
      ok, refused, text := *, false, "";
      if !ok {
        return false, true, "";
      }
      for i := 0 to |workers|
        invariant Grown(old(service.instances), service.instances) && DeployedTo(i, service.instances)
        invariant Ready(i, was) && InOrder(i, was)
      {
        ghost var before := service.instances;
        ok, text := ImplementNext(service, i, was);
        GrownTwice(old(service.instances), before, service.instances);
        if !ok {
          return;
        }
      }
      InOrderSays(was);
      AllDeployed(service.instances);
      ok := true;
    }

    /** One round of the loop: the next worker is implemented, or it is told why not. */
    method ImplementNext(service: Service, i: nat, ghost was: set<Worker>) returns (ok: bool, ghost text: string)
      requires i < |workers| && DeployedTo(i, service.instances) && Ready(i, was) && InOrder(i, was)
      modifies service, workers[i]
      ensures Grown(old(service.instances), service.instances)
      ensures ok ==> DeployedTo(i + 1, service.instances) && Ready(i + 1, was) && InOrder(i + 1, was)
      ensures !ok ==> Fails(text) || workers[i].Blocked()
      ensures !ok && BackToFront(workers) ==> Fails(text) || Unserved(workers[i], service.instances)
    {
      hide KnownAs, Fails, Worker.Blocked, Unserved, Worker.Deployed, Worker.Known, Worker.TargetsThere, Ready, InOrder;
      ghost var before := service.instances;
      ReadyStays(i, was);
      ok, text := workers[i].Implement(service);
      if BackToFront(workers) {
        forall j | 0 <= j < i
          ensures workers[j].Deployed(service.instances)
        {
          NotBehind(workers, j, i);
          assert workers[j].Deployed(before);
          DeployedStays(workers[j], before, service.instances);
        }
        if workers[i].Blocked() {
          BlockedIsUnserved(workers, i, service.instances);
        }
      }
      if ok {
        OneMoreReady(i, was);
      }
    }

    /** The first i workers are deployed, if the job is listed back to front. */
    ghost predicate DeployedTo(i: nat, instances: seq<Instance>)
      requires i <= |workers|
      reads AllTargets(), set w | w in workers
    {
      BackToFront(workers) ==> forall j :: 0 <= j < i ==> workers[j].Deployed(instances)
    }

    lemma AllDeployed(instances: seq<Instance>)
      requires DeployedTo(|workers|, instances)
      ensures BackToFront(workers) ==> forall j :: 0 <= j < |workers| ==> workers[j].Deployed(instances)
    {
    }

    /** The targets of all workers. */
    ghost function AllTargets(): set<Worker> {
      set i, u | 0 <= i < |workers| && u in workers[i].Targets() :: u
    }

    /** Of the targets none is implemented but those that were, and the first i workers. */
    ghost predicate Ready(i: nat, was: set<Worker>)
      requires i <= |workers|
      reads AllTargets()`implemented
    {
      forall u <- AllTargets() :: u.implemented ==> u in workers[..i] || u in was
    }

    /** The same without the i-th worker, which is implemented next. */
    ghost predicate ReadyBut(i: nat, was: set<Worker>)
      requires i < |workers|
      reads (AllTargets() - {workers[i]})`implemented
    {
      forall u <- AllTargets() - {workers[i]} :: u.implemented ==> u in workers[..i] || u in was
    }

    /** The first i workers have their targets before them, or had them before. */
    ghost predicate InOrder(i: nat, was: set<Worker>)
      requires i <= |workers|
    {
      forall j, u :: 0 <= j < i && workers[j].parallelism > 0 && u in workers[j].Targets() ==> u in workers[..j + 1] || u in was
    }

    lemma AtFirst(was: set<Worker>, instances: seq<Instance>)
      requires forall u <- AllTargets() :: u.implemented ==> u in was
      ensures Ready(0, was) && InOrder(0, was) && DeployedTo(0, instances) && Grown(instances, instances)
    {
    }

    lemma ReadyStays(i: nat, was: set<Worker>)
      requires i < |workers| && Ready(i, was)
      ensures ReadyBut(i, was)
    {
    }

    lemma OneMoreReady(i: nat, was: set<Worker>)
      requires i < |workers| && ReadyBut(i, was) && InOrder(i, was)
      requires workers[i].parallelism > 0 ==> workers[i].TargetsThere()
      ensures Ready(i + 1, was) && InOrder(i + 1, was)
    {
      assert workers[..i + 1] == workers[..i] + [workers[i]];
    }

    lemma InOrderSays(was: set<Worker>)
      requires InOrder(|workers|, was)
      ensures forall i, u :: 0 <= i < |workers| && workers[i].parallelism > 0 && u in workers[i].Targets() ==>
                u in workers[..i + 1] || (u in was && u in AllTargets())
    {
    }
  }

  lemma GrownTwice(a: seq<Instance>, b: seq<Instance>, c: seq<Instance>)
    requires Grown(a, b) && Grown(b, c)
    ensures Grown(a, c)
  {
    assert c[..|a|] == c[..|b|][..|a|];
  }

  /** An instance of a target announced inputs, but not the one to connect to, or that has a dot. */
  ghost predicate Unserved(w: Worker, instances: seq<Instance>)
    reads w.Targets()
  {
    exists v, t, id ::
      && v in w.outputs && 0 <= t < |w.outputs[v]| && id in w.outputs[v][t].0.ids && id < |instances|
      && Inputs(instances[id]) != map[]
      && (w.outputs[v][t].1 !in Inputs(instances[id]) || '.' in w.outputs[v][t].1)
  }

  /** What blocks a worker of a job that is listed back to front can be seen from what was written. */
  lemma BlockedIsUnserved(workers: seq<Worker>, i: nat, now: seq<Instance>)
    requires BackToFront(workers) && i < |workers|
    requires forall j :: 0 <= j < i ==> workers[j].Deployed(now)
    requires workers[i].implemented && workers[i].Known(now) && workers[i].Blocked()
    ensures Unserved(workers[i], now)
  {
    hide KnownAs, Inputs, Worker.StartedBy;
    var w := workers[i];
    var v, t :| v in w.outputs && 0 <= t < |w.outputs[v]| && Lacks(w.outputs[v][t].0, w.outputs[v][t].1);
    var u, name := w.outputs[v][t].0, w.outputs[v][t].1;
    assert u in w.Targets();
    assert u in workers[..i + 1];
    if u != w {
      var j :| 0 <= j < i && workers[j] == u;
    }
    var x :| x in u.inputs && name !in u.inputs[x];
    KnownSays(u, now, x);
    AnswerIs(Inputs(now[x]));
  }

  lemma KnownSays(u: Worker, instances: seq<Instance>, x: nat)
    requires u.Known(instances) && x in u.inputs
    ensures x in u.ids && x < |instances| && Inputs(instances[x]) != map[] && u.inputs[x] == Answer(Inputs(instances[x]))
  {
    hide IsUp, Inputs, Answer;
  }

  lemma NotBehind(workers: seq<Worker>, j: nat, i: nat)
    requires BackToFront(workers) && j < i < |workers|
    ensures workers[i] !in workers[j].Targets() && workers[i] != workers[j]
  {
  }

  lemma DeployedStays(w: Worker, before: seq<Instance>, now: seq<Instance>)
    requires w.Deployed(before) && Grown(before, now)
    ensures w.Deployed(now)
  {
    hide IsUp, Inputs, Worker.StartedBy, Answer;
    assert forall i :: 0 <= i < |before| ==> now[i] == before[i];
  }

  // ---- what the programs of a job are connected to ----

  /** The instances among these that announced an input. */
  ghost function Announcing(ids: seq<nat>, instances: seq<Instance>): set<nat>
    requires forall i :: 0 <= i < |ids| ==> ids[i] < |instances|
  {
    set id <- ids | Inputs(instances[id]) != map[]
  }

  /** One address for each announcing instance, the one it announced under the name. */
  ghost predicate Connected(addresses: seq<string>, ids: seq<nat>, instances: seq<Instance>, name: string) {
    && (forall i :: 0 <= i < |ids| ==> ids[i] < |instances|)
    && exists xs :: Orders(xs, Announcing(ids, instances)) && Reached(addresses, xs, instances, name)
  }

  ghost predicate Reached(addresses: seq<string>, xs: seq<nat>, instances: seq<Instance>, name: string) {
    && |xs| == |addresses|
    && forall i :: 0 <= i < |xs| ==>
         && xs[i] < |instances| && name in Inputs(instances[xs[i]])
         && addresses[i] == Inputs(instances[xs[i]])[name]
  }

  /** The instances of a target that had announced when the worker's n-th instance was started. */
  ghost function IdsOf(w: Worker, u: Worker, n: nat): seq<nat>
    requires n <= |w.ids|
    reads w, u
  {
    if u == w then w.ids[..n] else u.ids
  }

  ghost function InputsAt(w: Worker, u: Worker, n: nat): map<nat, map<string, string>>
    requires n <= |w.ids|
    reads w, u
  {
    w.InputsOf(u, Part(w.ids[..n], w.inputs))
  }

  /** What the names and addresses must be for the arguments of the n-th instance to be read back. */
  ghost predicate Clear(w: Worker, n: nat)
    requires n <= |w.ids|
    reads w, w.Targets()
  {
    forall v :: v in w.outputs ==>
      && Free(v, ':') && w.outputs[v] != []
      && forall t :: 0 <= t < |w.outputs[v]| ==> SaysSome(InputsAt(w, w.outputs[v][t].0, n), w.outputs[v][t].1)
  }

  ghost predicate SaysSome(inputs: map<nat, map<string, string>>, name: string) {
    inputs != map[] && forall x :: x in inputs && name in inputs[x] ==> Free(inputs[x][name], ',')
  }

  /** The program's sockets for one output: one for each target, with that target's addresses. */
  ghost predicate Sound(w: Worker, n: nat, wires: Wires, cs: Connections, instances: seq<Instance>)
    requires n <= |w.ids|
    reads w, set c <- cs :: c.0
  {
    && |wires| == |cs|
    && forall t :: 0 <= t < |cs| ==> Connected(wires[t], IdsOf(w, cs[t].0, n), instances, cs[t].1)
  }

  /** A program parses its arguments to the sockets of its worker's outputs, and no others. */
  ghost predicate Wired(w: Worker, n: nat, i: Instance, instances: seq<Instance>)
    requires n <= |w.ids|
    reads w, w.Targets()
  {
    && |i.args| >= 2 && Parsed(i.args[2..]).Some?
    && var sockets := Parsed(i.args[2..]).value;
       && sockets.Keys == w.outputs.Keys
       && forall v :: v in w.outputs ==> Sound(w, n, sockets[v], w.outputs[v], instances)
  }

  lemma KnownSource(w: Worker, u: Worker, n: nat, instances: seq<Instance>)
    requires w.Known(instances) && u.Known(instances) && n <= |w.ids|
    ensures KnownAs(IdsOf(w, u, n), InputsAt(w, u, n), instances)
  {
    KnownPart(w.ids, w.inputs, instances, n);
  }

  /** The request that the n-th instance was started with. */
  ghost predicate AskedFor(w: Worker, n: nat, request: map<string, Wires>)
    requires n <= |w.ids|
    reads w, w.Targets()
  {
    w.Requested(request, Part(w.ids[..n], w.inputs))
  }

  /**
   * The wiring of a job: a program finds, for each output of its worker and each target of that,
   * one socket, connected to what the target's instances announced and nothing else, exactly if
   * no output name has a colon, no output is without targets, and each target has announced
   * addresses, none with a comma.
   */
  lemma EndToEnd(w: Worker, instances: seq<Instance>, n: nat)
    requires w.Deployed(instances) && n < |w.ids|
    requires forall u :: u in w.Targets() ==> u.Deployed(instances)
    ensures w.ids[n] < |instances| && (Wired(w, n, instances[w.ids[n]], instances) <==> Clear(w, n))
  {
    hide Inputs, Answer, IsUp, Arguments, Lists, Sound, Clear, Wired, Worker.Requested;
    var i, mine := instances[w.ids[n]], Part(w.ids[..n], w.inputs);
    assert w.StartedBy(i, mine);
    var request :| w.Requested(request, mine) && StartedWith(i, w.file, request);
    var args :| Printed(args, request) && i.args == ["python", w.file] + args;
    var es :| Lists(es, request) && args == Arguments(es);
    assert i.args[2..] == Arguments(es);
    if Clear(w, n) {
      ClearIsWired(w, n, i, instances, request, es);
    }
    if Wired(w, n, i, instances) {
      WiredIsClear(w, n, i, instances, request, es);
    }
  }

  lemma ClearIsWired(w: Worker, n: nat, i: Instance, instances: seq<Instance>, request: map<string, Wires>,
                     es: seq<(string, Wires)>)
    requires n <= |w.ids| && Clear(w, n) && AskedFor(w, n, request) && w.Known(instances)
    requires forall u :: u in w.Targets() ==> u.Known(instances)
    requires Lists(es, request) && |i.args| >= 2 && i.args[2..] == Arguments(es)
    ensures Wired(w, n, i, instances)
  {
    hide Inputs, Answer, IsUp, Gathers, Connected, SaysSome, Arguments, Lists, Printable, Worker.Known, InputsAt, IdsOf;
    ClearIsPrintable(w, n, request);
    PrintedIsParsed(es, request);
    forall v | v in w.outputs
      ensures Sound(w, n, request[v], w.outputs[v], instances)
    {
      forall t | 0 <= t < |w.outputs[v]|
        ensures Connected(request[v][t], IdsOf(w, w.outputs[v][t].0, n), instances, w.outputs[v][t].1)
      {
        var u := w.outputs[v][t].0;
        AskedAt(w, n, request, v, t);
        KnownSource(w, u, n, instances);
        GatheredConnects(request[v][t], IdsOf(w, u, n), InputsAt(w, u, n), instances, w.outputs[v][t].1);
      }
    }
  }

  /** One list of addresses of the request. */
  lemma AskedAt(w: Worker, n: nat, request: map<string, Wires>, v: string, t: nat)
    requires n <= |w.ids| && AskedFor(w, n, request) && v in w.outputs && t < |w.outputs[v]|
    ensures v in request && |request[v]| == |w.outputs[v]| && w.outputs[v][t].0 in w.Targets()
    ensures Gathers(request[v][t], InputsAt(w, w.outputs[v][t].0, n), w.outputs[v][t].1)
  {
    hide Gathers;
    assert w.Gathered(v, request[v], Part(w.ids[..n], w.inputs));
  }

  lemma SizesAsked(w: Worker, n: nat, request: map<string, Wires>)
    requires n <= |w.ids| && AskedFor(w, n, request)
    ensures request.Keys == w.outputs.Keys && forall v :: v in request ==> |request[v]| == |w.outputs[v]|
  {
    hide Gathers;
    forall v | v in request
      ensures |request[v]| == |w.outputs[v]|
    {
      assert w.Gathered(v, request[v], Part(w.ids[..n], w.inputs));
    }
  }

  lemma WiredIsClear(w: Worker, n: nat, i: Instance, instances: seq<Instance>, request: map<string, Wires>,
                     es: seq<(string, Wires)>)
    requires n <= |w.ids| && Wired(w, n, i, instances) && AskedFor(w, n, request) && w.Known(instances)
    requires forall u :: u in w.Targets() ==> u.Known(instances)
    requires Lists(es, request) && |i.args| >= 2 && i.args[2..] == Arguments(es)
    ensures Clear(w, n)
  {
    hide Inputs, Answer, IsUp, Gathers, Connected, SaysSome, Arguments, Sockets, NameOf, Split, Join, AskedFor, Worker.Known,
         InputsAt, IdsOf;
    var sockets := Parsed(i.args[2..]).value;
    PrintedNames(es);
    SizesAsked(w, n, request);
    ParsedIs(es, request);
    forall v | v in w.outputs
      ensures Free(v, ':') && w.outputs[v] != []
      ensures forall t :: 0 <= t < |w.outputs[v]| ==> SaysSome(InputsAt(w, w.outputs[v][t].0, n), w.outputs[v][t].1)
    {
      assert v in sockets && Sound(w, n, sockets[v], w.outputs[v], instances);
      forall t | 0 <= t < |w.outputs[v]|
        ensures SaysSome(InputsAt(w, w.outputs[v][t].0, n), w.outputs[v][t].1)
      {
        var u := w.outputs[v][t].0;
        AskedAt(w, n, request, v, t);
        KnownSource(w, u, n, instances);
        assert sockets[v][t] == Split(Join(request[v][t], ','), ',');
        ConnectedSaysSome(request[v][t], IdsOf(w, u, n), InputsAt(w, u, n), instances, w.outputs[v][t].1);
      }
    }
  }

  /** If the pieces of the printed addresses are as many as the addresses, they are these. */
  lemma ConnectedSaysSome(was: seq<string>, ids: seq<nat>, inputs: map<nat, map<string, string>>, instances: seq<Instance>,
                          name: string)
    requires KnownAs(ids, inputs, instances) && Gathers(was, inputs, name)
    requires Connected(Split(Join(was, ','), ','), ids, instances, name)
    ensures SaysSome(inputs, name)
  {
    hide Inputs, Orders, IsUp, Split, Join;
    var xs :| Orders(xs, inputs.Keys) && Along(was, inputs, name, xs);
    var ys :| Orders(ys, Announcing(ids, instances)) && Reached(Split(Join(was, ','), ','), ys, instances, name);
    assert inputs.Keys == Announcing(ids, instances);
    OrdersCount(xs, inputs.Keys);
    OrdersCount(ys, inputs.Keys);
    if was == [] {
      SplitNothing();
      assert false;
    } else {
      PieceCount(was);
      forall x | x in inputs && name in inputs[x]
        ensures Free(inputs[x][name], ',')
      {
        OrdersAt(xs, inputs.Keys, x);
      }
      assert xs[0] in inputs;
    }
  }

  lemma SplitNothing()
    ensures |Split(Join([], ','), ',')| == 1
  {
  }

  lemma OrdersAt(xs: seq<nat>, s: set<nat>, x: nat)
    requires Orders(xs, s) && x in s
    ensures exists i :: 0 <= i < |xs| && xs[i] == x
  {
    assert x in xs;
  }

  lemma {:induction false} OrdersCount(xs: seq<nat>, s: set<nat>)
    requires Orders(xs, s)
    ensures |xs| == |s|
    decreases |xs|
  {
    if xs == [] {
      assert forall x :: x in s ==> x in xs;
      assert s == {};
    } else {
      var n := |xs| - 1;
      forall x | x in s - {xs[n]}
        ensures x in xs[..n]
      {
        OrdersAt(xs, s, x);
      }
      OrdersCount(xs[..n], s - {xs[n]});
    }
  }

  lemma GatheredConnects(addresses: seq<string>, ids: seq<nat>, inputs: map<nat, map<string, string>>,
                         instances: seq<Instance>, name: string)
    requires KnownAs(ids, inputs, instances) && Gathers(addresses, inputs, name)
    ensures Connected(addresses, ids, instances, name)
  {
    hide Inputs, Orders, IsUp;
    var xs :| Orders(xs, inputs.Keys) && Along(addresses, inputs, name, xs);
    assert inputs.Keys == Announcing(ids, instances);
    AlongReaches(addresses, ids, inputs, instances, name, xs);
  }

  lemma AlongReaches(addresses: seq<string>, ids: seq<nat>, inputs: map<nat, map<string, string>>, instances: seq<Instance>,
                     name: string, xs: seq<nat>)
    requires KnownAs(ids, inputs, instances) && Along(addresses, inputs, name, xs)
    ensures Reached(addresses, xs, instances, name)
  {
    hide Inputs, IsUp;
  }

  lemma ClearIsPrintable(w: Worker, n: nat, request: map<string, Wires>)
    requires n <= |w.ids| && AskedFor(w, n, request) && Clear(w, n)
    ensures Printable(request)
  {
    hide Gathers, AskedFor, SaysSome, InputsAt;
    SizesAsked(w, n, request);
    forall v | v in request
      ensures Free(v, ':') && request[v] != []
      ensures forall t :: 0 <= t < |request[v]| ==> Separable(request[v][t])
    {
      forall t | 0 <= t < |request[v]|
        ensures Separable(request[v][t])
      {
        AskedAt(w, n, request, v, t);
        GatheredSeparable(request[v][t], InputsAt(w, w.outputs[v][t].0, n), w.outputs[v][t].1);
      }
    }
  }

  lemma GatheredSeparable(was: seq<string>, ins: map<nat, map<string, string>>, name: string)
    requires Gathers(was, ins, name) && SaysSome(ins, name)
    ensures Separable(was)
  {
    hide Orders;
    var xs :| Orders(xs, ins.Keys) && Along(was, ins, name, xs);
    var x :| x in ins;
    OrdersSome(xs, ins.Keys, x);
  }

  lemma OrdersSome(xs: seq<nat>, s: set<nat>, x: nat)
    requires Orders(xs, s) && x in s
    ensures xs != []
  {
    assert x in xs;
  }

  /** The same for all programs of a job that was implemented back to front. */
  lemma JobIsWired(workers: seq<Worker>, instances: seq<Instance>, i: nat, n: nat)
    requires BackToFront(workers) && forall j :: 0 <= j < |workers| ==> workers[j].Deployed(instances)
    requires i < |workers| && n < |workers[i].ids|
    ensures var w := workers[i];
            w.ids[n] < |instances| && (Wired(w, n, instances[w.ids[n]], instances) <==> Clear(w, n))
  {
    hide Clear, Wired;
    EndToEnd(workers[i], instances, n);
  }
}
