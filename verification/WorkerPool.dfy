/**
 The pool of src/task/ElasticExecutor.cpp: a task queue, workers that take from it, and a supervisor
 that adds workers and retires them. A step is one queue operation, or one turn of a worker's or the
 supervisor's loop. Nothing here relies on the pause lock: the supervisor may retire any worker at any
 point of its loop.
 */
module WorkerPool {
  import opened Sequences

  datatype Pc = LoopHead | Body | Busy(task: nat) | Exited

  datatype Thread = Thread(pc: Pc, running: bool)

  /** Tasks are named by the order of their submission. */
  datatype Pool = Pool(
    queue: seq<nat>,
    threads: map<nat, Thread>,
    leaving: Option<nat>,   // the worker the supervisor has stopped and is joining
    nextThread: nat,
    submitted: nat,         // history: how many tasks have been submitted,
    taken: nat,             // how many popped from the queue,
    done: set<nat>          // and which have run
  )

  datatype Event =
    | Submit
    | Enter(thread: nat)
    | Take(thread: nat)
    | Skip(thread: nat)
    | Finish(thread: nat)
    | Expand
    | Retire(thread: nat)
    | Reap

  function Init(): Pool {
    Pool([], map[], None, 0, 0, 0, {})
  }

  predicate At(p: Pool, w: nat, pc: Pc) {
    w in p.threads && p.threads[w].pc == pc
  }

  function Goto(p: Pool, w: nat, pc: Pc): Pool
    requires w in p.threads
  {
    p.(threads := p.threads[w := p.threads[w].(pc := pc)])
  }

  /** One step. An event that cannot happen in p leaves p as it is. */
  function Step(p: Pool, e: Event): Pool {
    match e
    case Submit => p.(queue := p.queue + [p.submitted], submitted := p.submitted + 1)
    case Enter(w) =>
      if At(p, w, LoopHead) then Goto(p, w, if p.threads[w].running then Body else Exited) else p
    case Take(w) =>
      if At(p, w, Body) && p.queue != [] then
        Goto(p, w, Busy(p.queue[0])).(queue := p.queue[1..], taken := p.taken + 1)
      else p
    case Skip(w) =>
      if At(p, w, Body) then Goto(p, w, LoopHead) else p
    case Finish(w) =>
      if w in p.threads && p.threads[w].pc.Busy? then
        Goto(p, w, LoopHead).(done := p.done + {p.threads[w].pc.task})
      else p
    case Expand =>
      if p.leaving.None? && p.queue != [] then
        p.(threads := p.threads[p.nextThread := Thread(LoopHead, true)], nextThread := p.nextThread + 1)
      else p
    case Retire(w) =>
      if p.leaving.None? && |p.threads| > 1 && w in p.threads then
        p.(threads := p.threads[w := p.threads[w].(running := false)], leaving := Some(w))
      else p
    case Reap =>
      if p.leaving.Some? && At(p, p.leaving.value, Exited) then
        p.(threads := p.threads - {p.leaving.value}, leaving := None)
      else p
  }

  function Exec(p: Pool, es: seq<Event>): Pool {
    if es == [] then p else Step(Exec(p, es[..|es| - 1]), es[|es| - 1])
  }

  ghost predicate InFlight(p: Pool, t: nat) {
    exists w :: w in p.threads && p.threads[w].pc == Busy(t)
  }

  ghost predicate HasWorker(p: Pool) {
    exists w :: w in p.threads
  }

  /** The queue holds exactly the tasks not yet taken, in the order of submission. */
  ghost predicate QueueOk(p: Pool) {
    p.taken <= p.submitted && |p.queue| == p.submitted - p.taken
    && forall i | 0 <= i < |p.queue| :: p.queue[i] == p.taken + i
  }

  ghost predicate TasksOk(p: Pool) {
    && (forall t | t in p.done :: t < p.taken)
    && (forall t | 0 <= t < p.taken :: t in p.done || InFlight(p, t))
    && (forall w | w in p.threads && p.threads[w].pc.Busy? ::
          p.threads[w].pc.task < p.taken && p.threads[w].pc.task !in p.done)
    && (forall v, w | v in p.threads && w in p.threads && v != w && p.threads[v].pc.Busy? ::
          p.threads[v].pc != p.threads[w].pc)
  }

  ghost predicate ThreadsOk(p: Pool) {
    && (forall w | w in p.threads :: w < p.nextThread)
    && (p.leaving.Some? ==> p.leaving.value in p.threads && |p.threads| > 1)
    && (forall w | w in p.threads :: p.threads[w].running || p.leaving == Some(w))
    && (forall w | w in p.threads && p.threads[w].pc.Exited? :: !p.threads[w].running)
  }

  ghost predicate Inv(p: Pool) {
    QueueOk(p) && TasksOk(p) && ThreadsOk(p)
  }

  lemma StillInFlight(p: Pool, q: Pool, w: nat)
    requires w in p.threads && w in q.threads
    requires forall v | v in p.threads && v != w :: v in q.threads && q.threads[v] == p.threads[v]
    ensures forall t | InFlight(p, t) && p.threads[w].pc != Busy(t) :: InFlight(q, t)
  {
  }

  lemma TakeKeeps(p: Pool, w: nat)
    requires Inv(p) && At(p, w, Body) && p.queue != []
    ensures Inv(Step(p, Take(w))) && HasWorker(Step(p, Take(w)))
  {
    var q := Step(p, Take(w));
    StillInFlight(p, q, w);
    assert q.threads[w].pc == Busy(p.taken);
    assert q.threads.Keys == p.threads.Keys;
  }

  lemma FinishKeeps(p: Pool, w: nat)
    requires Inv(p) && w in p.threads && p.threads[w].pc.Busy?
    ensures Inv(Step(p, Finish(w))) && HasWorker(Step(p, Finish(w)))
  {
    hide TasksOk;
    assert w in Step(p, Finish(w)).threads;
    assert Step(p, Finish(w)).threads.Keys == p.threads.Keys;
    FinishTasks(p, w);
  }

  lemma FinishTasks(p: Pool, w: nat)
    requires TasksOk(p) && w in p.threads && p.threads[w].pc.Busy?
    ensures TasksOk(Step(p, Finish(w)))
  {
    StillInFlight(p, Step(p, Finish(w)), w);
  }

  lemma MoveKeeps(p: Pool, w: nat, pc: Pc)
    requires Inv(p) && w in p.threads && !p.threads[w].pc.Busy? && !pc.Busy? && (pc.Exited? ==> !p.threads[w].running)
    ensures Inv(Goto(p, w, pc)) && HasWorker(Goto(p, w, pc))
  {
    var q := Goto(p, w, pc);
    StillInFlight(p, q, w);
    assert q.threads.Keys == p.threads.Keys;
    assert w in q.threads;
  }

  lemma ExpandKeeps(p: Pool)
    requires Inv(p) && p.leaving.None? && p.queue != []
    ensures Inv(Step(p, Expand)) && HasWorker(Step(p, Expand))
  {
    hide TasksOk, ThreadsOk;
    ExpandTasks(p);
    ExpandThreads(p);
  }

  lemma ExpandThreads(p: Pool)
    requires ThreadsOk(p) && p.leaving.None? && p.queue != []
    ensures ThreadsOk(Step(p, Expand)) && HasWorker(Step(p, Expand))
  {
    assert p.nextThread in Step(p, Expand).threads;
  }

  lemma ExpandTasks(p: Pool)
    requires TasksOk(p) && ThreadsOk(p)
    ensures TasksOk(Step(p, Expand))
  {
    var q := Step(p, Expand);
    assert forall w | w in p.threads :: w in q.threads && q.threads[w] == p.threads[w];
    assert forall t | InFlight(p, t) :: InFlight(q, t);
  }

  lemma RetireKeeps(p: Pool, w: nat)
    requires Inv(p) && p.leaving.None? && |p.threads| > 1 && w in p.threads
    ensures Inv(Step(p, Retire(w))) && HasWorker(Step(p, Retire(w)))
  {
    var q := Step(p, Retire(w));
    assert q.threads.Keys == p.threads.Keys;
    assert w in q.threads && q.threads[w].pc == p.threads[w].pc;
    assert forall t | InFlight(p, t) :: InFlight(q, t);
  }

  lemma ReapKeeps(p: Pool)
    requires Inv(p) && p.leaving.Some? && At(p, p.leaving.value, Exited)
    ensures Inv(Step(p, Reap)) && HasWorker(Step(p, Reap))
    ensures forall t :: InFlight(Step(p, Reap), t) <==> InFlight(p, t)
  {
    var q := Step(p, Reap);
    var w := p.leaving.value;
    assert q.threads.Keys == p.threads.Keys - {w};
    assert |q.threads| == |p.threads| - 1;
    forall t ensures InFlight(q, t) <==> InFlight(p, t) {
      if InFlight(p, t) {
        var v :| v in p.threads && p.threads[v].pc == Busy(t);
        assert v in q.threads && q.threads[v] == p.threads[v];
      }
    }
  }

  lemma SubmitKeeps(p: Pool)
    requires Inv(p)
    ensures Inv(Step(p, Submit)) && Step(p, Submit).threads == p.threads
  {
    assert forall t | InFlight(p, t) :: InFlight(Step(p, Submit), t);
  }

  lemma StepKeeps(p: Pool, e: Event)
    requires Inv(p)
    ensures Inv(Step(p, e))
    ensures HasWorker(p) ==> HasWorker(Step(p, e))
  {
    hide InFlight;
    match e
    case Enter(w) => if At(p, w, LoopHead) { MoveKeeps(p, w, if p.threads[w].running then Body else Exited); }
    case Skip(w) => if At(p, w, Body) { MoveKeeps(p, w, LoopHead); }
    case Take(w) => if At(p, w, Body) && p.queue != [] { TakeKeeps(p, w); }
    case Finish(w) => if w in p.threads && p.threads[w].pc.Busy? { FinishKeeps(p, w); }
    case Submit => SubmitKeeps(p);
    case Expand => if p.leaving.None? && p.queue != [] { ExpandKeeps(p); }
    case Retire(w) => if p.leaving.None? && |p.threads| > 1 && w in p.threads { RetireKeeps(p, w); }
    case Reap => if p.leaving.Some? && At(p, p.leaving.value, Exited) { ReapKeeps(p); }
  }

  lemma InitKeeps()
    ensures Inv(Init())
  {
  }

  lemma {:induction false} Invariant(es: seq<Event>)
    ensures Inv(Exec(Init(), es))
  {
    hide Inv, Step;
    if es == [] {
      InitKeeps();
    } else {
      Invariant(es[..|es| - 1]);
      StepKeeps(Exec(Init(), es[..|es| - 1]), es[|es| - 1]);
    }
  }

  /**
   Conservation under scaling: whatever the interleaving of clients, workers and supervisor, every
   submitted task is in exactly one place: in the queue, in flight on exactly one worker, or done; and
   tasks leave the queue in the order in which they were submitted.
   */
  lemma TaskConservation(es: seq<Event>, t: nat)
    requires t < Exec(Init(), es).submitted
    ensures var p := Exec(Init(), es);
            && (t in p.queue <==> t >= p.taken)
            && (t in p.done || InFlight(p, t) <==> t < p.taken)
            && !(t in p.done && InFlight(p, t))
            && (forall v, w | v in p.threads && w in p.threads && p.threads[v].pc == p.threads[w].pc == Busy(t) ::
                  v == w)
            && (forall i | 0 <= i < |p.queue| :: p.queue[i] == p.taken + i)
  {
    hide Step;
    Invariant(es);
    var p := Exec(Init(), es);
    if t >= p.taken {
      assert p.queue[t - p.taken] == t;
    }
  }

  /** Removing a worker drops nothing: it is idle for good when it goes, and somebody else is left. */
  lemma ReapDropsNothing(es: seq<Event>)
    ensures var p := Exec(Init(), es);
            var q := Step(p, Reap);
            && (forall t :: InFlight(q, t) <==> InFlight(p, t))
            && q.queue == p.queue && q.done == p.done
            && (HasWorker(p) ==> HasWorker(q))
  {
    hide InFlight, Inv;
    Invariant(es);
    var p := Exec(Init(), es);
    if p.leaving.Some? && At(p, p.leaving.value, Exited) {
      ReapKeeps(p);
    }
  }

  /** Once there is a worker, there is one in every later state. */
  lemma {:induction false} NeverEmptyAgain(p: Pool, es: seq<Event>)
    requires Inv(p) && HasWorker(p)
    ensures Inv(Exec(p, es)) && HasWorker(Exec(p, es))
  {
    if es != [] {
      hide Inv, Step;
      NeverEmptyAgain(p, es[..|es| - 1]);
      StepKeeps(Exec(p, es[..|es| - 1]), es[|es| - 1]);
    }
  }

  // ----- joining a stopped worker

  /** How many steps a stopped worker can take at most: it may still take one task, and run it. */
  function StepsLeft(p: Pool, w: nat): nat {
    if w !in p.threads then 0
    else match p.threads[w].pc
      case Body => 3
      case Busy(_) => 2
      case LoopHead => 1
      case Exited => 0
  }

  /** A step of this worker that happens. */
  predicate Moves(p: Pool, w: nat, e: Event) {
    e in {Enter(w), Take(w), Skip(w), Finish(w)} && Step(p, e) != p
  }

  function StepsTaken(p: Pool, w: nat, es: seq<Event>): nat {
    if es == [] then 0
    else
      var n := |es| - 1;
      StepsTaken(p, w, es[..n]) + if Moves(Exec(p, es[..n]), w, es[n]) then 1 else 0
  }

  /** Stopped for good: its name is not given to another worker. */
  predicate Stopped(p: Pool, w: nat) {
    w < p.nextThread && (w in p.threads ==> !p.threads[w].running)
  }

  lemma StoppedStep(p: Pool, w: nat, e: Event)
    requires Stopped(p, w)
    ensures Stopped(Step(p, e), w)
    ensures StepsLeft(Step(p, e), w) + (if Moves(p, w, e) then 1 else 0) <= StepsLeft(p, w)
  {
  }

  /**
   Joining a stopped worker ends: whatever else happens in the pool, a stopped worker takes no more than
   three further steps, each of which brings it nearer to the end of its loop; and until it is out of the
   loop it has a step to take.
   */
  lemma {:induction false} StoppedWorkerLeaves(p: Pool, w: nat, es: seq<Event>)
    requires Inv(p) && w in p.threads && !p.threads[w].running
    ensures var q := Exec(p, es);
            && StepsTaken(p, w, es) + StepsLeft(q, w) <= StepsLeft(p, w) <= 3
            && (w in q.threads && !q.threads[w].pc.Exited? ==>
                  exists e :: Moves(q, w, e) && StepsLeft(Step(q, e), w) < StepsLeft(q, w))
  {
    assert Stopped(p, w);
    hide Inv;
    StoppedRun(p, w, es);
    var q := Exec(p, es);
    if w in q.threads && !q.threads[w].pc.Exited? {
      HasStep(q, w);
    }
  }

  lemma {:induction false} StoppedRun(p: Pool, w: nat, es: seq<Event>)
    requires Stopped(p, w)
    ensures Stopped(Exec(p, es), w) && StepsTaken(p, w, es) + StepsLeft(Exec(p, es), w) <= StepsLeft(p, w)
  {
    if es != [] {
      hide Step, Stopped, StepsLeft, Moves;
      StoppedRun(p, w, es[..|es| - 1]);
      StoppedStep(Exec(p, es[..|es| - 1]), w, es[|es| - 1]);
    }
  }

  lemma HasStep(q: Pool, w: nat)
    requires Stopped(q, w) && w in q.threads && !q.threads[w].pc.Exited?
    ensures exists e :: Moves(q, w, e) && StepsLeft(Step(q, e), w) < StepsLeft(q, w)
  {
    var e := match q.threads[w].pc
      case Body => Skip(w)
      case Busy(_) => Finish(w)
      case _ => Enter(w);
    assert Step(q, e).threads[w].pc != q.threads[w].pc;
    assert Moves(q, w, e);
    assert StepsLeft(Step(q, e), w) < StepsLeft(q, w);
  }

  // ----- one pass of the supervisor

  const EXPAND_THRESHOLD := 0.95
  const EXPIRE_THRESHOLD := 0.40

  function Sum(rates: seq<real>): real {
    if rates == [] then 0.0 else Sum(rates[..|rates| - 1]) + rates[|rates| - 1]
  }

  /** The sum of a list, by its length. */
  lemma SumGrows(rates: seq<real>, rate: real)
    ensures Sum([]) == 0.0 && Sum(rates + [rate]) == Sum(rates) + rate
  {
    assert (rates + [rate])[..|rates|] == rates;
  }

  lemma {:induction false} SumBounds(rates: seq<real>)
    requires forall i | 0 <= i < |rates| :: 0.0 <= rates[i] <= 1.0
    ensures 0.0 <= Sum(rates) <= |rates| as real
  {
    if rates != [] {
      SumBounds(rates[..|rates| - 1]);
    }
  }

  lemma Mean(sum: real, n: nat)
    requires 0.0 <= sum <= n as real && n > 0
    ensures 0.0 <= sum / n as real <= 1.0
  {
    assert sum / n as real * n as real == sum;
  }

  lemma Quotient(average: real, n: nat)
    requires n > 0
    ensures average * n as real / n as real == average
  {
  }

  /** The pool as the object of the source; workers are named in the order in which they were added. */
  class ElasticExecutor {
    var taskQueue: seq<nat>
    var workers: map<nat, Thread>
    var leaving: Option<nat>
    var nextThread: nat
    var submitted: nat
    ghost var machine: Pool

    ghost predicate Valid()
      reads this
    {
      && Inv(machine)
      && machine.queue == taskQueue && machine.threads == workers && machine.leaving == leaving
      && machine.nextThread == nextThread && machine.submitted == submitted
    }

    constructor ()
      ensures Valid() && machine == Init()
      ensures taskQueue == [] && workers == map[] && leaving == None && nextThread == 0 && submitted == 0
    {
      hide Inv, QueueOk, TasksOk, ThreadsOk;
      taskQueue, workers, leaving, nextThread, submitted := [], map[], None, 0, 0;
      machine := Init();
      new;
      InitKeeps();
    }

    method Execute() returns (task: nat)
      requires Valid()
      modifies this
      ensures Valid() && machine == Step(old(machine), Submit) && task == old(submitted)
      ensures taskQueue == old(taskQueue) + [task] && submitted == old(submitted) + 1
      ensures unchanged(`workers, `leaving, `nextThread) && machine.done == old(machine).done
    {
      hide Inv;
      StepKeeps(machine, Submit);
      task := submitted;
      taskQueue, submitted := taskQueue + [task], submitted + 1;
      machine := Step(machine, Submit);
    }

    /** One turn of a worker's loop, up to having a task: held says that its pause lock is taken. */
    method WorkerTurn(w: nat, held: bool) returns (task: Option<nat>)
      requires Valid() && w in workers && workers[w].pc == LoopHead
      modifies this
      ensures Valid()
      ensures task.Some? <==> old(workers)[w].running && !held && old(taskQueue) != []
      ensures !old(workers)[w].running ==> task.None? && machine == Step(old(machine), Enter(w))
      ensures old(workers)[w].running && task.None? ==> machine == Step(Step(old(machine), Enter(w)), Skip(w))
      ensures task.Some? ==> machine == Step(Step(old(machine), Enter(w)), Take(w)) && task.value == old(taskQueue)[0]
      ensures taskQueue == if task.Some? then old(taskQueue)[1..] else old(taskQueue)
      ensures workers.Keys == old(workers).Keys && forall v | v in workers && v != w :: workers[v] == old(workers)[v]
      ensures workers[w] == Thread(if !old(workers)[w].running then Exited
                                   else if task.Some? then Busy(task.value)
                                   else LoopHead, old(workers)[w].running)
      ensures unchanged(`leaving, `nextThread, `submitted) && machine.done == old(machine).done
    {
      hide Inv;
      task := None;
      StepKeeps(machine, Enter(w));
      machine := Step(machine, Enter(w));
      if !workers[w].running {
        workers := workers[w := workers[w].(pc := Exited)];
        return;
      }
      if !held && taskQueue != [] {
        StepKeeps(machine, Take(w));
        machine := Step(machine, Take(w));
        task := Some(taskQueue[0]);
        workers, taskQueue := workers[w := workers[w].(pc := Busy(taskQueue[0]))], taskQueue[1..];
      } else {
        StepKeeps(machine, Skip(w));
        machine := Step(machine, Skip(w));
      }
    }

    method FinishTask(w: nat)
      requires Valid() && w in workers && workers[w].pc.Busy?
      modifies this
      ensures Valid() && machine == Step(old(machine), Finish(w))
      ensures old(workers)[w].pc.task in machine.done && old(workers)[w].pc.task !in old(machine).done
      ensures machine.done == old(machine).done + {old(workers)[w].pc.task}
      ensures workers == old(workers)[w := Thread(LoopHead, old(workers)[w].running)]
      ensures unchanged(`taskQueue, `leaving, `nextThread, `submitted)
    {
      StepKeeps(machine, Finish(w));
      machine := Step(machine, Finish(w));
      workers := workers[w := workers[w].(pc := LoopHead)];
    }

    /**
     One pass of the supervisor: the rates are those its workers report, and pausable are those whose
     pause lock is free.
     */
    method Pass(rates: seq<real>, pausable: set<nat>)
      requires Valid() && leaving.None? && |rates| == |workers|
      requires forall i | 0 <= i < |rates| :: 0.0 <= rates[i] <= 1.0
      modifies this
      ensures Valid() && taskQueue == old(taskQueue)
      ensures machine in {old(machine), Step(old(machine), Expand)}
              || exists w :: w in pausable && machine == Step(old(machine), Retire(w))
      ensures old(workers) == map[] && taskQueue != [] ==> machine == Step(old(machine), Expand)
      ensures |old(workers)| == 1 ==> leaving.None?
      ensures var average := if rates == [] then 0.0 else Sum(rates) / |rates| as real;
              var expands := taskQueue != [] && (old(workers) == map[] || average >= 0.95);
              var retires := |old(workers)| > 1 && average < 0.40 && pausable * old(workers).Keys != {};
              && !(expands && retires)
              && (expands ==>
                    && workers == old(workers)[old(nextThread) := Thread(LoopHead, true)]
                    && nextThread == old(nextThread) + 1 && leaving == None)
              && (retires ==>
                    && leaving.Some? && leaving.value in pausable && leaving.value in old(workers)
                    && workers == old(workers)[leaving.value := Thread(old(workers)[leaving.value].pc, false)]
                    && nextThread == old(nextThread))
              && (!expands && !retires ==> unchanged(`workers, `nextThread, `leaving, `machine))
      ensures unchanged(`submitted)
    {
      hide Inv, Sum;
      var average, expand, retire := Supervise(rates, |taskQueue|);
      assert rates != [] ==> average == Sum(rates) / |rates| as real by {
        if rates != [] {
          Quotient(average, |rates|);
        }
      }
      if expand {
        StepKeeps(machine, Expand);
        workers, nextThread := workers[nextThread := Thread(LoopHead, true)], nextThread + 1;
        machine := Step(machine, Expand);
      }
      if retire && pausable * workers.Keys != {} {
        var w :| w in pausable * workers.Keys;
        StepKeeps(machine, Retire(w));
        workers, leaving := workers[w := workers[w].(running := false)], Some(w);
        machine := Step(machine, Retire(w));
      }
    }

    /** The destructor of a retired worker has joined it. */
    method Erase()
      requires Valid() && leaving.Some? && leaving.value in workers && workers[leaving.value].pc == Exited
      modifies this
      ensures Valid() && machine == Step(old(machine), Reap) && leaving.None? && HasWorker(machine)
      ensures workers == old(workers) - {old(leaving).value}
      ensures unchanged(`taskQueue, `nextThread, `submitted) && machine.done == old(machine).done
    {
      ReapKeeps(machine);
      hide Inv;
      machine := Step(machine, Reap);
      workers, leaving := workers - {leaving.value}, None;
    }
  }

  /**
   Lines 117-143: the average load is a fraction; the supervisor adds a worker only if a task waits and
   the pool is empty or loaded, retires one only if it is not the last, and never does both in one pass.
   */
  method Supervise(rates: seq<real>, waiting: nat) returns (average: real, expand: bool, retire: bool)
    requires forall i | 0 <= i < |rates| :: 0.0 <= rates[i] <= 1.0
    ensures average * |rates| as real == Sum(rates) && 0.0 <= average <= 1.0
    ensures expand <==> waiting > 0 && (rates == [] || average >= 0.95)
    ensures retire <==> |rates| > 1 && average < 0.40
    ensures !(expand && retire)
  {
    average := 0.0;
    var i := 0;
    while i < |rates|
      invariant 0 <= i <= |rates|
      invariant average == Sum(rates[..i])
    {
      assert rates[..i + 1][..i] == rates[..i];
      average := average + rates[i];
      i := i + 1;
    }
    assert rates[..i] == rates;
    SumBounds(rates);
    if rates != [] {
      Mean(average, |rates|);
    }
    ghost var sum := average;
    average := if rates != [] then average / |rates| as real else 0.0;
    assert average * |rates| as real == sum;
    var workers := |rates|;
    expand := false;
    if average >= EXPAND_THRESHOLD || workers == 0 {
      if waiting > 0 {
        expand := true;
        workers := workers + 1;
      }
    }
    retire := average < EXPIRE_THRESHOLD && workers > 1;
  }
}
