/**
 The promise as the object of src/task/TaskPromise.h, each method proved to take the step of
 PromiseMachine that it stands for; and the awaiter of src/task/TaskAwaiter.h that reads it.
 */
module PromiseObject {
  import opened Sequences
  import opened PromiseMachine

  class TaskPromise {
    var result: Option<Outcome>
    var completionCallbacks: seq<Handler>
    var inFlight: Option<Outcome>  // an exception on its way from return_value to unhandled_exception
    var called: seq<Call>          // the callbacks called, in order
    var invoked: seq<Invocation>   // the user's functions they called, in order
    ghost var machine: State

    ghost predicate Valid()
      reads this
    {
      && Inv(machine)
      && machine.result == result && machine.callbacks == completionCallbacks
      && machine.rethrow == inFlight && machine.calls == called && machine.invoked == invoked
    }

    constructor ()
      ensures Valid() && machine == Init()
      ensures result == None && completionCallbacks == [] && inFlight == None && called == [] && invoked == []
    {
      result, completionCallbacks, inFlight, called, invoked := None, [], None, [], [];
      machine := Init();
      new;
      Invariant([]);
    }

    /** Registers a callback. After completion it is handed back with the result, to be called outside the lock. */
    method OnCompleted(handler: Handler) returns (now: Option<Call>)
      requires Valid() && !Known(machine, handler)
      modifies this
      ensures Valid() && machine == Step(old(machine), Register(handler))
      ensures now == if result.Some? then Some(Call(handler, result.value)) else None
      ensures old(result).None? ==>
                && completionCallbacks == old(completionCallbacks) + [handler]
                && machine.early == old(machine).early + [handler] && machine.late == old(machine).late
      ensures old(result).Some? ==>
                && completionCallbacks == old(completionCallbacks)
                && machine.late == old(machine).late + [Call(handler, old(result).value)]
                && machine.early == old(machine).early
      ensures unchanged(`result, `inFlight, `called, `invoked)
    {
      hide Inv;
      StepsKeep(machine, Register(handler));
      if result.Some? {
        now := Some(Call(handler, result.value));
      } else {
        now := None;
        completionCallbacks := completionCallbacks + [handler];
      }
      machine := Step(machine, Register(handler));
    }

    /** Calls what OnCompleted handed back; what comes out of it comes out to whoever attached the handler. */
    method CallLate(call: Call, ghost i: nat) returns (escape: Option<Outcome>)
      requires Valid() && i < |machine.late| && machine.late[i] == call && i !in machine.lateRan
      modifies this
      ensures Valid() && machine == Step(old(machine), RunLate(i))
      ensures escape == Escape(call.handler, call.outcome)
      ensures called == old(called) + [call]
      ensures invoked == old(invoked) + RunCallback(call.handler, call.outcome).invoked
      ensures machine.lateRan == old(machine).lateRan + {i} && unchanged(`result, `completionCallbacks, `inFlight)
    {
      hide Inv, RunCallback;
      StepsKeep(machine, RunLate(i));
      machine := Step(machine, RunLate(i));
      OneInvoked(call);
      called := called + [call];
      var doing := RunCallback(call.handler, call.outcome);
      invoked, escape := invoked + doing.invoked, doing.escape;
    }

    /** notify_callbacks: an exception that comes out of a callback ends the loop, and the list is not cleared. */
    method NotifyCallbacks() returns (escape: Option<Outcome>)
      requires result.Some?
      modifies this`called, this`invoked, this`completionCallbacks
      ensures called == old(called) + CallsMade(old(completionCallbacks), result.value)
      ensures invoked == old(invoked) + Invoked(CallsMade(old(completionCallbacks), result.value))
      ensures escape == FirstEscape(old(completionCallbacks), result.value)
      ensures completionCallbacks == if escape.None? then [] else old(completionCallbacks)
      ensures var callbacks, n := old(completionCallbacks), |called| - |old(called)|;
              && 0 <= n <= |callbacks| && old(called) <= called
              && (forall i | 0 <= i < n :: called[|old(called)| + i] == Call(callbacks[i], result.value))
              && (forall i | 0 <= i < n - 1 :: Escape(callbacks[i], result.value).None?)
              && (if escape.None? then n == |callbacks| && forall h | h in callbacks :: Escape(h, result.value).None?
                  else n > 0 && escape == Escape(callbacks[n - 1], result.value))
    {
      hide *;
      LoopSpelled(called, completionCallbacks, result.value);
      escape := CallEach(result.value);
      if escape.None? {
        completionCallbacks := [];
      }
    }

    /** Its loop. */
    method CallEach(value: Outcome) returns (escape: Option<Outcome>)
      modifies this`called, this`invoked
      ensures called == old(called) + CallsMade(completionCallbacks, value)
      ensures invoked == old(invoked) + Invoked(CallsMade(completionCallbacks, value))
      ensures escape == FirstEscape(completionCallbacks, value)
    {
      hide *;
      ghost var before, earlier := called, invoked;
      NoCallsYet(completionCallbacks, value);
      var i := 0;
      while i < |completionCallbacks|
        invariant 0 <= i <= |completionCallbacks|
        invariant forall j | 0 <= j < i :: Escape(completionCallbacks[j], value).None?
        invariant called == before + CallsUpTo(completionCallbacks, value, i)
        invariant invoked == earlier + Invoked(CallsUpTo(completionCallbacks, value, i))
      {
        var doing := RunCallback(completionCallbacks[i], value);
        CallsOneMore(completionCallbacks, value, i, before, earlier);
        EscapeOfRun(completionCallbacks[i], value);
        called := called + [Call(completionCallbacks[i], value)];
        invoked, escape := invoked + doing.invoked, doing.escape;
        i := i + 1;
        if escape.Some? {
          StopsAt(completionCallbacks, value, i);
          return;
        }
      }
      StopsAt(completionCallbacks, value, i);
      escape := None;
    }

    /** What comes out of a callback comes out of return_value, into the body of the coroutine. */
    method ReturnValue(value: Payload)
      requires Valid() && machine.first.None?
      modifies this
      ensures Valid() && machine == Step(old(machine), Finish(Value(value)))
      ensures inFlight == FirstEscape(old(completionCallbacks), Value(value))
      ensures result == Some(Value(value)) && machine.first == result
      ensures var callbacks := old(completionCallbacks);
              (forall h | h in callbacks :: Escape(h, Value(value)).None?) ==>
                && inFlight == None && completionCallbacks == []
                && old(called) <= called && |called| == |old(called)| + |callbacks|
                && forall i | 0 <= i < |callbacks| :: called[|old(called)| + i] == Call(callbacks[i], Value(value))
    {
      hide *;
      ghost var next := ValueStep(this, value);
      EscapeIsOfOne(completionCallbacks, Value(value));
      result := Some(Value(value));
      inFlight := NotifyCallbacks();
      machine := next;
      NowValid(this);
    }

    /** The coroutine's handler of last resort: for an exception of the body, or one that came out of return_value. */
    method UnhandledException(error: Outcome) returns (escape: Option<Outcome>)
      requires Valid() && !error.Value?
      requires machine.first.None? || inFlight == Some(error)
      modifies this
      ensures Valid()
      ensures machine == Step(old(machine), if old(inFlight).Some? then Rethrow else Finish(error))
      ensures inFlight.None? && (machine.crashed <==> escape.Some?)
      ensures result == Some(error) && (old(inFlight).None? ==> machine.first == result)
      ensures var callbacks := old(completionCallbacks);
              (forall h | h in callbacks :: Escape(h, error).None?) ==>
                && escape == None && completionCallbacks == []
                && old(called) <= called && |called| == |old(called)| + |callbacks|
                && forall i | 0 <= i < |callbacks| :: called[|old(called)| + i] == Call(callbacks[i], error)
    {
      hide *;
      ghost var next := ErrorStep(this, error);
      EscapeIsOfOne(completionCallbacks, error);
      result := Some(error);
      escape := NotifyCallbacks();
      inFlight := None;
      machine := next;
      NowValid(this);
    }

    /** A getter returns the result it finds; if there is none yet it blocks, and returns nothing so far. */
    method GetResult(getter: nat) returns (outcome: Option<Outcome>)
      requires Valid() && getter !in machine.got && getter !in machine.waiting
      modifies this`machine
      ensures Valid() && outcome == result
      ensures machine == Step(old(machine), BeginGet(getter))
      ensures outcome.Some? ==>
                machine.got == old(machine).got[getter := outcome.value] && machine.waiting == old(machine).waiting
      ensures outcome.None? ==>
                machine.waiting == old(machine).waiting + {getter} && machine.got == old(machine).got
    {
      hide Inv;
      StepsKeep(machine, BeginGet(getter));
      machine := Step(machine, BeginGet(getter));
      outcome := result;
    }

    /** A blocked getter that has been woken by the completion returns the result. */
    method WokenGetter(getter: nat) returns (outcome: Outcome)
      requires Valid() && result.Some? && getter in machine.waiting
      modifies this`machine
      ensures Valid() && Some(outcome) == result
      ensures machine == Step(old(machine), EndGet(getter))
      ensures machine.got == old(machine).got[getter := outcome] && getter !in machine.waiting
    {
      hide Inv;
      StepsKeep(machine, EndGet(getter));
      machine := Step(machine, EndGet(getter));
      outcome := result.value;
    }

    /**
     An unlocked look, as the keeper of detached tasks takes it: it sees exactly whether completion is
     over and nothing came out of it.
     */
    method EntirelyFinish() returns (done: bool)
      requires Valid()
      ensures done <==> Settled(machine) && !machine.crashed
    {
      FinishedMeansSettled(machine);
      done := result.Some? && completionCallbacks == [];
    }
  }

  /** Awaiting a task: the awaiter owns the task it awaits. */
  class TaskAwaiter {
    const task: TaskPromise
    var result: Option<Payload>

    constructor (task: TaskPromise)
      ensures this.task == task && result == None
    {
      this.task, result := task, None;
    }

    /** Fetches the result, or lets its exception out into the awaiting coroutine. */
    method BeforeResume(getter: nat) returns (thrown: Option<Outcome>)
      requires task.Valid() && task.result.Some? && result == None
      requires getter !in task.machine.got && getter !in task.machine.waiting
      modifies this, task`machine
      ensures task.Valid() && task.machine == Step(old(task.machine), BeginGet(getter))
      ensures task.machine.got.Keys == old(task.machine).got.Keys + {getter}
                && task.machine.waiting == old(task.machine).waiting
      ensures task.result == if thrown.Some? then thrown else if result.Some? then Some(Value(result.value)) else None
      ensures thrown.Some? ==> result.None? && !thrown.value.Value?
    {
      var outcome := task.GetResult(getter);
      if outcome.value.Value? {
        result := Some(outcome.value.value);
        thrown := None;
      } else {
        thrown := outcome;
      }
    }

    /**
     The destructor destroys the task, whose own destructor fetches the result; an exception out of a
     destructor ends the process.
     */
    method Destroy(getter: nat) returns (terminated: bool)
      requires task.Valid() && task.result.Some?
      requires getter !in task.machine.got && getter !in task.machine.waiting
      modifies task`machine
      ensures task.Valid()
      ensures terminated <==> !task.result.value.Value?
    {
      var outcome := task.GetResult(getter);
      terminated := !outcome.value.Value?;
    }

    /**
     The whole co_await expression from its resume on: after it, or on the way out of it, the awaiter is
     destroyed.
     */
    method AwaitResume(getter: nat, again: nat) returns (value: Option<Payload>, terminated: bool)
      requires task.Valid() && task.result.Some? && result == None && getter != again
      requires getter !in task.machine.got && getter !in task.machine.waiting
      requires again !in task.machine.got && again !in task.machine.waiting
      modifies this, task`machine
      ensures task.Valid()
      ensures task.result.value.Value? ==> !terminated && value == Some(task.result.value.value)
      ensures !task.result.value.Value? ==> terminated && value == None
    {
      hide Inv, Step;
      var thrown := BeforeResume(getter);
      value := result;
      terminated := Destroy(again);
    }
  }

  function CallsUpTo(cs: seq<Handler>, o: Outcome, n: nat): seq<Call>
    requires n <= |cs|
  {
    seq(n, i requires 0 <= i < n => Call(cs[i], o))
  }

  lemma CallsOneMore(cs: seq<Handler>, o: Outcome, n: nat, before: seq<Call>, earlier: seq<Invocation>)
    requires n < |cs|
    ensures before + CallsUpTo(cs, o, n) + [Call(cs[n], o)] == before + CallsUpTo(cs, o, n + 1)
    ensures earlier + Invoked(CallsUpTo(cs, o, n)) + RunCallback(cs[n], o).invoked
            == earlier + Invoked(CallsUpTo(cs, o, n + 1))
  {
    assert CallsUpTo(cs, o, n + 1) == CallsUpTo(cs, o, n) + [Call(cs[n], o)];
    hide *;
    InvokedConcat(CallsUpTo(cs, o, n), [Call(cs[n], o)]);
    OneInvoked(Call(cs[n], o));
    Associate(before, CallsUpTo(cs, o, n), [Call(cs[n], o)]);
    Associate(earlier, Invoked(CallsUpTo(cs, o, n)), RunCallback(cs[n], o).invoked);
  }

  lemma NoCallsYet(cs: seq<Handler>, o: Outcome)
    ensures CallsUpTo(cs, o, 0) == [] && Invoked(CallsUpTo(cs, o, 0)) == []
  {
  }

  lemma Associate<T>(a: seq<T>, b: seq<T>, c: seq<T>)
    ensures a + b + c == a + (b + c)
  {
  }

  lemma OneInvoked(call: Call)
    ensures Invoked([call]) == RunCallback(call.handler, call.outcome).invoked
  {
    assert [call][..0] == [];
  }

  lemma FinishedMeansSettled(s: State)
    requires Inv(s)
    ensures s.result.Some? && s.callbacks == [] <==> Settled(s) && !s.crashed
  {
  }

  lemma StopsAt(cs: seq<Handler>, o: Outcome, n: nat)
    requires n <= |cs|
    requires forall j | 0 <= j < n - 1 :: Escape(cs[j], o).None?
    requires n == |cs| || (0 < n && Escape(cs[n - 1], o).Some?)
    ensures Stop(cs, o) == n && CallsMade(cs, o) == CallsUpTo(cs, o, n)
    ensures FirstEscape(cs, o) == if n == 0 then None else Escape(cs[n - 1], o)
  {
  }

  /** What delivering an exception does to what the object keeps, whether the body or return_value let it out. */
  lemma ErrorStep(p: TaskPromise, error: Outcome) returns (next: State)
    requires p.Valid() && !error.Value? && (p.machine.first.None? || p.inFlight == Some(error))
    ensures next == Step(p.machine, if p.inFlight.Some? then Rethrow else Finish(error)) && Inv(next)
    ensures next.result == Some(error) && next.rethrow == None
    ensures next.calls == p.called + CallsMade(p.completionCallbacks, error)
    ensures next.invoked == p.invoked + Invoked(CallsMade(p.completionCallbacks, error))
    ensures var x := FirstEscape(p.completionCallbacks, error);
            next.callbacks == (if x.None? then [] else p.completionCallbacks) && next.crashed == x.Some?
    ensures p.inFlight.None? ==> next.first == Some(error)
  {
    hide CallsMade, FirstEscape, Invoked;
    var e := if p.inFlight.Some? then Rethrow else Finish(error);
    StepsKeep(p.machine, e);
    next := Step(p.machine, e);
  }

  lemma ValueStep(p: TaskPromise, value: Payload) returns (next: State)
    requires p.Valid() && p.machine.first.None?
    ensures next == Step(p.machine, Finish(Value(value))) && Inv(next)
    ensures next.result == Some(Value(value)) && next.first == Some(Value(value))
    ensures next.calls == p.called + CallsMade(p.completionCallbacks, Value(value))
    ensures next.invoked == p.invoked + Invoked(CallsMade(p.completionCallbacks, Value(value)))
    ensures var x := FirstEscape(p.completionCallbacks, Value(value));
            next.callbacks == (if x.None? then [] else p.completionCallbacks) && next.rethrow == x
  {
    hide CallsMade, FirstEscape, Invoked;
    StepsKeep(p.machine, Finish(Value(value)));
    next := Step(p.machine, Finish(Value(value)));
  }

  lemma EscapeOfRun(h: Handler, o: Outcome)
    ensures Escape(h, o) == RunCallback(h, o).escape
  {
  }

  /** The loop lets out what one of the callbacks lets out. */
  lemma EscapeIsOfOne(cs: seq<Handler>, o: Outcome)
    ensures (forall h | h in cs :: Escape(h, o).None?) ==> FirstEscape(cs, o).None?
  {
    hide Escape;
  }

  /** What the loop calls, one by one. */
  lemma LoopSpelled(before: seq<Call>, cs: seq<Handler>, o: Outcome)
    ensures var called, n := before + CallsMade(cs, o), Stop(cs, o);
            && n <= |cs| && |called| == |before| + n && before <= called
            && (forall i | 0 <= i < n :: called[|before| + i] == Call(cs[i], o))
            && (forall i | 0 <= i < n - 1 :: Escape(cs[i], o).None?)
            && (if FirstEscape(cs, o).None? then n == |cs| && forall h | h in cs :: Escape(h, o).None?
                else n > 0 && FirstEscape(cs, o) == Escape(cs[n - 1], o))
  {
    hide Escape;
  }

  lemma NowValid(p: TaskPromise)
    requires Inv(p.machine)
    requires p.machine.result == p.result && p.machine.callbacks == p.completionCallbacks
    requires p.machine.rethrow == p.inFlight && p.machine.calls == p.called && p.machine.invoked == p.invoked
    ensures p.Valid()
  {
  }

  lemma StepsKeep(s: State, e: Event)
    requires Inv(s)
    ensures Inv(Step(s, e))
  {
    hide Step, CallsOk, LateOk, PhaseOk, LateOnce;
    StepKeepsCalls(s, e);
    StepKeepsLate(s, e);
    StepKeepsPhase(s, e);
    StepKeepsOnce(s, e);
  }
}
