/**
 The completion of a task, src/task/TaskPromise.h and the handlers of src/task/Task.h, as a machine whose
 steps are the critical sections of the completion lock.

 Handlers may throw. A handler that throws out of notify_callbacks ends the loop. If that happens while
 the coroutine returns a value, the exception comes out of return_value inside the coroutine, which then
 calls unhandled_exception: a second critical section, with other threads possibly in between.
 */
module PromiseMachine {
  import opened Sequences

  type Payload(==)

  datatype Outcome = Value(value: Payload) | StdError(code: nat) | OtherError(code: nat)

  /** What the user's function does when it is called. */
  datatype Body = Returns | ThrowsStd(code: nat) | ThrowsOther(code: nat)

  datatype Handler = Then(id: nat, body: Body) | Catching(id: nat, body: Body) | Finally(id: nat, body: Body)

  /** A callback called with a result. */
  datatype Call = Call(handler: Handler, outcome: Outcome)

  function Thrown(b: Body): Option<Outcome> {
    match b
    case Returns => None
    case ThrowsStd(e) => Some(StdError(e))
    case ThrowsOther(e) => Some(OtherError(e))
  }

  /** What a user's function is called with: the value, the exception, or nothing. */
  datatype Argument = OfValue(value: Payload) | OfError(code: nat) | OfNothing

  /** A call of the user's function inside a handler. */
  datatype Invocation = Invocation(handler: Handler, argument: Argument)

  /** What running a piece of a callback does: the user's functions it calls, and the exception it ends with, if any. */
  datatype Doing = Doing(invoked: seq<Invocation>, escape: Option<Outcome>)

  /** Result::get_or_throw, for its exception. */
  function GetOrThrow(o: Outcome): Doing {
    Doing([], if o.Value? then None else Some(o))
  }

  function UserCall(h: Handler, argument: Argument): Doing {
    Doing([Invocation(h, argument)], Thrown(h.body))
  }

  /** One thing after the other, unless the first throws. */
  function Sequentially(first: Doing, second: Doing): Doing {
    if first.escape.Some? then first else Doing(first.invoked + second.invoked, second.escape)
  }

  /** try, with a handler for std::exception. */
  function TryCatch(body: Doing, handler: nat -> Doing): Doing {
    match body.escape
    case Some(StdError(code)) => Doing(body.invoked + handler(code).invoked, handler(code).escape)
    case _ => body
  }

  /** The callbacks that then, catching and finally wrap around the user's function. */
  function RunCallback(h: Handler, o: Outcome): Doing {
    match h
    case Then(_, _) =>
      TryCatch(Sequentially(GetOrThrow(o), UserCall(h, if o.Value? then OfValue(o.value) else OfNothing)),
               (code: nat) => Doing([], None))
    case Catching(_, _) =>
      TryCatch(GetOrThrow(o), (code: nat) => UserCall(h, OfError(code)))
    case Finally(_, _) =>
      UserCall(h, OfNothing)
  }

  /** What the callback lets out. */
  function Escape(h: Handler, o: Outcome): Option<Outcome> {
    RunCallback(h, o).escape
  }

  /** How many of the callbacks the loop calls: up to the first that lets something out, that one included. */
  function Stop(cs: seq<Handler>, o: Outcome): (n: nat)
    ensures n <= |cs|
    ensures forall i | 0 <= i < n - 1 :: Escape(cs[i], o).None?
    ensures n < |cs| ==> 0 < n && Escape(cs[n - 1], o).Some?
  {
    if cs == [] then 0
    else if Escape(cs[0], o).Some? then 1
    else 1 + Stop(cs[1..], o)
  }

  function CallsMade(cs: seq<Handler>, o: Outcome): seq<Call> {
    seq(Stop(cs, o), i requires 0 <= i < Stop(cs, o) => Call(cs[i], o))
  }

  /** The user's functions that these callbacks call, in order. */
  function Invoked(calls: seq<Call>): seq<Invocation> {
    if calls == [] then []
    else
      var c := calls[|calls| - 1];
      Invoked(calls[..|calls| - 1]) + RunCallback(c.handler, c.outcome).invoked
  }

  function FirstEscape(cs: seq<Handler>, o: Outcome): Option<Outcome> {
    if cs == [] || Stop(cs, o) == 0 then None else Escape(cs[Stop(cs, o) - 1], o)
  }

  /** The last eight fields are a history: the program keeps none of them. */
  datatype State = State(
    result: Option<Outcome>,
    callbacks: seq<Handler>,
    rethrow: Option<Outcome>,    // on its way from return_value to unhandled_exception
    crashed: bool,               // something came out of unhandled_exception
    late: seq<Call>,             // callbacks registered after completion, with the result they were given
    lateRan: set<nat>,
    waiting: set<nat>,           // getters blocked on the condition variable
    got: map<nat, Outcome>,      // what the getters returned
    calls: seq<Call>,            // every callback called, in order
    invoked: seq<Invocation>,    // every user's function called by them, in order
    early: seq<Handler>,         // registered before completion
    first: Option<Outcome>,      // what the coroutine ended with
    second: Option<Outcome>,     // what replaced it
    gap: seq<Call>,              // late calls before the replacement
    tail: seq<Call>              // late calls after it
  )

  datatype Event =
    | Register(handler: Handler)
    | RunLate(index: nat)
    | Finish(outcome: Outcome)
    | Rethrow
    | BeginGet(getter: nat)
    | EndGet(getter: nat)

  function Init(): State {
    State(None, [], None, false, [], {}, {}, map[], [], [], [], None, None, [], [])
  }

  predicate Known(s: State, h: Handler) {
    h in s.early || exists i :: 0 <= i < |s.late| && s.late[i].handler == h
  }

  /**
   notify_callbacks, with the result already set; the flag says whether an exception may still be caught
   by the coroutine.
   */
  function Notified(s: State, o: Outcome, inBody: bool): State {
    var t := s.(result := Some(o), calls := s.calls + CallsMade(s.callbacks, o), rethrow := None,
                invoked := s.invoked + Invoked(CallsMade(s.callbacks, o)));
    match FirstEscape(s.callbacks, o)
    case None => t.(callbacks := [])
    case Some(x) => if inBody then t.(rethrow := Some(x)) else t.(crashed := true)
  }

  /** One step. An event that cannot happen in s leaves s as it is. */
  function Step(s: State, e: Event): State {
    match e
    case Register(h) =>
      if Known(s, h) then s
      else if s.result.Some? then s.(late := s.late + [Call(h, s.result.value)])
      else s.(callbacks := s.callbacks + [h], early := s.early + [h])
    case RunLate(i) =>
      if i < |s.late| && i !in s.lateRan then
        var t := s.(calls := s.calls + [s.late[i]], lateRan := s.lateRan + {i},
            invoked := s.invoked + Invoked([s.late[i]]));
        if s.second.None? then t.(gap := s.gap + [s.late[i]]) else t.(tail := s.tail + [s.late[i]])
      else s
    case Finish(o) =>
      if s.first.None? then Notified(s.(first := Some(o)), o, o.Value?) else s
    case Rethrow =>
      if s.rethrow.Some? then Notified(s.(second := s.rethrow), s.rethrow.value, false) else s
    case BeginGet(g) =>
      if g in s.waiting || g in s.got then s
      else if s.result.Some? then s.(got := s.got[g := s.result.value])
      else s.(waiting := s.waiting + {g})
    case EndGet(g) =>
      if g in s.waiting && s.result.Some? then s.(got := s.got[g := s.result.value], waiting := s.waiting - {g}) else s
  }

  function Exec(s: State, es: seq<Event>): State {
    if es == [] then s else Step(Exec(s, es[..|es| - 1]), es[|es| - 1])
  }

  // ----- what every run keeps

  function FromCompletion(early: seq<Handler>, o: Option<Outcome>): seq<Call> {
    if o.None? then [] else CallsMade(early, o.value)
  }

  /** The calls, in order: what the completion called, late calls, what the replacement called, late calls. */
  ghost predicate CallsOk(s: State) {
    && s.calls == FromCompletion(s.early, s.first) + s.gap + FromCompletion(s.early, s.second) + s.tail
    && (s.second.None? ==> s.tail == [])
  }

  ghost predicate LateOk(s: State) {
    && Distinct(s.early)
    && (forall i | 0 <= i < |s.late| :: s.late[i].handler !in s.early)
    && (forall c | c in s.gap + s.tail :: c in s.late)
    && (s.first.None? ==> s.late == [])
    && (forall c | c in s.late :: s.first == Some(c.outcome) || s.second == Some(c.outcome))
    && (forall g | g in s.got :: s.first == Some(s.got[g]) || s.second == Some(s.got[g]))
  }

  /** The phases: before completion; replacement pending; settled. */
  ghost predicate PhaseOk(s: State) {
    && (s.first.None? ==>
          && s.result.None? && s.callbacks == s.early && s.rethrow.None? && s.second.None?
          && !s.crashed && s.got == map[])
    && (s.first.Some? && s.second.None? ==>
          && s.result == s.first
          && var x := FirstEscape(s.early, s.first.value);
             && s.callbacks == (if x.None? then [] else s.early)
             && s.rethrow == (if s.first.value.Value? then x else None)
             && s.crashed == (x.Some? && !s.first.value.Value?))
    && (s.second.Some? ==>
          && s.first.Some? && s.first.value.Value? && s.second == FirstEscape(s.early, s.first.value)
          && s.result == s.second && s.rethrow.None?
          && var y := FirstEscape(s.early, s.second.value);
             && s.callbacks == (if y.None? then [] else s.early)
             && s.crashed == y.Some?)
  }

  /** A late callback is called when it is its turn, once. */
  ghost predicate LateOnce(s: State) {
    && (forall i, j | 0 <= i < j < |s.late| :: s.late[i].handler != s.late[j].handler)
    && Distinct(s.gap + s.tail)
    && (forall i | i in s.lateRan :: i < |s.late|)
    && (forall i | 0 <= i < |s.late| :: s.late[i] in s.gap + s.tail <==> i in s.lateRan)
  }

  ghost predicate Inv(s: State) {
    CallsOk(s) && LateOk(s) && PhaseOk(s) && LateOnce(s)
  }

  lemma EscapesAreErrors(cs: seq<Handler>, o: Outcome)
    ensures FirstEscape(cs, o).Some? ==> !FirstEscape(cs, o).value.Value?
  {
  }

  lemma NothingLateYet(s: State)
    requires Inv(s) && s.first.None?
    ensures s.gap == [] && s.tail == [] && s.calls == []
  {
    FirstMember(s.gap + s.tail);
  }

  lemma NotifiedKeepsCalls(s: State, e: Event)
    requires Inv(s) && (e.Finish? || e.Rethrow?)
    ensures CallsOk(Step(s, e))
  {
    hide CallsMade, FirstEscape, Invoked, LateOk, LateOnce;
    if e.Finish? && s.first.None? {
      hide PhaseOk;
      EmptyBefore(s);
    } else if e.Rethrow? && s.rethrow.Some? {
      assert s.callbacks == s.early;
    }
  }

  lemma EmptyBefore(s: State)
    requires Inv(s) && s.first.None?
    ensures s.gap == [] && s.tail == [] && s.calls == [] && s.callbacks == s.early && s.second.None?
  {
    NothingLateYet(s);
  }

  lemma StepKeepsCalls(s: State, e: Event)
    requires Inv(s)
    ensures CallsOk(Step(s, e))
  {
    hide CallsMade, FirstEscape, Invoked, LateOk, LateOnce;
    match e
    case RunLate(i) =>
      if i < |s.late| && i !in s.lateRan {
        hide FromCompletion, PhaseOk;
        var a, b, c := FromCompletion(s.early, s.first), FromCompletion(s.early, s.second), s.late[i];
        NoCallsWithoutReplacement(s);
        assert s.second.None? ==> a + (s.gap + [c]) + [] + [] == a + s.gap + [] + [] + [c];
        assert a + s.gap + b + (s.tail + [c]) == a + s.gap + b + s.tail + [c];
      }
    case Register(h) =>
      if s.first.None? { EmptyBefore(s); }
    case Finish(_) => NotifiedKeepsCalls(s, e);
    case Rethrow => NotifiedKeepsCalls(s, e);
    case _ => hide PhaseOk;
  }

  lemma NoCallsWithoutReplacement(s: State)
    ensures s.second.None? ==> FromCompletion(s.early, s.second) == []
  {
  }

  lemma StepKeepsLate(s: State, e: Event)
    requires Inv(s)
    ensures LateOk(Step(s, e))
  {
    hide CallsMade, FirstEscape, CallsOk, Invoked, LateOnce;
    match e
    case Register(h) => RegisterKeepsLate(s, h);
    case RunLate(i) => RunLateKeepsLate(s, i);
    case _ => hide Known;
  }

  lemma RegisterKeepsLate(s: State, h: Handler)
    requires Inv(s)
    ensures LateOk(Step(s, Register(h)))
  {
    hide CallsMade, FirstEscape, CallsOk, Invoked, LateOnce;
    if !Known(s, h) && s.result.Some? {
      var c := Call(h, s.result.value);
      assert forall d | d in s.late + [c] :: d in s.late || d == c;
    }
  }

  lemma RunLateKeepsLate(s: State, i: nat)
    requires LateOk(s)
    ensures LateOk(Step(s, RunLate(i)))
  {
    hide Invoked;
  }

  lemma FinishKeepsPhase(s: State, o: Outcome)
    requires PhaseOk(s) && s.first.None?
    ensures PhaseOk(Step(s, Finish(o)))
  {
    hide CallsMade, Invoked, FirstEscape;
    EscapesAreErrors(s.early, o);
  }

  lemma RethrowKeepsPhase(s: State)
    requires PhaseOk(s)
    ensures PhaseOk(Step(s, Rethrow))
  {
    hide CallsMade, Invoked, FirstEscape;
  }

  lemma StepKeepsPhase(s: State, e: Event)
    requires Inv(s)
    ensures PhaseOk(Step(s, e))
  {
    hide CallsMade, CallsOk, LateOk, LateOnce, Known, Invoked, FirstEscape;
    match e
    case Finish(o) => if s.first.None? { FinishKeepsPhase(s, o); }
    case Rethrow => RethrowKeepsPhase(s);
    case Register(h) => RegisterKeepsPhase(s, h);
    case _ =>
  }

  lemma RegisterKeepsPhase(s: State, h: Handler)
    requires PhaseOk(s)
    ensures PhaseOk(Step(s, Register(h)))
  {
    hide CallsMade, Known, Invoked, FirstEscape;
  }

  /** One more late call, at the end of those made so far. */
  lemma LateOneMore(s: State, t: State, i: nat)
    requires LateOnce(s) && i < |s.late| && i !in s.lateRan
    requires t.late == s.late && t.lateRan == s.lateRan + {i} && t.gap + t.tail == s.gap + s.tail + [s.late[i]]
    ensures LateOnce(t)
  {
  }

  /** One more late callback, of a handler not known so far, whose turn has yet to come. */
  lemma LateRegistered(s: State, t: State, c: Call)
    requires LateOnce(s) && LateOk(s) && !Known(s, c.handler)
    requires t.late == s.late + [c] && t.lateRan == s.lateRan && t.gap == s.gap && t.tail == s.tail
    ensures LateOnce(t)
  {
    assert c !in s.gap + s.tail;
  }

  lemma StepKeepsOnce(s: State, e: Event)
    requires Inv(s)
    ensures LateOnce(Step(s, e))
  {
    hide CallsMade, FirstEscape, CallsOk, PhaseOk, LateOk, Invoked, Known;
    var t := Step(s, e);
    if e.RunLate? && t != s {
      TailAfterReplacement(s);
      hide LateOnce;
      assert t.gap + t.tail == s.gap + s.tail + [s.late[e.index]];
      LateOneMore(s, t, e.index);
    } else if e.Register? && |t.late| > |s.late| {
      hide LateOnce;
      LateRegistered(s, t, Call(e.handler, s.result.value));
    } else {
      hide LateOnce;
      LateUntouched(s, t);
    }
  }

  lemma LateUntouched(s: State, t: State)
    requires LateOnce(s) && t.late == s.late && t.lateRan == s.lateRan && t.gap == s.gap && t.tail == s.tail
    ensures LateOnce(t)
  {
  }

  lemma TailAfterReplacement(s: State)
    requires CallsOk(s)
    ensures s.second.None? ==> s.tail == []
  {
  }

  lemma {:induction false} Invariant(es: seq<Event>)
    ensures Inv(Exec(Init(), es))
  {
    if es != [] {
      hide Step, CallsOk, LateOk, PhaseOk, LateOnce;
      Invariant(es[..|es| - 1]);
      var s, e := Exec(Init(), es[..|es| - 1]), es[|es| - 1];
      StepKeepsCalls(s, e);
      StepKeepsLate(s, e);
      StepKeepsPhase(s, e);
      StepKeepsOnce(s, e);
    }
  }

  // ----- how often a callback is called

  /** Among the calls there is one of h, and only one. */
  ghost predicate CalledOnce(calls: seq<Call>, h: Handler) {
    exists i :: 0 <= i < |calls| && calls[i].handler == h
                && forall j | 0 <= j < |calls| && j != i :: calls[j].handler != h
  }

  /** Completion is over: the coroutine has ended, and no exception is on its way. */
  ghost predicate Settled(s: State) { s.first.Some? && s.rethrow.None? }

  /**
   The condition under which completion keeps its promise. While a value is returned no callback may let
   an exception out; while an exception is, only the last one may.
   */
  predicate NoneLetsOut(early: seq<Handler>, o: Outcome) {
    if o.Value? then forall i | 0 <= i < |early| :: Escape(early[i], o).None?
    else forall i | 0 <= i < |early| - 1 :: Escape(early[i], o).None?
  }

  lemma StopIsFirst(cs: seq<Handler>, o: Outcome, k: nat)
    requires k < |cs| && Escape(cs[k], o).Some?
    ensures 0 < Stop(cs, o) <= k + 1 && FirstEscape(cs, o).Some?
  {
  }

  lemma AllCalled(cs: seq<Handler>, o: Outcome)
    requires forall i | 0 <= i < |cs| - 1 :: Escape(cs[i], o).None?
    ensures Stop(cs, o) == |cs|
    ensures FirstEscape(cs, o).None? <==> (cs == [] || Escape(cs[|cs| - 1], o).None?)
  {
  }

  /** Outside the critical sections of the completion itself, only late callbacks are called. */
  lemma OthersAreLate(s: State, h: Handler)
    requires Inv(s) && h in s.early
    ensures forall c | c in s.gap + s.tail :: c.handler != h
  {
    forall c | c in s.gap + s.tail ensures c.handler != h {
      assert c in s.late;
      var i :| 0 <= i < |s.late| && s.late[i] == c;
    }
  }

  lemma OnceIfNoneLetsOut(s: State, h: Handler)
    requires Inv(s) && Settled(s) && NoneLetsOut(s.early, s.first.value) && h in s.early
    ensures CalledOnce(s.calls, h)
  {
    var o := s.first.value;
    AllCalled(s.early, o);
    OthersAreLate(s, h);
    assert s.second.None?;
    var made := CallsMade(s.early, o);
    assert s.calls == made + s.gap;
    var i :| 0 <= i < |s.early| && s.early[i] == h;
    assert s.calls[i].handler == h;
    forall j | 0 <= j < |s.calls| && j != i ensures s.calls[j].handler != h {
      if j >= |made| {
        assert s.calls[j] in s.gap + s.tail;
      }
    }
  }

  /** A value was being returned and a callback let an exception out: the first callback is called again. */
  lemma FirstCalledTwice(s: State)
    requires Inv(s) && s.second.Some? && s.early != []
    ensures !CalledOnce(s.calls, s.early[0])
  {
    var a, b := CallsMade(s.early, s.first.value), CallsMade(s.early, s.second.value);
    assert s.calls[0] == a[0];
    assert s.calls[|a| + |s.gap|] == b[0];
  }

  /** An exception was being delivered and a callback let one out: the last callback is never called. */
  lemma LastNeverCalled(s: State)
    requires Inv(s) && Settled(s) && s.second.None? && s.early != []
    requires Stop(s.early, s.first.value) < |s.early|
    ensures !CalledOnce(s.calls, s.early[|s.early| - 1])
  {
    var h := s.early[|s.early| - 1];
    OthersAreLate(s, h);
    var made := CallsMade(s.early, s.first.value);
    assert s.calls == made + s.gap;
    forall j | 0 <= j < |s.calls| ensures s.calls[j].handler != h {
      if j >= |made| {
        assert s.calls[j] in s.gap + s.tail;
      }
    }
  }

  lemma OnceInState(es: seq<Event>)
    ensures var s := Exec(Init(), es);
            Settled(s) ==>
              ((forall h | h in s.early :: CalledOnce(s.calls, h)) <==> NoneLetsOut(s.early, s.first.value))
  {
    hide Step;
    var s := Exec(Init(), es);
    Invariant(es);
    if Settled(s) {
      if NoneLetsOut(s.early, s.first.value) {
        hide Inv;
        forall h | h in s.early ensures CalledOnce(s.calls, h) {
          OnceIfNoneLetsOut(s, h);
        }
      } else {
        var k :| 0 <= k < |s.early| && Escape(s.early[k], s.first.value).Some?
                 && (!s.first.value.Value? ==> k < |s.early| - 1);
        StopIsFirst(s.early, s.first.value, k);
        if s.first.value.Value? {
          FirstCalledTwice(s);
        } else {
          LastNeverCalled(s);
        }
      }
    }
  }

  /** What the coroutine ends with: the outcome of the first Finish of the run. */
  function Ended(es: seq<Event>): Option<Outcome> {
    if es == [] then None
    else
      var front, e := es[..|es| - 1], es[|es| - 1];
      if Ended(front).Some? then Ended(front) else if e.Finish? then Some(e.outcome) else None
  }

  /** The handlers attached before that, in order, each once. */
  function Attached(es: seq<Event>): seq<Handler> {
    if es == [] then []
    else
      var front, e := es[..|es| - 1], es[|es| - 1];
      if e.Register? && Ended(front).None? && e.handler !in Attached(front) then Attached(front) + [e.handler]
      else Attached(front)
  }

  /** The handlers attached after it, in order, each once. */
  function AttachedLate(es: seq<Event>): seq<Handler> {
    if es == [] then []
    else
      var front, e := es[..|es| - 1], es[|es| - 1];
      if e.Register? && Ended(front).Some? && e.handler !in Attached(front) + AttachedLate(front) then
        AttachedLate(front) + [e.handler]
      else AttachedLate(front)
  }

  function Handlers(calls: seq<Call>): seq<Handler> {
    seq(|calls|, i requires 0 <= i < |calls| => calls[i].handler)
  }

  /** The state keeps exactly what the run attached, and what it ended with. */
  ghost predicate AsAttached(s: State, early: seq<Handler>, late: seq<Handler>, ended: Option<Outcome>) {
    s.early == early && Handlers(s.late) == late && s.first == ended
  }

  lemma RegisterAttaches(s: State, h: Handler, early: seq<Handler>, late: seq<Handler>, ended: Option<Outcome>)
    requires Inv(s) && AsAttached(s, early, late, ended)
    ensures AsAttached(Step(s, Register(h)),
                       if ended.None? && h !in early then early + [h] else early,
                       if ended.Some? && h !in early + late then late + [h] else late, ended)
  {
    hide CallsOk, LateOnce, FirstEscape, CallsMade;
    assert Known(s, h) <==> h in early + late by {
      if Known(s, h) && h !in s.early {
        var i :| 0 <= i < |s.late| && s.late[i].handler == h;
        assert late[i] == h;
      }
      if h in late {
        var i :| 0 <= i < |late| && late[i] == h;
        assert s.late[i].handler == h;
      }
    }
    assert ended.None? ==> late == [];
    if !Known(s, h) && ended.Some? {
      var c := Call(h, s.result.value);
      assert Handlers(s.late + [c]) == Handlers(s.late) + [h];
    }
  }

  lemma OthersAttachNothing(s: State, e: Event, early: seq<Handler>, late: seq<Handler>, ended: Option<Outcome>)
    requires AsAttached(s, early, late, ended) && !e.Register?
    ensures AsAttached(Step(s, e), early, late, if ended.None? && e.Finish? then Some(e.outcome) else ended)
  {
  }

  lemma Unrolled(es: seq<Event>)
    requires es != []
    ensures var front, e := es[..|es| - 1], es[|es| - 1];
            && Exec(Init(), es) == Step(Exec(Init(), front), e)
            && Ended(es) == (if Ended(front).None? && e.Finish? then Some(e.outcome) else Ended(front))
            && Attached(es) == (if e.Register? && Ended(front).None? && e.handler !in Attached(front)
                                then Attached(front) + [e.handler] else Attached(front))
            && AttachedLate(es) == (if e.Register? && Ended(front).Some?
                                       && e.handler !in Attached(front) + AttachedLate(front)
                                    then AttachedLate(front) + [e.handler] else AttachedLate(front))
  {
    hide Step;
  }

  lemma NothingAttachedYet()
    ensures Exec(Init(), []) == Init() && AsAttached(Init(), Attached([]), AttachedLate([]), Ended([]))
  {
  }

  /** In every run the callbacks are those of the handlers attached, early or late, read off the events. */
  lemma {:induction false} KeepsWhatIsAttached(es: seq<Event>)
    ensures var s := Exec(Init(), es);
            s.early == Attached(es) && Handlers(s.late) == AttachedLate(es) && s.first == Ended(es)
  {
    if es == [] {
      NothingAttachedYet();
    } else {
      hide Step, Inv, Exec, Attached, AttachedLate, Ended, Handlers;
      var front, e := es[..|es| - 1], es[|es| - 1];
      KeepsWhatIsAttached(front);
      Invariant(front);
      Unrolled(es);
      var s := Exec(Init(), front);
      if e.Register? {
        RegisterAttaches(s, e.handler, Attached(front), AttachedLate(front), Ended(front));
      } else {
        OthersAttachNothing(s, e, Attached(front), AttachedLate(front), Ended(front));
      }
    }
  }

  /**
   Exactly once, exactly when: in every run, once completion is over, the callback of each handler attached before
   it has been called exactly once if and only if none let out an exception before the last.
   */
  lemma ExactlyOnce(es: seq<Event>)
    ensures var s := Exec(Init(), es);
            Settled(s) ==>
              && Ended(es).Some?
              && ((forall h | h in Attached(es) :: CalledOnce(s.calls, h)) <==>
                    NoneLetsOut(Attached(es), Ended(es).value))
  {
    hide Step, Exec, CalledOnce, NoneLetsOut, Attached, Ended;
    KeepsWhatIsAttached(es);
    OnceInState(es);
  }

  lemma SettledCleanly(s: State)
    requires Inv(s) && Settled(s) && NoneLetsOut(s.early, s.first.value)
    ensures Stop(s.early, s.first.value) == |s.early| && s.second.None?
              && s.calls == CallsMade(s.early, s.first.value) + s.gap
    ensures s.result == s.first && (s.crashed <==> s.callbacks != [])
    ensures s.callbacks == [] <==> s.early == [] || Escape(s.early[|s.early| - 1], s.first.value).None?
  {
    hide LateOk, LateOnce, CallsMade;
    AllCalled(s.early, s.first.value);
  }

  lemma LateSeesResult(s: State)
    requires LateOk(s) && s.second.None? && s.first.Some?
    ensures forall c | c in s.gap :: c in s.late && c.outcome == s.first.value
    ensures forall g | g in s.got :: s.got[g] == s.first.value
  {
    assert forall c | c in s.gap :: c in s.gap + s.tail;
  }

  /**
   When none lets out an exception before the last: the early callbacks are called first, in the order
   in which they were registered, then late ones only; every callback and every getter sees what the
   coroutine ended with; and the list of callbacks is empty, unless the last one let something out.
   */
  lemma InOrderWithOneResult(es: seq<Event>)
    ensures var s := Exec(Init(), es);
            Settled(s) && NoneLetsOut(s.early, s.first.value) ==>
              var o, n := s.first.value, |s.early|;
              && |s.calls| >= n && (forall i | 0 <= i < n :: s.calls[i] == Call(s.early[i], o))
              && (forall c | c in s.calls[n..] :: c in s.late && c.outcome == o)
              && (forall g | g in s.got :: s.got[g] == o)
              && s.result == Some(o)
              && (s.callbacks == [] <==> n == 0 || Escape(s.early[n - 1], o).None?)
              && (s.crashed <==> s.callbacks != [])
  {
    hide Step, CallsOk, PhaseOk, LateOk, LateOnce, NoneLetsOut, Escape;
    var s := Exec(Init(), es);
    Invariant(es);
    if Settled(s) && NoneLetsOut(s.early, s.first.value) {
      SettledCleanly(s);
      LateSeesResult(s);
      assert s.calls[|s.early|..] == s.gap;
    }
  }

  /**
   The result stays what the coroutine ended with, unless a callback lets out an exception while a value
   is returned.
   */
  lemma ResultReplaced(es: seq<Event>)
    ensures var s := Exec(Init(), es);
            Settled(s) ==>
              (s.result == s.first <==> (s.first.value.Value? ==> NoneLetsOut(s.early, s.first.value)))
  {
    hide Step;
    var s := Exec(Init(), es);
    Invariant(es);
    if Settled(s) && s.first.value.Value? {
      EscapesAreErrors(s.early, s.first.value);
      if NoneLetsOut(s.early, s.first.value) {
        AllCalled(s.early, s.first.value);
      } else {
        var k :| 0 <= k < |s.early| && Escape(s.early[k], s.first.value).Some?;
        StopIsFirst(s.early, s.first.value, k);
      }
    }
  }

  lemma EarlyCalls(early: seq<Handler>, o: Option<Outcome>)
    ensures forall c | c in FromCompletion(early, o) :: c.handler in early
  {
  }

  lemma LateIsLate(s: State, i: nat)
    requires LateOk(s) && LateOnce(s) && i < |s.late|
    ensures forall c: Call | c in FromCompletion(s.early, s.first) + FromCompletion(s.early, s.second) ::
              c.handler != s.late[i].handler
    ensures forall c | c in s.gap + s.tail && c.handler == s.late[i].handler :: c == s.late[i]
  {
    hide FromCompletion;
    EarlyCalls(s.early, s.first);
    EarlyCalls(s.early, s.second);
    forall c | c in s.gap + s.tail && c.handler == s.late[i].handler ensures c == s.late[i] {
      var j :| 0 <= j < |s.late| && s.late[j] == c;
    }
  }

  lemma LateInState(s: State, i: nat)
    requires Inv(s) && i < |s.late|
    ensures i in s.lateRan ==> CalledOnce(s.calls, s.late[i].handler)
    ensures i !in s.lateRan ==> forall c | c in s.calls :: c.handler != s.late[i].handler
  {
    var a, b := FromCompletion(s.early, s.first), FromCompletion(s.early, s.second);
    hide FromCompletion, PhaseOk, LateOk;
    LateIsLate(s, i);
    if i in s.lateRan {
      var k :| 0 <= k < |s.gap + s.tail| && (s.gap + s.tail)[k] == s.late[i];
      LateStandsAlone(a, s.gap, b, s.tail, s.late[i].handler, k);
    } else {
      assert forall c | c in s.calls :: c in a + b || c in s.gap + s.tail;
    }
  }

  /** A callback registered after completion is called at most once, and exactly once when its turn has come. */
  lemma LateCalledOnce(es: seq<Event>, i: nat)
    requires i < |Exec(Init(), es).late|
    ensures var s := Exec(Init(), es);
            && (i in s.lateRan ==> CalledOnce(s.calls, s.late[i].handler))
            && (i !in s.lateRan ==> forall c | c in s.calls :: c.handler != s.late[i].handler)
  {
    hide Step, Inv, CalledOnce;
    Invariant(es);
    LateInState(Exec(Init(), es), i);
  }

  lemma LateStandsAlone(a: seq<Call>, gap: seq<Call>, b: seq<Call>, tail: seq<Call>, h: Handler, k: nat)
    requires forall c | c in a + b :: c.handler != h
    requires k < |gap + tail| && (gap + tail)[k].handler == h
    requires forall j | 0 <= j < |gap + tail| && j != k :: (gap + tail)[j].handler != h
    ensures CalledOnce(a + gap + b + tail, h)
  {
    var all := a + gap + b + tail;
    var p := if k < |gap| then |a| + k else |a| + |b| + k;
    assert all[p] == (gap + tail)[k];
    forall j | 0 <= j < |all| && j != p ensures all[j].handler != h {
      if j < |a| {
        assert all[j] == (a + b)[j];
      } else if j < |a| + |gap| {
        assert all[j] == (gap + tail)[j - |a|];
      } else if j < |a| + |gap| + |b| {
        assert all[j] == (a + b)[j - |gap|];
      } else {
        assert all[j] == (gap + tail)[j - |a| - |b|];
      }
    }
  }

  // ----- which of the user's functions are called, and with what

  lemma {:induction false} InvokedConcat(a: seq<Call>, b: seq<Call>)
    ensures Invoked(a + b) == Invoked(a) + Invoked(b)
  {
    if b == [] {
      assert a + b == a;
    } else {
      assert (a + b)[..|a + b| - 1] == a + b[..|b| - 1];
      InvokedConcat(a, b[..|b| - 1]);
    }
  }

  lemma StepInvokes(s: State, e: Event)
    requires s.invoked == Invoked(s.calls)
    ensures Step(s, e).invoked == Invoked(Step(s, e).calls)
  {
    hide Invoked, CallsMade;
    var o := if e.Finish? then e.outcome else if s.rethrow.Some? then s.rethrow.value else StdError(0);
    InvokedConcat(s.calls, CallsMade(s.callbacks, o));
    if e.RunLate? && e.index < |s.late| {
      InvokedConcat(s.calls, [s.late[e.index]]);
    }
  }

  /** The user's functions called are those that the callbacks called call. */
  lemma {:induction false} InvokedByCalls(es: seq<Event>)
    ensures Exec(Init(), es).invoked == Invoked(Exec(Init(), es).calls)
  {
    if es != [] {
      hide Step;
      InvokedByCalls(es[..|es| - 1]);
      StepInvokes(Exec(Init(), es[..|es| - 1]), es[|es| - 1]);
    }
  }

  /** The calls of the function of one handler. */
  function Of(h: Handler, invoked: seq<Invocation>): seq<Argument> {
    if invoked == [] then []
    else
      var i := invoked[|invoked| - 1];
      Of(h, invoked[..|invoked| - 1]) + if i.handler == h then [i.argument] else []
  }

  lemma {:induction false} OfConcat(h: Handler, a: seq<Invocation>, b: seq<Invocation>)
    ensures Of(h, a + b) == Of(h, a) + Of(h, b)
  {
    if b == [] {
      assert a + b == a;
    } else {
      assert (a + b)[..|a + b| - 1] == a + b[..|b| - 1];
      OfConcat(h, a, b[..|b| - 1]);
    }
  }

  /**
   What the handlers are for. With a value, the function of then is called with it; with a standard
   exception, that of catching is called with it; that of finally is always called.
   */
  function Promised(h: Handler, o: Outcome): seq<Argument> {
    if h.Finally? then [OfNothing]
    else if h.Then? && o.Value? then [OfValue(o.value)]
    else if h.Catching? && o.StdError? then [OfError(o.code)]
    else []
  }

  /** One callback does what its handler is for, and calls no other handler's function. */
  lemma CallbackKeepsPromise(h: Handler, g: Handler, o: Outcome)
    ensures Of(h, RunCallback(g, o).invoked) == if g == h then Promised(h, o) else []
  {
    var i := RunCallback(g, o).invoked;
    assert i == [] || (|i| == 1 && i[..0] == []);
  }

  /** Who lets an exception out. */
  lemma EscapesExactly(h: Handler, o: Outcome)
    ensures Escape(h, o).Some? <==>
              || (h.Finally? && !h.body.Returns?)
              || (!h.Finally? && o.OtherError?)
              || (h.Then? && o.Value? && h.body.ThrowsOther?)
              || (h.Catching? && o.StdError? && !h.body.Returns?)
  {
  }

  lemma LastInvokes(calls: seq<Call>, h: Handler)
    requires calls != []
    ensures var c := calls[|calls| - 1];
            Of(h, Invoked(calls))
            == Of(h, Invoked(calls[..|calls| - 1])) + if c.handler == h then Promised(h, c.outcome) else []
  {
    var c := calls[|calls| - 1];
    assert Invoked(calls) == Invoked(calls[..|calls| - 1]) + RunCallback(c.handler, c.outcome).invoked;
    hide *;
    OfConcat(h, Invoked(calls[..|calls| - 1]), RunCallback(c.handler, c.outcome).invoked);
    CallbackKeepsPromise(h, c.handler, c.outcome);
  }

  /** Callbacks of other handlers leave h alone. */
  lemma {:induction false} NotInvoked(calls: seq<Call>, h: Handler)
    requires forall j | 0 <= j < |calls| :: calls[j].handler != h
    ensures Of(h, Invoked(calls)) == []
  {
    if calls != [] {
      hide *;
      NotInvoked(calls[..|calls| - 1], h);
      LastInvokes(calls, h);
    }
  }

  /** The one callback of h does what h is for. */
  lemma {:induction false} InvokedAt(calls: seq<Call>, h: Handler, i: nat)
    requires i < |calls| && calls[i].handler == h && forall j | 0 <= j < |calls| && j != i :: calls[j].handler != h
    ensures Of(h, Invoked(calls)) == Promised(h, calls[i].outcome)
  {
    hide *;
    var n := |calls| - 1;
    LastInvokes(calls, h);
    if i == n {
      NotInvoked(calls[..n], h);
    } else {
      InvokedAt(calls[..n], h, i);
    }
  }

  lemma InvokedOnce(calls: seq<Call>, h: Handler, o: Outcome)
    requires CalledOnce(calls, h) && forall c | c in calls && c.handler == h :: c.outcome == o
    ensures Of(h, Invoked(calls)) == Promised(h, o)
  {
    var i :| 0 <= i < |calls| && calls[i].handler == h
             && forall j | 0 <= j < |calls| && j != i :: calls[j].handler != h;
    assert calls[i] in calls;
    InvokedAt(calls, h, i);
  }

  /**
   Dispatch by outcome, for handlers attached before completion or after it, whatever their functions do:
   when completion is over and no early callback has let an exception out (while an exception is
   delivered, none before the last), then the function of every handler attached early, and of every one
   attached late whose turn has come, has been called exactly as promised for what the coroutine ended
   with: a value calls every then and no catching, a standard exception every catching and no then, each
   once and with that value or exception, and every finally is called once. No other function has been.
   */
  lemma OutcomeDispatch(es: seq<Event>, h: Handler)
    ensures var s := Exec(Init(), es);
            Settled(s) ==>
              && Ended(es).Some?
              && (NoneLetsOut(Attached(es), Ended(es).value) ==>
                    var o := Ended(es).value;
                    Of(h, s.invoked) ==
                    if h !in Attached(es) && !LateTurn(s, h) then []
                    else if h.Finally? then [OfNothing]
                    else if h.Then? && o.Value? then [OfValue(o.value)]
                    else if h.Catching? && o.StdError? then [OfError(o.code)]
                    else [])
  {
    KeepsWhatIsAttached(es);
    DispatchInState(es, h);
    hide Step, Exec, NoneLetsOut, Of, Attached, Ended, LateTurn;
  }

  lemma DispatchInState(es: seq<Event>, h: Handler)
    ensures var s := Exec(Init(), es);
            Settled(s) && NoneLetsOut(s.early, s.first.value) ==>
              Of(h, s.invoked) == if h in s.early || LateTurn(s, h) then Promised(h, s.first.value) else []
  {
    hide Step, Inv, CalledOnce, NoneLetsOut, Promised, Of, Invoked;
    var s := Exec(Init(), es);
    if Settled(s) && NoneLetsOut(s.early, s.first.value) {
      Invariant(es);
      InvokedByCalls(es);
      OneResult(es);
      if h in s.early {
        OnceInState(es);
        InvokedOnce(s.calls, h, s.first.value);
      } else if LateTurn(s, h) {
        var i :| 0 <= i < |s.late| && i in s.lateRan && s.late[i].handler == h;
        LateCalledOnce(es, i);
        InvokedOnce(s.calls, h, s.first.value);
      } else {
        CalledHandlers(s, h);
        NotInvoked(s.calls, h);
      }
    }
  }

  /** h was attached after completion, and its callback has been called. */
  ghost predicate LateTurn(s: State, h: Handler) {
    exists i :: 0 <= i < |s.late| && i in s.lateRan && s.late[i].handler == h
  }

  lemma OneResult(es: seq<Event>)
    requires var s := Exec(Init(), es); Settled(s) && NoneLetsOut(s.early, s.first.value)
    ensures var s := Exec(Init(), es); forall c | c in s.calls :: c.outcome == s.first.value
  {
    hide Step, NoneLetsOut, Escape;
    var s := Exec(Init(), es);
    InOrderWithOneResult(es);
    assert s.calls == s.calls[..|s.early|] + s.calls[|s.early|..];
  }

  /** Whoever is called was attached early, or late and has had its turn. */
  lemma CalledHandlers(s: State, h: Handler)
    requires Inv(s) && h !in s.early && !LateTurn(s, h)
    ensures forall c | c in s.calls :: c.handler != h
  {
    hide FromCompletion, PhaseOk;
    EarlyCalls(s.early, s.first);
    EarlyCalls(s.early, s.second);
    forall c | c in s.gap + s.tail ensures c.handler != h {
      assert c in s.late;
      var i :| 0 <= i < |s.late| && s.late[i] == c;
      assert i in s.lateRan;
    }
    assert forall c | c in s.calls ::
      || c in FromCompletion(s.early, s.first)
      || c in FromCompletion(s.early, s.second)
      || c in s.gap + s.tail;
  }

  /**
   A handler attached after completion gets what is promised for the result it found, in every run, even
   if that result is replaced or another callback throws: once when its turn has come, and not before.
   */
  lemma LateDispatch(es: seq<Event>, i: nat)
    requires i < |Exec(Init(), es).late|
    ensures var s := Exec(Init(), es);
            var h := s.late[i].handler;
            Of(h, s.invoked) == if i in s.lateRan then Promised(h, s.late[i].outcome) else []
  {
    hide Step, Inv, CalledOnce, Promised, Of, Invoked;
    var s := Exec(Init(), es);
    Invariant(es);
    InvokedByCalls(es);
    LateCalledOnce(es, i);
    if i in s.lateRan {
      LateOutcome(s, i);
      InvokedOnce(s.calls, s.late[i].handler, s.late[i].outcome);
    } else {
      NotInvoked(s.calls, s.late[i].handler);
    }
  }

  lemma LateOutcome(s: State, i: nat)
    requires Inv(s) && i < |s.late|
    ensures forall c | c in s.calls && c.handler == s.late[i].handler :: c.outcome == s.late[i].outcome
  {
    hide FromCompletion, PhaseOk, LateOk, LateOnce;
    LateIsLate(s, i);
    var a, b := FromCompletion(s.early, s.first), FromCompletion(s.early, s.second);
    assert forall c | c in s.calls :: c in a + b || c in s.gap + s.tail;
  }

  /**
   What the k-th early handler is called with when completion delivers o: what is promised, if the loop
   gets that far.
   */
  function Share(early: seq<Handler>, k: nat, o: Option<Outcome>): seq<Argument>
    requires k < |early|
  {
    if o.Some? && k < Stop(early, o.value) then Promised(early[k], o.value) else []
  }

  lemma ShareOfCompletion(early: seq<Handler>, k: nat, o: Option<Outcome>)
    requires Distinct(early) && k < |early|
    ensures Of(early[k], Invoked(FromCompletion(early, o))) == Share(early, k, o)
  {
    var calls := FromCompletion(early, o);
    assert forall j | 0 <= j < |calls| :: calls[j].handler == early[j];
    hide Of, Invoked, Promised;
    if o.Some? && k < Stop(early, o.value) {
      InvokedAt(calls, early[k], k);
    } else {
      NotInvoked(calls, early[k]);
    }
  }

  /**
   What the function of a handler attached before completion is called with, in every run: its share of
   what the coroutine ended with, and then, if a callback let an exception out while a value was returned,
   its share of that exception.
   */
  lemma EarlyDispatch(es: seq<Event>, k: nat)
    requires k < |Exec(Init(), es).early|
    ensures var s := Exec(Init(), es);
            Of(s.early[k], s.invoked) == Share(s.early, k, s.first) + Share(s.early, k, s.second)
  {
    hide Step, Exec, FromCompletion, Share, LateOnce, PhaseOk;
    var s := Exec(Init(), es);
    Invariant(es);
    InvokedByCalls(es);
    OthersAreLate(s, s.early[k]);
    ShareOfCompletion(s.early, k, s.first);
    ShareOfCompletion(s.early, k, s.second);
    hide Inv;
    InFourParts(s.early[k], FromCompletion(s.early, s.first), s.gap, FromCompletion(s.early, s.second), s.tail);
  }

  lemma InFourParts(h: Handler, a: seq<Call>, gap: seq<Call>, b: seq<Call>, tail: seq<Call>)
    requires forall c | c in gap + tail :: c.handler != h
    ensures Of(h, Invoked(a + gap + b + tail)) == Of(h, Invoked(a)) + Of(h, Invoked(b))
  {
    hide *;
    assert forall c | c in gap :: c in gap + tail;
    assert forall c | c in tail :: c in gap + tail;
    NotInvoked(gap, h);
    NotInvoked(tail, h);
    InvokedConcat(a + gap + b, tail);
    InvokedConcat(a + gap, b);
    InvokedConcat(a, gap);
    OfConcat(h, Invoked(a + gap + b), Invoked(tail));
    OfConcat(h, Invoked(a + gap), Invoked(b));
    OfConcat(h, Invoked(a), Invoked(gap));
  }

  /**
   The condition under which the k-th early handler gets what is promised for the outcome o. The loop must
   reach it where it has something to do; and if what comes out of the loop is delivered in turn, it must
   not be called again: a finally for a second time, or a catching although there was a value.
   */
  predicate AsPromised(early: seq<Handler>, k: nat, o: Outcome)
    requires k < |early|
  {
    var reached := k < Stop(early, o);
    var out := FirstEscape(early, o);
    var again := o.Value? && out.Some? && k < Stop(early, out.value);
    match early[k]
    case Then(_, _) => o.Value? ==> reached
    case Catching(_, _) => (o.StdError? ==> reached) && (again ==> !out.value.StdError?)
    case Finally(_, _) => reached != again
  }

  /**
   Dispatch of early handlers, exactly: once completion is over, each has been called as promised if and
   only if that condition holds.
   */
  lemma DispatchExactly(es: seq<Event>, k: nat)
    requires k < |Exec(Init(), es).early| && Settled(Exec(Init(), es))
    ensures var s := Exec(Init(), es);
            Of(s.early[k], s.invoked) == Promised(s.early[k], s.first.value) <==> AsPromised(s.early, k, s.first.value)
  {
    hide Step, Exec, Of;
    var s := Exec(Init(), es);
    EarlyDispatch(es, k);
    Invariant(es);
    SecondIsFirstEscape(s);
    EscapesAreErrors(s.early, s.first.value);
    hide Inv, Stop, FirstEscape;
  }

  lemma SecondIsFirstEscape(s: State)
    requires Inv(s) && Settled(s)
    ensures s.second == if s.first.value.Value? then FirstEscape(s.early, s.first.value) else None
  {
    hide FirstEscape, CallsMade, CallsOk, LateOk, LateOnce;
  }

  /**
   An exception that is not a std::exception comes out of the first then or catching it meets: all early
   callbacks are called once exactly when only finally handlers that do not throw stand before the last.
   */
  lemma NonStandardException(es: seq<Event>)
    requires var s := Exec(Init(), es); Settled(s) && s.first.value.OtherError?
    ensures var s := Exec(Init(), es);
            (forall h | h in s.early :: CalledOnce(s.calls, h))
            <==> (forall i | 0 <= i < |s.early| - 1 :: s.early[i].Finally? && s.early[i].body.Returns?)
  {
    hide Step, CalledOnce, Escape;
    var s := Exec(Init(), es);
    OnceInState(es);
    forall i | 0 <= i < |s.early| - 1
      ensures Escape(s.early[i], s.first.value).None? <==> s.early[i].Finally? && s.early[i].body.Returns?
    {
      EscapesExactly(s.early[i], s.first.value);
    }
  }

  // ----- a run in which completion does not keep its promise

  /**
   A finally handler throws while a value is returned: the coroutine catches it as its own exception, the
   result is replaced, the handler is called a second time, and its exception leaves unhandled_exception.
   */
  lemma CalledTwice(id: nat, code: nat, value: Payload)
    ensures var h := Finally(id, ThrowsStd(code));
            var s := Exec(Init(), [Register(h), Finish(Value(value)), Rethrow]);
            && Settled(s) && s.first == Some(Value(value)) && s.result == Some(StdError(code))
            && s.calls == [Call(h, Value(value)), Call(h, StdError(code))] && !CalledOnce(s.calls, h)
            && s.invoked == [Invocation(h, OfNothing), Invocation(h, OfNothing)] && s.crashed
  {
    var h := Finally(id, ThrowsStd(code));
    var es := [Register(h), Finish(Value(value)), Rethrow];
    assert es[..2][..1] == es[..1] && es[..1][..0] == [];
    OneThrows(h, Value(value));
    OneThrows(h, StdError(code));
    hide CallsMade, FirstEscape, Invoked;
    var s := Init().(callbacks := [h], early := [h]);
    assert Exec(Init(), es[..1]) == s;
    var t := Exec(Init(), es[..2]);
    assert t.rethrow == Some(StdError(code)) && t.callbacks == [h] && t.calls == [Call(h, Value(value))];
    var u := Exec(Init(), es);
    assert u.calls == [Call(h, Value(value)), Call(h, StdError(code))];
    assert u.calls[0].handler == u.calls[1].handler == h;
  }

  lemma OneThrows(h: Handler, o: Outcome)
    requires h.Finally? && h.body.ThrowsStd?
    ensures CallsMade([h], o) == [Call(h, o)] && FirstEscape([h], o) == Some(StdError(h.body.code))
    ensures Invoked([Call(h, o)]) == [Invocation(h, OfNothing)]
  {
    assert Stop([h], o) == 1;
    assert [Call(h, o)][..0] == [];
  }
}
