/**
 A chain of tasks, each awaiting the next and returning what it got: src/task/TaskAwaiter.h on top of
 the completion of src/task/TaskPromise.h. Task 0 is the outermost, the last one the innermost.

 To await is to register a finally callback with the awaited task, whichever way the race with its
 completion goes; the callback dispatches a resume without a result, and the resume reads the awaited
 task's result when it runs.

 The awaiter owns the awaited task. When the resume lets an exception out, unwinding destroys the awaiter
 and with it the task, whose destructor fetches the result once more: it throws the same exception, a
 destructor may not, and the process terminates.
 */
module AwaitChain {
  import opened Sequences
  import opened PromiseMachine

  datatype Stage =
    | Running     // has not reached its co_await
    | Listening   // its callback is with the awaited task
    | Notified    // found the awaited task complete; its callback has yet to be called
    | Posted      // its resume is with the executor
    | Resumed

  /**
   Stage i is that of task i, which awaits task i + 1; the last task awaits nobody. The last two fields
   say that a resume has found the awaited result missing, and that the process is no more.
   */
  datatype Chain = Chain(results: seq<Option<Outcome>>, stages: seq<Stage>, unset: bool, terminated: bool)

  datatype Move = Suspend(task: nat) | CallBack(task: nat) | Resume(task: nat) | Innermost(outcome: Outcome)

  ghost predicate WellFormed(c: Chain) {
    |c.results| == |c.stages| + 1
  }

  function Start(n: nat): Chain {
    Chain(seq(n + 1, _ => None), seq(n, _ => Running), false, false)
  }

  /** Completing a task calls back the task that listens to it. */
  function Complete(c: Chain, i: nat, o: Outcome): Chain
    requires |c.results| == |c.stages| + 1 && i < |c.results|
  {
    var d := c.(results := c.results[i := Some(o)]);
    if i > 0 && c.stages[i - 1].Listening? then d.(stages := c.stages[i - 1 := Posted]) else d
  }

  function Advance(c: Chain, m: Move): Chain
    requires |c.results| == |c.stages| + 1
  {
    if c.terminated then c
    else match m
    case Suspend(i) =>
      if i < |c.stages| && c.stages[i].Running? then
        c.(stages := c.stages[i := if c.results[i + 1].Some? then Notified else Listening])
      else c
    case CallBack(i) =>
      if i < |c.stages| && c.stages[i].Notified? then c.(stages := c.stages[i := Posted]) else c
    case Resume(i) =>
      if i < |c.stages| && c.stages[i].Posted? then
        var d := c.(stages := c.stages[i := Resumed]);
        if c.results[i + 1].None? then d.(unset := true)
        else if c.results[i + 1].value.Value? then Complete(d, i, c.results[i + 1].value)
        else d.(terminated := true)
      else c
    case Innermost(o) =>
      if c.results[|c.stages|].None? then Complete(c, |c.stages|, o) else c
  }

  function Play(n: nat, ms: seq<Move>): (c: Chain)
    ensures |c.stages| == n && |c.results| == n + 1
  {
    if ms == [] then Start(n) else Advance(Play(n, ms[..|ms| - 1]), ms[|ms| - 1])
  }

  /**
   A stage past the race means the awaited task is complete; listening means it is not; complete oneself
   means resumed with a value.
   */
  ghost predicate StageOk(c: Chain, i: nat)
    requires WellFormed(c) && i < |c.stages|
  {
    && (c.stages[i].Listening? ==> c.results[i + 1].None?)
    && (c.stages[i] in {Notified, Posted, Resumed} ==> c.results[i + 1].Some?)
    && (c.stages[i].Resumed? && !c.terminated ==> c.results[i].Some?)
    && (c.results[i].Some? ==> c.stages[i].Resumed? && c.results[i] == c.results[i + 1] && c.results[i].value.Value?)
  }

  /** Only the task that awaits the innermost one can be resumed with an exception. */
  ghost predicate TerminatedOk(c: Chain)
    requires WellFormed(c)
  {
    var n := |c.stages|;
    c.terminated ==> n > 0 && c.results[n].Some? && !c.results[n].value.Value?
  }

  ghost predicate ChainOk(c: Chain) {
    WellFormed(c) && !c.unset && TerminatedOk(c) && forall i | 0 <= i < |c.stages| :: StageOk(c, i)
  }

  lemma AdvanceKeeps(c: Chain, m: Move)
    requires ChainOk(c)
    ensures ChainOk(Advance(c, m))
  {
    var d := Advance(c, m);
    if m.Resume? && m.task < |c.stages| {
      assert StageOk(c, m.task);
      assert m.task + 1 < |c.stages| ==> StageOk(c, m.task + 1);
    }
    forall i | 0 <= i < |d.stages| ensures StageOk(d, i) {
      assert StageOk(c, i);
      if i + 1 < |c.stages| {
        assert StageOk(c, i + 1);
      }
    }
  }

  lemma {:induction false} Invariant(n: nat, ms: seq<Move>)
    ensures ChainOk(Play(n, ms))
  {
    if ms != [] {
      Invariant(n, ms[..|ms| - 1]);
      AdvanceKeeps(Play(n, ms[..|ms| - 1]), ms[|ms| - 1]);
    }
  }

  /**
   However the tasks, callbacks and resumes interleave, no resume ever finds the awaited result missing;
   a task that has completed has the outcome of the innermost one; and a task that awaits another can
   only have completed with a value.
   */
  lemma OutcomeTravels(n: nat, ms: seq<Move>, i: nat)
    requires i <= n
    ensures var c := Play(n, ms);
            && !c.unset
            && (c.results[i].Some? ==> c.results[n] == c.results[i] && (i < n ==> c.results[i].value.Value?))
  {
    Invariant(n, ms);
    if Play(n, ms).results[i].Some? {
      if i < n {
        assert StageOk(Play(n, ms), i);
      }
      Down(Play(n, ms), i);
    }
  }

  lemma {:induction false} Down(c: Chain, i: nat)
    requires ChainOk(c) && i <= |c.stages| && c.results[i].Some?
    ensures c.results[|c.stages|] == c.results[i]
    decreases |c.stages| - i
  {
    if i < |c.stages| {
      assert StageOk(c, i);
      Down(c, i + 1);
    }
  }

  // ----- every chain finishes

  /** No task has anything left to do. */
  ghost predicate Stuck(c: Chain)
    requires WellFormed(c)
  {
    forall i | 0 <= i < |c.stages| :: Advance(c, Suspend(i)) == c && Advance(c, CallBack(i)) == c
        && Advance(c, Resume(i)) == c
  }

  function Weight(s: Stage): nat {
    match s
    case Running => 4
    case Listening => 3
    case Notified => 2
    case Posted => 1
    case Resumed => 0
  }

  function WorkLeft(stages: seq<Stage>): nat {
    if stages == [] then 0 else WorkLeft(stages[..|stages| - 1]) + Weight(stages[|stages| - 1])
  }

  lemma {:induction false} OneStageLess(a: seq<Stage>, i: nat, x: Stage)
    requires i < |a|
    ensures WorkLeft(a[i := x]) + Weight(a[i]) == WorkLeft(a) + Weight(x)
  {
    var n := |a| - 1;
    if i == n {
      assert a[i := x][..n] == a[..n];
    } else {
      assert a[i := x][..n] == a[..n][i := x];
      OneStageLess(a[..n], i, x);
    }
  }

  /** Every move of a task that changes anything leaves less work; so do what they may, the moves run out. */
  lemma MovesRunOut(c: Chain, m: Move)
    requires ChainOk(c) && !m.Innermost? && Advance(c, m) != c
    ensures WorkLeft(Advance(c, m).stages) < WorkLeft(c.stages)
  {
    var i := m.task;
    var d := Advance(c, m);
    OneStageLess(c.stages, i, d.stages[i]);
    if m.Resume? {
      assert StageOk(c, i);
      if i > 0 && c.stages[i - 1].Listening? {
        OneStageLess(c.stages[i := Resumed], i - 1, Posted);
      }
    }
  }

  /**
   What becomes of a chain whose moves have run out and whose innermost task is complete: all tasks are
   complete with the innermost outcome if and only if nobody awaits it or it is a value. Otherwise the
   process has terminated, and no task but the innermost has ever completed.
   */
  lemma CompletesExactly(n: nat, ms: seq<Move>)
    requires Play(n, ms).results[n].Some? && Stuck(Play(n, ms))
    ensures var c := Play(n, ms);
            var good := n == 0 || c.results[n].value.Value?;
            && ((forall i | 0 <= i <= n :: c.results[i] == c.results[n]) <==> good)
            && (c.terminated <==> !good)
            && (!good ==> forall i | 0 <= i < n :: c.results[i].None?)
  {
    Invariant(n, ms);
    var c := Play(n, ms);
    if n == 0 || c.results[n].value.Value? {
      forall i | 0 <= i <= n ensures c.results[i] == c.results[n] {
        Up(c, i);
        Down(c, i);
      }
    } else {
      forall i | 0 <= i < n ensures c.results[i].None? {
        OutcomeTravels(n, ms, i);
      }
      if !c.terminated {
        assert StageOk(c, n - 1);
        MovesOn(c, n - 1);
      }
      assert c.results[0] != c.results[n];
    }
  }

  /** A task that is not through, and whose awaited task is complete, has a move. */
  lemma MovesOn(c: Chain, i: nat)
    requires ChainOk(c) && !c.terminated && i < |c.stages| && c.results[i + 1].Some?
    ensures c.stages[i].Running? ==> Advance(c, Suspend(i)).stages[i] == Notified
    ensures c.stages[i].Notified? ==> Advance(c, CallBack(i)).stages[i] == Posted
    ensures c.stages[i].Posted? ==> Advance(c, Resume(i)).stages[i] == Resumed
    ensures !c.stages[i].Listening?
  {
    assert StageOk(c, i);
  }

  lemma {:induction false} Up(c: Chain, i: nat)
    requires ChainOk(c) && !c.terminated && Stuck(c) && i <= |c.stages| && c.results[|c.stages|].Some?
    ensures c.results[i].Some?
    decreases |c.stages| - i
  {
    if i < |c.stages| {
      Up(c, i + 1);
      assert StageOk(c, i);
      MovesOn(c, i);
    }
  }

  /** One task awaits another that throws: the process terminates, and the awaiting task never completes. */
  lemma ExceptionTerminates(code: nat)
    ensures var c := Play(1, [Suspend(0), Innermost(StdError(code)), Resume(0)]);
            c.terminated && c.results == [None, Some(StdError(code))] && Stuck(c)
  {
    var ms := [Suspend(0), Innermost(StdError(code)), Resume(0)];
    assert ms[..2][..1] == ms[..1] && ms[..1][..0] == [];
    hide Advance;
    assert Play(1, []) == Start(1);
    assert Play(1, ms[..1]) == Advance(Start(1), Suspend(0));
    assert Play(1, ms[..2]) == Advance(Play(1, ms[..1]), Innermost(StdError(code)));
    assert Play(1, ms) == Advance(Play(1, ms[..2]), Resume(0));
    OneLink(code);
  }

  lemma OneLink(code: nat)
    ensures var c := Advance(Advance(Advance(Start(1), Suspend(0)), Innermost(StdError(code))), Resume(0));
            c.terminated && c.results == [None, Some(StdError(code))] && Stuck(c)
  {
  }
}
