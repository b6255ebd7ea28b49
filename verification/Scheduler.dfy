/**
 The timed queue of src/task/Scheduler.h: one worker, any number of clients, a lock, a condition
 variable that is notified only when it seems needed, and a clock that never goes back.

 A step is one critical section, or the part of one between two readings of the clock; the clock may
 tick between any two steps. A wait may end at any time: by a notification, spuriously, or because it
 timed out. As the standard has it, a timed wait reports a timeout when its deadline has passed by the
 time it has the lock again.
 */
module SchedulerMachine {
  import opened Sequences

  /** What is due, and when. The id stands for the function to call. */
  datatype Item = Item(id: nat, time: int)

  /** A priority queue: an item none of the others is due before, and the others. */
  datatype Heap = Empty | Node(top: Item, rest: set<Item>)

  datatype Lock = Unlocked | ByWorker | ByClient(delay: int, need: bool)

  datatype Pc =
    | LoopHead
    | WantLock
    | UntimedWait
    | WokenUntimed
    | Deciding(saved: Item, delay: int)
    | TimedWait(saved: Item, deadline: int)
    | WokenTimed(saved: Item, deadline: int)
    | Executing
    | Exited

  /** The last six fields are a history: the program keeps none of them. */
  datatype State = State(
    now: int,
    active: bool,
    queue: Heap,
    lock: Lock,
    pc: Pc,
    owed: nat,            // clients that have pushed and have yet to notify
    nextId: nat,
    accepted: set<Item>,
    executed: seq<Item>,
    cleared: set<Item>,   // thrown away by a shutdown that does not wait
    lost: set<Item>,      // popped without being executed
    undefined: bool,      // an empty queue was popped
    disturbed: bool       // since the timed wait began, an item due earlier came in, or the queue was cleared
  )

  datatype Event =
    | Tick
    | LoopTest
    | LockAndLook
    | Decide(next: Item)
    | Wake
    | RelockUntimed
    | RelockTimed(next: Item)
    | Done
    | ClientLock(delay: int)
    | ClientPush
    | Notify
    | Flag
    | Clear
    | NotifyAll

  function Items(q: Heap): set<Item> {
    if q.Empty? then {} else {q.top} + q.rest
  }

  function Push(q: Heap, x: Item): Heap {
    if q.Empty? then Node(x, {})
    else if x.time < q.top.time then Node(x, q.rest + {q.top})
    else Node(q.top, q.rest + {x})
  }

  /** Popping leaves any of the earliest others on top; next says which. */
  predicate CanPop(q: Heap, next: Item) {
    && q.Node?
    && (q.rest == {} || (next in q.rest && forall y | y in q.rest :: next.time <= y.time))
  }

  function Pop(q: Heap, next: Item): Heap
    requires CanPop(q, next)
  {
    if q.rest == {} then Empty else Node(next, q.rest - {next})
  }

  function Clamp(delay: int): int { if delay < 0 then 0 else delay }

  function NeedNotify(q: Heap, now: int, delay: int): bool {
    q.Empty? || q.top.time - now > delay
  }

  function Woken(pc: Pc): Pc {
    match pc
    case UntimedWait => WokenUntimed
    case TimedWait(saved, deadline) => WokenTimed(saved, deadline)
    case _ => pc
  }

  predicate InTimedWait(pc: Pc) { pc.TimedWait? || pc.WokenTimed? }

  function Look(s: State): State {
    if s.queue.Empty? then s.(pc := if s.pc.WantLock? then UntimedWait else LoopHead)
    else s.(pc := Deciding(s.queue.top, s.queue.top.time - s.now), lock := ByWorker)
  }

  function Init(now: int): State {
    State(now, true, Empty, Unlocked, LoopHead, 0, 0, {}, [], {}, {}, false, false)
  }

  /** One step. An event that cannot happen in s leaves s as it is. */
  function Step(s: State, e: Event): State {
    match e
    case Tick => s.(now := s.now + 1)
    case LoopTest =>
      if s.pc.LoopHead? then s.(pc := if s.active || s.queue.Node? then WantLock else Exited) else s
    case LockAndLook =>
      if s.pc.WantLock? && s.lock.Unlocked? then Look(s) else s
    case RelockUntimed =>
      if s.pc.WokenUntimed? && s.lock.Unlocked? then Look(s) else s
    case Decide(next) =>
      if s.pc.Deciding? && s.pc.delay > 0 then
        s.(pc := TimedWait(s.pc.saved, s.now + s.pc.delay), lock := Unlocked, disturbed := false)
      else if s.pc.Deciding? && CanPop(s.queue, next) then
        s.(queue := Pop(s.queue, next), executed := s.executed + [s.pc.saved], pc := Executing, lock := Unlocked)
      else s
    case Wake => s.(pc := Woken(s.pc))
    case RelockTimed(next) =>
      if s.pc.WokenTimed? && s.lock.Unlocked? then
        if s.now < s.pc.deadline then s.(pc := LoopHead)
        else if s.queue.Empty? then
          s.(undefined := true, executed := s.executed + [s.pc.saved], pc := Executing)
        else if CanPop(s.queue, next) then
          s.(queue := Pop(s.queue, next), executed := s.executed + [s.pc.saved], pc := Executing,
             lost := s.lost + if s.queue.top == s.pc.saved then {} else {s.queue.top})
        else s
      else s
    case Done => if s.pc.Executing? then s.(pc := LoopHead) else s
    case ClientLock(delay) =>
      if s.lock.Unlocked? && s.active then
        s.(lock := ByClient(Clamp(delay), NeedNotify(s.queue, s.now, Clamp(delay))))
      else s
    case ClientPush =>
      if s.lock.ByClient? then
        var x := Item(s.nextId, s.now + s.lock.delay);
        s.(queue := Push(s.queue, x), accepted := s.accepted + {x}, nextId := s.nextId + 1, lock := Unlocked,
           owed := s.owed + if s.lock.need then 1 else 0,
           disturbed := s.disturbed || (InTimedWait(s.pc) && x.time < s.pc.saved.time))
      else s
    case Notify => if s.owed > 0 then s.(owed := s.owed - 1, pc := Woken(s.pc)) else s
    case Flag => s.(active := false)
    case Clear =>
      if s.lock.Unlocked? && !s.active then
        s.(queue := Empty, cleared := s.cleared + Items(s.queue), disturbed := s.disturbed || InTimedWait(s.pc))
      else s
    case NotifyAll => s.(pc := Woken(s.pc))
  }

  function Exec(s: State, es: seq<Event>): State {
    if es == [] then s else Step(Exec(s, es[..|es| - 1]), es[|es| - 1])
  }

  // ----- what every run keeps

  ghost predicate HeapOk(q: Heap) {
    q.Node? ==> q.top !in q.rest && forall y | y in q.rest :: q.top.time <= y.time
  }

  ghost predicate NeverEarly(s: State) {
    forall x | x in s.executed :: x.time <= s.now
  }

  /** If the worker sleeps although something should wake it, some client still owes it a notification. */
  ghost predicate NoLostWakeUp(s: State) {
    && (s.pc.UntimedWait? && Items(s.queue) != {} ==> s.owed > 0)
    && (s.pc.TimedWait? && (exists x :: x in Items(s.queue) && x.time < s.pc.saved.time) ==> s.owed > 0)
  }

  /** What has been pending all along and has not been executed. */
  ghost predicate Fresh(s: State) {
    forall x | x in s.executed :: x !in Items(s.queue)
  }

  ghost predicate LockOk(s: State) {
    && (s.lock.ByWorker? <==> s.pc.Deciding?)
    && (s.lock.ByClient? ==> s.lock.delay >= 0)
    && (s.lock.ByClient? && !s.lock.need ==> s.queue.Node? && s.queue.top.time <= s.now + s.lock.delay)
  }

  ghost predicate WorkerOk(s: State) {
    && (s.pc.Deciding? ==>
          && s.queue.Node? && s.queue.top == s.pc.saved
          && s.pc.saved.time <= s.now + s.pc.delay
          && (s.pc.delay > 0 ==> Fresh(s)))
    && (InTimedWait(s.pc) ==>
          && s.pc.saved.time <= s.pc.deadline
          && s.pc.saved in s.accepted && s.pc.saved !in s.lost
          && Fresh(s)
          && (s.disturbed <==> !(s.queue.Node? && s.queue.top == s.pc.saved)))
  }

  ghost predicate SetsOk(s: State) {
    && (forall x | x in s.accepted :: x.id < s.nextId)
    && Items(s.queue) <= s.accepted && s.cleared <= s.accepted && s.lost <= s.accepted
    && (forall x | x in s.executed :: x in s.accepted && x !in s.lost)
    && Items(s.queue) !! s.cleared && Items(s.queue) !! s.lost && s.cleared !! s.lost
  }

  ghost predicate Inv(s: State) {
    HeapOk(s.queue) && NeverEarly(s) && LockOk(s) && WorkerOk(s) && SetsOk(s) && NoLostWakeUp(s)
  }

  lemma PushItems(q: Heap, x: Item)
    requires HeapOk(q) && x !in Items(q)
    ensures HeapOk(Push(q, x)) && Items(Push(q, x)) == Items(q) + {x}
    ensures q.Node? ==> Push(q, x).top == if x.time < q.top.time then x else q.top
  {
  }

  lemma PopItems(q: Heap, next: Item)
    requires HeapOk(q) && CanPop(q, next)
    ensures HeapOk(Pop(q, next)) && Items(Pop(q, next)) == Items(q) - {q.top}
  {
  }

  /** Popping: one item fewer is pending, and the worker has run the one it saved. */
  lemma PopKeeps(s: State, t: State, next: Item)
    requires Inv(s) && CanPop(s.queue, next)
    requires s.pc.Deciding? || s.pc.WokenTimed?
    requires s.pc.Deciding? ==> s.pc.delay <= 0
    requires s.pc.WokenTimed? ==> s.now >= s.pc.deadline && s.lock.Unlocked?
    requires t == s.(queue := Pop(s.queue, next), executed := s.executed + [s.pc.saved], pc := Executing,
              lock := Unlocked,
                     lost := s.lost + if s.queue.top == s.pc.saved then {} else {s.queue.top})
    ensures Inv(t)
  {
    PopItems(s.queue, next);
    hide Pop, CanPop;
    assert t.lost <= t.accepted && forall x | x in t.executed :: x in t.accepted && x !in t.lost;
  }

  lemma WaitKeeps(s: State, e: Event)
    requires Inv(s) && e.Decide? && s.pc.Deciding? && s.pc.delay > 0
    ensures Inv(Step(s, e))
  {
  }

  lemma WorkerStepKeeps(s: State, e: Event)
    requires Inv(s) && (e.Decide? || e.RelockTimed?)
    ensures Inv(Step(s, e))
  {
    var t := Step(s, e);
    if e.Decide? && s.pc.Deciding? && s.pc.delay > 0 {
      WaitKeeps(s, e);
    } else if t.executed != s.executed && s.queue.Node? {
      hide Inv;
      SavedOnTop(s);
      assert s.lost + {} == s.lost;
      PopKeeps(s, t, e.next);
    } else if t != s {
      LeavesQueueKeeps(s, e);
    }
  }

  /** The worker starts over, or pops an empty queue. */
  lemma LeavesQueueKeeps(s: State, e: Event)
    requires Inv(s) && e.RelockTimed? && (Step(s, e).executed == s.executed || s.queue.Empty?)
    ensures Inv(Step(s, e))
  {
    hide Pop, CanPop;
  }

  lemma SavedOnTop(s: State)
    requires Inv(s)
    ensures s.pc.Deciding? ==> s.queue.Node? && s.queue.top == s.pc.saved
  {
  }

  lemma PushKeeps(s: State)
    requires Inv(s)
    ensures Inv(Step(s, ClientPush))
  {
    if s.lock.ByClient? {
      PushItems(s.queue, Item(s.nextId, s.now + s.lock.delay));
    }
  }

  lemma LookKeeps(s: State, e: Event)
    requires Inv(s) && (e.LockAndLook? || e.RelockUntimed?)
    ensures Inv(Step(s, e))
  {
  }

  lemma ClearKeeps(s: State)
    requires Inv(s)
    ensures Inv(Step(s, Clear))
  {
  }

  lemma StepKeeps(s: State, e: Event)
    requires Inv(s)
    ensures Inv(Step(s, e))
  {
    if e.Decide? || e.RelockTimed? {
      WorkerStepKeeps(s, e);
    } else if e.ClientPush? {
      PushKeeps(s);
    } else if e.LockAndLook? || e.RelockUntimed? {
      LookKeeps(s, e);
    } else if e.Clear? {
      ClearKeeps(s);
    }
  }

  /** Holds of every run, however the clients, the clock and the worker interleave. */
  lemma {:induction false} Invariant(now: int, es: seq<Event>)
    ensures Inv(Exec(Init(now), es))
  {
    hide Step;
    if es != [] {
      hide Inv;
      Invariant(now, es[..|es| - 1]);
      StepKeeps(Exec(Init(now), es[..|es| - 1]), es[|es| - 1]);
    }
  }

  // ----- runs in which nothing goes wrong

  /** Every accepted item is in exactly one place: pending, executed, or cleared; and none is executed twice. */
  ghost predicate Ledger(s: State) {
    && !s.undefined
    && Distinct(s.executed)
    && s.accepted == Items(s.queue) + (set x | x in s.executed) + s.cleared
    && (forall x | x in s.executed :: x !in Items(s.queue) && x !in s.cleared)
    && Items(s.queue) !! s.cleared
  }

  /** Executed in order of scheduled time, and nothing pending is due before anything executed. */
  ghost predicate TimeOrder(s: State) {
    && (forall i, j | 0 <= i < j < |s.executed| :: s.executed[i].time <= s.executed[j].time)
    && (forall x, y | x in s.executed && y in Items(s.queue) :: x.time <= y.time)
  }

  /**
   A timed wait that ends with a timeout although it was disturbed: the one case in which the code pops
   another item than it runs.
   */
  ghost predicate BadTimeout(s: State, e: Event) {
    && e.RelockTimed? && s.pc.WokenTimed? && s.lock.Unlocked?
    && s.now >= s.pc.deadline && s.disturbed
    && (s.queue.Empty? || CanPop(s.queue, e.next))
  }

  ghost predicate HasBadTimeout(s: State, es: seq<Event>) {
    exists i :: 0 <= i < |es| && BadTimeout(Exec(s, es[..i]), es[i])
  }

  /** In a clean run the worker runs the item it pops, the one on top. */
  lemma RunsTop(s: State, e: Event)
    requires Inv(s) && !BadTimeout(s, e) && (e.Decide? || e.RelockTimed?)
    requires Step(s, e).executed != s.executed
    ensures CanPop(s.queue, e.next) && s.pc.saved == s.queue.top
    ensures Step(s, e) == s.(queue := Pop(s.queue, e.next), executed := s.executed + [s.queue.top], pc := Executing,
              lock := Unlocked)
  {
  }

  lemma TopMoves(s: State, t: State, next: Item)
    requires Ledger(s) && TimeOrder(s) && HeapOk(s.queue) && CanPop(s.queue, next)
    requires t == s.(queue := Pop(s.queue, next), executed := s.executed + [s.queue.top], pc := t.pc, lock := t.lock)
    ensures Ledger(t) && TimeOrder(t)
  {
    PopItems(s.queue, next);
    assert (set x | x in t.executed) == (set x | x in s.executed) + {s.queue.top};
  }

  lemma AcceptsLater(s: State)
    requires Inv(s) && Ledger(s) && TimeOrder(s)
    ensures Ledger(Step(s, ClientPush)) && TimeOrder(Step(s, ClientPush))
  {
    if s.lock.ByClient? {
      PushItems(s.queue, Item(s.nextId, s.now + s.lock.delay));
    }
  }

  lemma CleanStepKeeps(s: State, e: Event)
    requires Inv(s) && Ledger(s) && TimeOrder(s) && !BadTimeout(s, e)
    ensures Ledger(Step(s, e)) && TimeOrder(Step(s, e))
  {
    if e.ClientPush? {
      AcceptsLater(s);
    } else if (e.Decide? || e.RelockTimed?) && Step(s, e).executed != s.executed {
      RunsTop(s, e);
      TopMoves(s, Step(s, e), e.next);
    } else {
      ElseLedger(s, e);
    }
  }

  lemma ElseLedger(s: State, e: Event)
    requires Ledger(s) && TimeOrder(s) && !e.ClientPush?
    requires (e.Decide? || e.RelockTimed?) ==> Step(s, e).executed == s.executed
    ensures Ledger(Step(s, e)) && TimeOrder(Step(s, e))
  {
    if e.Clear? {
      assert Step(s, e).executed == s.executed;
    } else {
      assert SameItems(s, Step(s, e));
    }
  }

  ghost predicate SameItems(s: State, t: State) {
    && t.queue == s.queue && t.executed == s.executed && t.accepted == s.accepted && t.cleared == s.cleared
    && t.undefined == s.undefined
  }

  /** A run has gone wrong when an item was popped without being run, or an empty queue was popped. It stays wrong. */
  ghost predicate Wrong(s: State) { s.undefined || s.lost != {} }

  lemma WrongIsNoLedger(s: State)
    requires Inv(s) && Wrong(s)
    ensures !Ledger(s)
  {
    if !s.undefined {
      var x :| x in s.lost;
      assert x in s.accepted && x !in Items(s.queue) && x !in s.executed && x !in s.cleared;
      assert x !in Items(s.queue) + (set y | y in s.executed) + s.cleared;
    }
  }

  lemma WrongForGood(s: State, e: Event)
    ensures Wrong(s) ==> Wrong(Step(s, e))
    ensures Inv(s) && BadTimeout(s, e) ==> Wrong(Step(s, e))
  {
  }

  /**
   Conservation, exactly: in every run, the accepted items are the disjoint union of the pending, the
   executed and the cleared ones, each executed once, if and only if no disturbed timed wait ended with
   a timeout. In such runs the items are executed in order of their scheduled times, including items
   that came in after earlier ones had run.
   */
  lemma {:induction false} LedgerExactly(now: int, es: seq<Event>)
    ensures Ledger(Exec(Init(now), es)) <==> !HasBadTimeout(Init(now), es)
    ensures !HasBadTimeout(Init(now), es) ==> TimeOrder(Exec(Init(now), es))
    ensures HasBadTimeout(Init(now), es) ==> Wrong(Exec(Init(now), es))
  {
    hide Step, BadTimeout, Inv, Ledger, TimeOrder, Wrong;
    Invariant(now, es);
    if es == [] {
      StartsClean(now);
    } else {
      var front, e := es[..|es| - 1], es[|es| - 1];
      var s := Exec(Init(now), front);
      LedgerExactly(now, front);
      Invariant(now, front);
      LastEventDecides(Init(now), es);
      WrongForGood(s, e);
      if !HasBadTimeout(Init(now), es) {
        CleanStepKeeps(s, e);
      }
    }
    if Wrong(Exec(Init(now), es)) {
      WrongIsNoLedger(Exec(Init(now), es));
    }
  }

  lemma StartsClean(now: int)
    ensures Ledger(Init(now)) && TimeOrder(Init(now)) && !Wrong(Init(now))
  {
  }

  lemma LastEventDecides(s: State, es: seq<Event>)
    requires es != []
    ensures HasBadTimeout(s, es) <==>
              HasBadTimeout(s, es[..|es| - 1]) || BadTimeout(Exec(s, es[..|es| - 1]), es[|es| - 1])
  {
    hide Step, BadTimeout;
    var front := es[..|es| - 1];
    assert forall i | 0 <= i < |front| :: front[..i] == es[..i] && front[i] == es[i];
    if HasBadTimeout(s, front) {
      var i :| 0 <= i < |front| && BadTimeout(Exec(s, front[..i]), front[i]);
      assert BadTimeout(Exec(s, es[..i]), es[i]);
    }
  }

  // ----- what disturbs a timed wait

  /** A push of an item due earlier than the one the worker sleeps for, or a clear. */
  predicate Disturbs(saved: Item, s: State, e: Event) {
    || (e.ClientPush? && s.lock.ByClient? && s.now + s.lock.delay < saved.time)
    || (e.Clear? && s.lock.Unlocked? && !s.active)
  }

  /**
   The mark on a timed wait is exact: while the worker is in the wait, it is set if and only if an item
   due earlier was pushed, or the queue cleared, since the wait began; and the item slept for is still
   on top if and only if it is not set.
   */
  lemma {:induction false} DisturbedExactly(s: State, es: seq<Event>)
    requires Inv(s) && s.pc.TimedWait? && !s.disturbed
    requires forall i | 0 <= i <= |es| :: InTimedWait(Exec(s, es[..i]).pc)
    ensures Inv(Exec(s, es)) && InTimedWait(Exec(s, es).pc) && Exec(s, es).pc.saved == s.pc.saved
    ensures Exec(s, es).disturbed <==> WasDisturbed(s, es)
    ensures WasDisturbed(s, es) <==> !(Exec(s, es).queue.Node? && Exec(s, es).queue.top == s.pc.saved)
  {
    hide Inv, Step, Disturbs;
    assert es[..|es|] == es;
    if es != [] {
      var front, e := es[..|es| - 1], es[|es| - 1];
      assert forall i | 0 <= i <= |front| :: front[..i] == es[..i];
      DisturbedExactly(s, front);
      StepKeeps(Exec(s, front), e);
      WaitStep(Exec(s, front), e);
      LastDisturbs(s, es);
    }
    WaitMark(Exec(s, es));
  }

  ghost predicate WasDisturbed(s: State, es: seq<Event>)
    requires s.pc.TimedWait?
  {
    exists i :: 0 <= i < |es| && Disturbs(s.pc.saved, Exec(s, es[..i]), es[i])
  }

  lemma WaitStep(s: State, e: Event)
    requires InTimedWait(s.pc) && InTimedWait(Step(s, e).pc)
    ensures Step(s, e).pc.saved == s.pc.saved
    ensures Step(s, e).disturbed <==> s.disturbed || Disturbs(s.pc.saved, s, e)
  {
  }

  lemma LastDisturbs(s: State, es: seq<Event>)
    requires s.pc.TimedWait? && es != []
    ensures WasDisturbed(s, es) <==>
              WasDisturbed(s, es[..|es| - 1]) || Disturbs(s.pc.saved, Exec(s, es[..|es| - 1]), es[|es| - 1])
  {
    hide Step, Disturbs;
    var front := es[..|es| - 1];
    assert forall i | 0 <= i < |front| :: front[..i] == es[..i] && front[i] == es[i];
    if WasDisturbed(s, front) {
      var i :| 0 <= i < |front| && Disturbs(s.pc.saved, Exec(s, front[..i]), front[i]);
      assert Disturbs(s.pc.saved, Exec(s, es[..i]), es[i]);
    }
  }

  lemma WaitMark(s: State)
    requires Inv(s) && InTimedWait(s.pc)
    ensures s.disturbed <==> !(s.queue.Node? && s.queue.top == s.pc.saved)
  {
  }

  // ----- what holds of every run, disturbed or not

  /** Nothing runs before its scheduled time. */
  lemma NeverExecutedEarly(now: int, es: seq<Event>)
    ensures var s := Exec(Init(now), es); forall x | x in s.executed :: x.time <= s.now
  {
    hide Step;
    Invariant(now, es);
  }

  /** The delay asked for by the client that took the lock last. */
  function AskedBy(now: int, es: seq<Event>): int {
    if es == [] then 0
    else
      var front, e := es[..|es| - 1], es[|es| - 1];
      var s := Exec(Init(now), front);
      if e.ClientLock? && s.lock.Unlocked? && s.active then e.delay else AskedBy(now, front)
  }

  /**
   For every insertion of the run, by its number: the clock at the push, plus the delay asked for if it is
   not negative.
   */
  function Wanted(now: int, es: seq<Event>): map<nat, int> {
    if es == [] then map[]
    else
      var front, e := es[..|es| - 1], es[|es| - 1];
      var s := Exec(Init(now), front);
      if e.ClientPush? && s.lock.ByClient? then
        Wanted(now, front)[s.nextId := s.now + if AskedBy(now, front) < 0 then 0 else AskedBy(now, front)]
      else Wanted(now, front)
  }

  /** The items are the insertions, each due when its caller wanted it. */
  ghost predicate AsWanted(s: State, wanted: map<nat, int>) {
    && (forall x | x in s.accepted :: x.id in wanted && x.time == wanted[x.id])
    && (forall id: nat | id in wanted :: id < s.nextId && Item(id, wanted[id]) in s.accepted)
  }

  /** While a client holds the lock, its delay is the one asked for, or none if that is negative. */
  ghost predicate DelayAsked(s: State, asked: int) {
    s.lock.ByClient? ==> s.lock.delay == if asked < 0 then 0 else asked
  }

  lemma LockKeepsDelay(s: State, e: Event, asked: int)
    requires LockOk(s) && DelayAsked(s, asked)
    ensures DelayAsked(Step(s, e), if e.ClientLock? && s.lock.Unlocked? && s.active then e.delay else asked)
  {
  }

  lemma PushAsWanted(s: State, asked: int, wanted: map<nat, int>)
    requires SetsOk(s) && DelayAsked(s, asked) && AsWanted(s, wanted) && s.lock.ByClient?
    ensures AsWanted(Step(s, ClientPush), wanted[s.nextId := s.now + if asked < 0 then 0 else asked])
  {
  }

  lemma ElseAsWanted(s: State, e: Event, wanted: map<nat, int>)
    requires AsWanted(s, wanted) && (!e.ClientPush? || !s.lock.ByClient?)
    ensures AsWanted(Step(s, e), wanted)
  {
    assert Step(s, e).accepted == s.accepted && Step(s, e).nextId == s.nextId;
  }

  /** The last event of a run, as the functions above see it. */
  lemma Unrolled(now: int, es: seq<Event>)
    requires es != []
    ensures var front, e := es[..|es| - 1], es[|es| - 1];
            var s := Exec(Init(now), front);
            var asked := AskedBy(now, front);
            && Exec(Init(now), es) == Step(s, e)
            && AskedBy(now, es) == (if e.ClientLock? && s.lock.Unlocked? && s.active then e.delay else asked)
            && Wanted(now, es) == (if e.ClientPush? && s.lock.ByClient?
                                   then Wanted(now, front)[s.nextId := s.now + if asked < 0 then 0 else asked]
                                   else Wanted(now, front))
  {
    hide Step;
  }

  lemma NothingWantedYet(now: int)
    ensures DelayAsked(Init(now), AskedBy(now, [])) && AsWanted(Init(now), Wanted(now, []))
    ensures Exec(Init(now), []) == Init(now)
  {
  }

  lemma {:induction false} DueAsWanted(now: int, es: seq<Event>)
    ensures var s := Exec(Init(now), es);
            DelayAsked(s, AskedBy(now, es)) && AsWanted(s, Wanted(now, es))
  {
    hide *;
    if es == [] {
      NothingWantedYet(now);
    } else {
      Unrolled(now, es);
      var front, e := es[..|es| - 1], es[|es| - 1];
      var s := Exec(Init(now), front);
      DueAsWanted(now, front);
      Invariant(now, front);
      InvParts(s);
      LockKeepsDelay(s, e, AskedBy(now, front));
      if e.ClientPush? && s.lock.ByClient? {
        PushAsWanted(s, AskedBy(now, front), Wanted(now, front));
      } else {
        ElseAsWanted(s, e, Wanted(now, front));
      }
    }
  }

  lemma InvParts(s: State)
    requires Inv(s)
    ensures LockOk(s) && SetsOk(s)
  {
  }

  /**
   The delay law: in every run, disturbed or not, the items accepted are exactly the insertions, each due
   the delay its caller asked for after the clock at its push; and none has been executed while the clock
   was before that.
   */
  lemma DelayIsHonoured(now: int, es: seq<Event>)
    ensures var s := Exec(Init(now), es);
            var wanted := Wanted(now, es);
            && (forall x | x in s.accepted :: x.id in wanted && x.time == wanted[x.id])
            && (forall id: nat | id in wanted :: Item(id, wanted[id]) in s.accepted)
            && (forall x | x in s.executed :: x.id in wanted && wanted[x.id] <= s.now)
  {
    hide Step, Exec;
    DueAsWanted(now, es);
    Invariant(now, es);
  }

  // ----- how the worker leaves

  /** The worker leaves its loop only with the flag down and nothing pending, and then it may. */
  lemma LeavesWhenDone(s: State, e: Event)
    ensures Step(s, e).pc.Exited? && !s.pc.Exited? ==> e.LoopTest? && !s.active && Items(s.queue) == {}
    ensures s.pc.LoopHead? && !s.active && Items(s.queue) == {} ==> Step(s, LoopTest).pc.Exited?
    ensures s.pc.Exited? ==> Step(s, e).pc.Exited?
  {
  }

  /** Everything that may come of a state in which the worker has left. */
  ghost predicate Left(s: State) { s.pc.Exited? && !s.active }

  lemma LeftStep(s: State, e: Event)
    requires Left(s)
    ensures Left(Step(s, e)) && Step(s, e).executed == s.executed
    ensures Step(s, e).lock.ByClient? <==> s.lock.ByClient? && !e.ClientPush?
    ensures s.accepted <= Step(s, e).accepted
    ensures !(s.lock.ByClient? && e.ClientPush?) ==> Step(s, e).accepted == s.accepted
    ensures s.lock.ByClient? && e.ClientPush? ==> Item(s.nextId, s.now + s.lock.delay) in Step(s, e).accepted
  {
  }

  /**
   What the worker leaves behind, exactly: once it has left, nothing is executed, and an item is accepted
   all the same if and only if a client was between its test of the flag and its push when the worker
   left. The loop tests the flag and the queue without the lock.
   */
  lemma {:induction false} LeftBehind(s: State, es: seq<Event>)
    requires Inv(s) && s.pc.Exited? && !s.active
    ensures var t := Exec(s, es);
            && t.executed == s.executed && t.pc.Exited? && !t.active
            && (t.accepted != s.accepted <==> s.lock.ByClient? && ClientPush in es)
  {
    LeftRun(s, es);
  }

  lemma {:induction false} LeftRun(s: State, es: seq<Event>)
    requires Inv(s) && Left(s)
    ensures var t := Exec(s, es);
            && Inv(t) && Left(t) && t.executed == s.executed && s.accepted <= t.accepted
            && (t.accepted != s.accepted <==> s.lock.ByClient? && ClientPush in es)
            && (t.lock.ByClient? <==> s.lock.ByClient? && ClientPush !in es)
  {
    hide *;
    LastStep(s, es);
    if es != [] {
      var front, e := es[..|es| - 1], es[|es| - 1];
      var t := Exec(s, front);
      LeftRun(s, front);
      StepKeeps(t, e);
      assert es == front + [e];
      LeftStep(t, e);
      if t.lock.ByClient? {
        NewItem(t);
      }
    }
  }

  lemma LastStep(s: State, es: seq<Event>)
    ensures es == [] ==> Exec(s, es) == s
    ensures es != [] ==> Exec(s, es) == Step(Exec(s, es[..|es| - 1]), es[|es| - 1])
  {
    hide Step;
  }

  lemma NewItem(s: State)
    requires Inv(s) && s.lock.ByClient?
    ensures Item(s.nextId, s.now + s.lock.delay) !in s.accepted
  {
  }

  /**
   Insertions lose no wake-up, although a client that finds an earlier item on top does not notify: if
   the worker sleeps untimed and something is pending, or sleeps for an item and something due earlier
   is pending, then some client still owes a notification, and paying it wakes the worker.
   */
  lemma InsertionsLoseNoWakeUp(now: int, es: seq<Event>)
    ensures var s := Exec(Init(now), es);
            && (s.pc.UntimedWait? && Items(s.queue) != {} ==> s.owed > 0)
            && (s.pc.TimedWait? && (exists x :: x in Items(s.queue) && x.time < s.pc.saved.time) ==> s.owed > 0)
            && (s.owed > 0 ==> !Step(s, Notify).pc.UntimedWait? && !Step(s, Notify).pc.TimedWait?)
  {
    Invariant(now, es);
  }

  /** A client that does not notify has pushed an item that the one already on top is due no later than. */
  lemma SilentPushIsNoEarlier(s: State)
    requires Inv(s) && s.lock.ByClient? && !s.lock.need
    ensures Step(s, ClientPush).queue.top == s.queue.top && s.queue.top.time <= s.now + s.lock.delay
  {
  }

  // ----- a run that goes wrong

  ghost predicate Reachable(s: State) {
    exists es :: Exec(Init(0), es) == s
  }

  lemma Then(s: State, e: Event) returns (t: State)
    requires Reachable(s)
    ensures t == Step(s, e) && Reachable(t)
  {
    var es :| Exec(Init(0), es) == s;
    assert (es + [e])[..|es|] == es;
    t := Exec(Init(0), es + [e]);
  }

  /** The worker sleeps for an item due at 2, at time 0; the client that pushed it has not notified yet. */
  lemma Asleep() returns (s: State)
    ensures Reachable(s)
    ensures s == Init(0).(queue := Node(Item(0, 2), {}), pc := TimedWait(Item(0, 2), 2), owed := 1, nextId := 1,
              accepted := {Item(0, 2)})
  {
    assert Exec(Init(0), []) == Init(0);
    assert Reachable(Init(0));
    hide Exec, Reachable;
    s := Then(Init(0), ClientLock(2));
    assert s == Init(0).(lock := ByClient(2, true));
    s := Then(s, ClientPush);
    var pushed := Init(0).(queue := Node(Item(0, 2), {}), owed := 1, nextId := 1, accepted := {Item(0, 2)});
    assert s == pushed by { assert {} + {Item(0, 2)} == {Item(0, 2)}; }
    s := Then(s, LoopTest);
    s := Then(s, LockAndLook);
    assert s == pushed.(pc := Deciding(Item(0, 2), 2), lock := ByWorker);
    s := Then(s, Decide(Item(0, 2)));
  }

  /**
   A second item comes in due earlier than the one slept for, and the wait times out before its client
   has notified. The earlier item is popped and never runs; the later one runs and is still pending. The
   order of execution is still that of the scheduled times: it does not show that anything is wrong.
   */
  lemma DisturbedTimeout()
    ensures exists s :: Reachable(s) && s.executed == [Item(0, 2)] && Items(s.queue) == {Item(0, 2)}
                        && s.lost == {Item(1, 1)} && !s.undefined && TimeOrder(s)
  {
    hide Exec, Reachable;
    var s := Asleep();
    s := Then(s, Tick);
    s := Then(s, ClientLock(0));
    assert s.lock == ByClient(0, true) && s.now == 1;
    s := Then(s, ClientPush);
    assert s.queue == Node(Item(1, 1), {Item(0, 2)});
    s := Then(s, Tick);
    s := Then(s, Wake);
    s := Then(s, RelockTimed(Item(0, 2)));
    assert s.queue == Node(Item(0, 2), {}) by { assert {Item(0, 2)} - {Item(0, 2)} == {}; }
  }

  lemma TooLate(s: State)
    requires s == Step(Init(0).(active := false, lock := ByClient(0, true), pc := Exited), ClientPush)
    ensures s.pc.Exited? && s.accepted == {Item(0, 0)} && s.queue == Node(Item(0, 0), {}) && s.executed == []
  {
    hide Items;
    assert {} + {Item(0, 0)} == {Item(0, 0)};
  }

  /** An insertion that the worker leaves behind: shut down after the client's test of the flag and before its push. */
  lemma AcceptedTooLate()
    ensures exists s :: Reachable(s) && s.pc.Exited? && s.executed == []
                        && s.accepted == {Item(0, 0)} && s.queue == Node(Item(0, 0), {})
  {
    assert Exec(Init(0), []) == Init(0);
    assert Reachable(Init(0));
    hide Exec, Reachable, Items, Push;
    var s := Then(Init(0), ClientLock(0));
    s := Then(s, Flag);
    s := Then(s, LoopTest);
    assert s == Init(0).(active := false, lock := ByClient(0, true), pc := Exited);
    s := Then(s, ClientPush);
    TooLate(s);
  }
}
