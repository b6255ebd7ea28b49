/**
 The scheduler as the object of src/task/Scheduler.h, each method or critical section proved to take
 the steps of SchedulerMachine that it stands for. The clock is a field, moved only by Tick; where one
 critical section reads it twice, drift says how far it moved in between.
 */
module SchedulerObject {
  import opened SchedulerMachine

  /** The clock moves by n. */
  function Ticks(n: nat): seq<Event> {
    seq(n, _ => Tick)
  }

  lemma {:induction false} TicksMoveTheClock(s: State, n: nat)
    ensures Exec(s, Ticks(n)) == s.(now := s.now + n)
    ensures Inv(s) ==> Inv(Exec(s, Ticks(n)))
  {
    if n > 0 {
      hide Inv;
      assert Ticks(n)[..n - 1] == Ticks(n - 1);
      TicksMoveTheClock(s, n - 1);
      if Inv(s) {
        StepKeeps(Exec(s, Ticks(n - 1)), Tick);
      }
    }
  }

  lemma EarliestExists(xs: set<Item>) returns (next: Item)
    requires xs != {}
    ensures next in xs && forall y | y in xs :: next.time <= y.time
  {
    var x :| x in xs;
    var others := xs - {x};
    assert xs == others + {x};
    if others == {} {
      next := x;
    } else {
      next := EarliestExists(others);
      if x.time < next.time {
        next := x;
      }
    }
  }

  class Scheduler {
    var now: int
    var isActive: bool
    var executableQueue: Heap
    var worker: Pc          // where the worker thread is in run_loop, with its locals
    var holder: Lock        // who holds queue_lock
    var owed: nat           // clients between their unlock and their notify_one
    var nextId: nat         // names the functions handed in
    var ran: seq<Item>      // the calls made, in order
    ghost var machine: State

    ghost predicate Valid()
      reads this
    {
      && Inv(machine)
      && machine.now == now && machine.active == isActive && machine.queue == executableQueue
      && machine.pc == worker && machine.lock == holder && machine.owed == owed && machine.nextId == nextId
            && machine.executed == ran
    }

    constructor (now: int)
      ensures Valid() && machine == Init(now)
      ensures this.now == now && isActive && executableQueue == Empty && worker == LoopHead && holder == Unlocked
      ensures owed == 0 && nextId == 0 && ran == []
    {
      this.now, isActive, executableQueue, worker, holder, owed := now, true, Empty, LoopHead, Unlocked, 0;
      nextId, ran := 0, [];
      machine := Init(now);
    }

    method PassTime(n: nat)
      requires Valid()
      modifies this`now, this`machine
      ensures Valid() && machine == Exec(old(machine), Ticks(n)) && now == old(now) + n
    {
      hide Inv;
      TicksMoveTheClock(machine, n);
      now, machine := now + n, Exec(machine, Ticks(n));
    }

    /**
     Lines 103-111: everything up to the notification, which the caller makes later if it is needed. An
     active scheduler accepts exactly one item more, due the delay asked for after the second reading of
     the clock; a delay below zero counts as none.
     */
    method Execute(delay: int, drift: nat) returns (needNotify: bool)
      requires Valid() && holder.Unlocked?
      modifies this
      ensures Valid() && holder.Unlocked?
      ensures var ticks := Ticks(if old(isActive) then drift else 0);
              machine == Step(Exec(Step(old(machine), ClientLock(delay)), ticks), ClientPush)
      ensures unchanged(`isActive, `worker, `ran)
      ensures old(isActive) ==>
                var item := Item(old(nextId), now + if delay < 0 then 0 else delay);
                && now == old(now) + drift && nextId == old(nextId) + 1
                && Items(executableQueue) == Items(old(executableQueue)) + {item}
                && machine.accepted == old(machine).accepted + {item} && item !in old(machine).accepted
                && executableQueue.Node? && (forall x | x in executableQueue.rest :: executableQueue.top.time <= x.time)
                && (needNotify <==> old(executableQueue).Empty?
                                    || old(executableQueue).top.time - old(now) > if delay < 0 then 0 else delay)
                && owed == old(owed) + if needNotify then 1 else 0
      ensures !old(isActive) ==> !needNotify && unchanged(`now, `executableQueue, `nextId, `owed, `machine)
    {
      hide *;
      HoldsNow(this);
      needNotify := false;
      var clamped := if delay < 0 then 0 else delay;
      TaskAccepted(machine, delay, drift);
      if isActive {
        needNotify := executableQueue.Empty? || executableQueue.top.time - now > clamped;
        ghost var locked := Step(machine, ClientLock(delay));
        now := now + drift;
        executableQueue, nextId := Push(executableQueue, Item(nextId, now + clamped)), nextId + 1;
        machine := Step(Exec(locked, Ticks(drift)), ClientPush);
        if needNotify {
          owed := owed + 1;
        }
        IsValid(this);
      }
    }

    method NotifyOne()
      requires Valid() && owed > 0
      modifies this
      ensures Valid() && machine == Step(old(machine), Notify)
      ensures owed == old(owed) - 1 && unchanged(`now, `isActive, `executableQueue, `holder, `nextId, `ran)
      ensures worker == match old(worker)
                        case UntimedWait => WokenUntimed
                        case TimedWait(saved, deadline) => WokenTimed(saved, deadline)
                        case other => other
    {
      hide Inv;
      StepKeeps(machine, Notify);
      owed, worker := owed - 1, Woken(worker);
      machine := Step(machine, Notify);
    }

    /** Line 118: at once, whoever holds the lock. */
    method LowerFlag()
      requires Valid()
      modifies this
      ensures Valid() && !isActive && machine == Step(old(machine), Flag)
      ensures unchanged(`now, `executableQueue, `worker, `holder, `owed, `nextId, `ran)
    {
      hide Inv, Push, Pop, CanPop, Look, NeedNotify, Woken;
      StepKeeps(machine, Flag);
      isActive, machine := false, Step(machine, Flag);
    }

    /** Lines 121-124, once the lock is there. */
    method ClearQueue()
      requires Valid() && holder.Unlocked? && !isActive
      modifies this
      ensures Valid() && machine == Step(old(machine), Clear)
      ensures executableQueue == Empty && machine.cleared == old(machine).cleared + Items(old(executableQueue))
      ensures unchanged(`now, `isActive, `worker, `holder, `owed, `nextId, `ran)
    {
      hide Inv, Push, Pop, CanPop, Look, NeedNotify, Woken;
      StepKeeps(machine, Clear);
      executableQueue, machine := Empty, Step(machine, Clear);
    }

    /** Line 127: afterwards the worker is in no wait. */
    method WakeAll()
      requires Valid() && !isActive
      modifies this
      ensures Valid() && machine == Step(old(machine), NotifyAll)
      ensures worker == match old(worker)
                        case UntimedWait => WokenUntimed
                        case TimedWait(saved, deadline) => WokenTimed(saved, deadline)
                        case other => other
      ensures unchanged(`now, `isActive, `executableQueue, `holder, `owed, `nextId, `ran)
    {
      hide Inv, Push, Pop, CanPop, Look, NeedNotify;
      StepKeeps(machine, NotifyAll);
      worker, machine := Woken(worker), Step(machine, NotifyAll);
    }

    /** A shutdown that need not wait for the lock: it is not asked to clear the queue, or finds the lock free. */
    method Shutdown(waitForComplete: bool)
      requires Valid() && (waitForComplete || holder.Unlocked?)
      modifies this
      ensures Valid() && !isActive
      ensures waitForComplete ==> machine == Step(Step(old(machine), Flag), NotifyAll)
      ensures !waitForComplete ==> machine == Step(Step(Step(old(machine), Flag), Clear), NotifyAll)
      ensures executableQueue == if waitForComplete then old(executableQueue) else Empty
      ensures !worker.UntimedWait? && !worker.TimedWait?
      ensures unchanged(`now, `holder, `owed, `nextId, `ran)
    {
      hide Inv, Step;
      LowerFlag();
      if !waitForComplete {
        ClearQueue();
      }
      WakeAll();
    }

    /** The test at line 67: the worker leaves only with the flag down and nothing pending. */
    method TestLoop() returns (go: bool)
      requires Valid() && worker.LoopHead?
      modifies this
      ensures Valid() && machine == Step(old(machine), LoopTest)
      ensures go <==> isActive || executableQueue.Node?
      ensures worker == if go then WantLock else Exited
      ensures unchanged(`now, `isActive, `executableQueue, `holder, `owed, `nextId, `ran)
    {
      hide Inv;
      StepKeeps(machine, LoopTest);
      go := isActive || !executableQueue.Empty?;
      worker := if go then WantLock else Exited;
      machine := Step(machine, LoopTest);
    }

    /** Lines 68-76: from taking the lock to knowing how long the earliest item has to wait. */
    method LockAndLookAtTop()
      requires Valid() && holder.Unlocked? && worker.WantLock?
      modifies this
      ensures Valid() && machine == Step(old(machine), LockAndLook)
      ensures executableQueue.Empty? ==> worker == UntimedWait && holder == Unlocked
      ensures executableQueue.Node? ==>
                worker == Deciding(executableQueue.top, executableQueue.top.time - now) && holder == ByWorker
      ensures unchanged(`now, `isActive, `executableQueue, `owed, `nextId, `ran)
    {
      hide Inv;
      StepKeeps(machine, LockAndLook);
      if executableQueue.Empty? {
        worker := UntimedWait;
      } else {
        var executable := executableQueue.top;
        worker, holder := Deciding(executable, executable.time - now), ByWorker;
      }
      machine := Step(machine, LockAndLook);
    }

    /** Lines 70-76 again, on the way out of the untimed wait. */
    method RelockAfterWait()
      requires Valid() && holder.Unlocked? && worker.WokenUntimed?
      modifies this
      ensures Valid() && machine == Step(old(machine), RelockUntimed)
      ensures executableQueue.Empty? ==> worker == LoopHead && holder == Unlocked
      ensures executableQueue.Node? ==>
                worker == Deciding(executableQueue.top, executableQueue.top.time - now) && holder == ByWorker
      ensures unchanged(`now, `isActive, `executableQueue, `owed, `nextId, `ran)
    {
      hide Inv;
      StepKeeps(machine, RelockUntimed);
      if executableQueue.Empty? {
        worker := LoopHead;
      } else {
        var executable := executableQueue.top;
        worker, holder := Deciding(executable, executable.time - now), ByWorker;
      }
      machine := Step(machine, RelockUntimed);
    }

    /** Lines 77-78 and 84-86: sleep if the item is not due yet, else pop and run it. */
    method WaitOrRun() returns (ghost next: Item)
      requires Valid() && worker.Deciding?
      modifies this
      ensures Valid() && machine == Step(old(machine), Decide(next)) && holder == Unlocked
      ensures old(worker).delay > 0 ==>
                worker == TimedWait(old(worker).saved, now + old(worker).delay) && unchanged(`executableQueue, `ran)
      ensures old(worker).delay <= 0 ==>
                && worker == Executing && ran == old(ran) + [old(worker).saved]
                && Items(executableQueue) == Items(old(executableQueue)) - {old(worker).saved}
                && old(executableQueue).Node? && old(executableQueue).top == old(worker).saved
      ensures unchanged(`now, `isActive, `owed, `nextId)
    {
      HoldsNow(this);
      SavedOnTop(machine);
      HeapHolds(machine);
      hide Inv;
      next := executableQueue.top;
      if worker.delay > 0 {
        StepKeeps(machine, Decide(next));
        worker, holder := TimedWait(worker.saved, now + worker.delay), Unlocked;
      } else {
        next := PopTop();
        StepKeeps(machine, Decide(next));
        ran, worker, holder := ran + [worker.saved], Executing, Unlocked;
      }
      machine := Step(machine, Decide(next));
    }

    /** std::priority_queue::pop: any of the earliest remaining items comes to the top. */
    method PopTop() returns (ghost next: Item)
      requires executableQueue.Node?
      modifies this`executableQueue
      ensures CanPop(old(executableQueue), next) && executableQueue == Pop(old(executableQueue), next)
      ensures old(executableQueue).top !in old(executableQueue).rest ==>
                Items(executableQueue) == Items(old(executableQueue)) - {old(executableQueue).top}
      ensures executableQueue.Node? ==>
                forall x | x in executableQueue.rest :: executableQueue.top.time <= x.time
    {
      var rest := executableQueue.rest;
      if rest == {} {
        next := executableQueue.top;
        executableQueue := Empty;
      } else {
        ghost var earliest := EarliestExists(rest);
        var top :| top in rest && forall y | y in rest :: top.time <= y.time;
        next := top;
        executableQueue := Node(top, rest - {top});
      }
    }

    /**
     Lines 78-86, on the way out of the timed wait. The queue may have been cleared meanwhile; popping an
     empty queue is undefined, and what the machine then says is only what happens if the pop does nothing.
     */
    method RelockAfterTimedWait() returns (ghost next: Item)
      requires Valid() && holder.Unlocked? && worker.WokenTimed?
      modifies this
      ensures Valid() && machine == Step(old(machine), RelockTimed(next))
      ensures machine.undefined <==>
                old(machine).undefined || (old(now) >= old(worker).deadline && old(executableQueue).Empty?)
      ensures worker == if now < old(worker).deadline then LoopHead else Executing
      ensures now < old(worker).deadline ==> unchanged(`executableQueue, `ran)
      ensures now >= old(worker).deadline ==>
                && ran == old(ran) + [old(worker).saved]
                && (old(executableQueue).Empty? ==> executableQueue.Empty?)
                && (old(executableQueue).Node? ==>
                      Items(executableQueue) == Items(old(executableQueue)) - {old(executableQueue).top})
      ensures unchanged(`now, `isActive, `holder, `owed, `nextId)
    {
      HeapHolds(machine);
      hide Inv;
      next := worker.saved;
      if now < worker.deadline {
        StepKeeps(machine, RelockTimed(next));
        worker := LoopHead;
      } else if executableQueue.Empty? {
        StepKeeps(machine, RelockTimed(next));
        ran, worker := ran + [worker.saved], Executing;
      } else {
        next := PopTop();
        StepKeeps(machine, RelockTimed(next));
        ran, worker := ran + [worker.saved], Executing;
      }
      machine := Step(machine, RelockTimed(next));
    }

    /** The item has run, and the loop starts over. */
    method RunEnds()
      requires Valid() && worker.Executing?
      modifies this
      ensures Valid() && machine == Step(old(machine), Done) && worker == LoopHead
      ensures unchanged(`now, `isActive, `executableQueue, `holder, `owed, `nextId, `ran)
    {
      hide Inv;
      StepKeeps(machine, Done);
      worker, machine := LoopHead, Step(machine, Done);
    }
  }

  lemma HoldsNow(c: Scheduler)
    requires c.Valid()
    ensures Inv(c.machine) && c.machine.now == c.now && c.machine.active == c.isActive
    ensures c.machine.queue == c.executableQueue && c.machine.pc == c.worker && c.machine.lock == c.holder
    ensures c.machine.owed == c.owed && c.machine.nextId == c.nextId && c.machine.executed == c.ran
  {
  }

  lemma IsValid(c: Scheduler)
    requires Inv(c.machine) && c.machine.now == c.now && c.machine.active == c.isActive
    requires c.machine.queue == c.executableQueue && c.machine.pc == c.worker && c.machine.lock == c.holder
    requires c.machine.owed == c.owed && c.machine.nextId == c.nextId && c.machine.executed == c.ran
    ensures c.Valid()
  {
  }

  lemma HeapHolds(s: State)
    requires Inv(s)
    ensures s.queue.Node? ==> s.queue.top !in s.queue.rest
  {
  }

  /** What an insertion does, with the clock moving between its two readings. */
  lemma TaskAccepted(s: State, delay: int, drift: nat)
    requires Inv(s) && s.lock.Unlocked?
    ensures var t := Step(Exec(Step(s, ClientLock(delay)), Ticks(if s.active then drift else 0)), ClientPush);
            && Inv(t) && t.pc == s.pc && t.executed == s.executed && t.active == s.active && t.lock.Unlocked?
            && (!s.active ==> t == s)
            && (s.active ==>
                  var asked := if delay < 0 then 0 else delay;
                  var item := Item(s.nextId, s.now + drift + asked);
                  && t.now == s.now + drift && t.nextId == s.nextId + 1
                  && t.queue == Push(s.queue, item) && Items(t.queue) == Items(s.queue) + {item}
                  && t.queue.Node? && (forall x | x in t.queue.rest :: t.queue.top.time <= x.time)
                  && t.accepted == s.accepted + {item} && item !in s.accepted
                  && t.owed == s.owed + if s.queue.Empty? || s.queue.top.time - s.now > asked then 1 else 0)
  {
    StepKeeps(s, ClientLock(delay));
    TicksMoveTheClock(Step(s, ClientLock(delay)), if s.active then drift else 0);
    StepKeeps(Exec(Step(s, ClientLock(delay)), Ticks(if s.active then drift else 0)), ClientPush);
    FreshItem(s, s.now + drift + if delay < 0 then 0 else delay);
    hide Inv, Push, Exec, Ticks;
  }

  lemma FreshItem(s: State, time: int)
    requires Inv(s)
    ensures var item := Item(s.nextId, time);
            && item !in s.accepted && Items(Push(s.queue, item)) == Items(s.queue) + {item}
            && Push(s.queue, item).Node?
            && forall x | x in Push(s.queue, item).rest :: Push(s.queue, item).top.time <= x.time
  {
    PushItems(s.queue, Item(s.nextId, time));
  }
}
