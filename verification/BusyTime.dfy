/**
 The busy-time accounting of a worker of src/task/ElasticExecutor.cpp: a counter and a checkpoint that
 the worker and a sampler share, over a window that the sampler restarts.

 A step is one critical section of the checkpoint lock, or one store to the flag running_task, which is
 written outside the lock. The reference is independent of the counter: the list of stretches in which
 the worker was busy, and how much of them lies in the window.
 */
module BusyTime {
  import opened Sequences

  const PERIOD := 5000
  const WORD: nat := 0x1_0000_0000_0000_0000

  /** Arithmetic of uint64_t. */
  function Minus(a: nat, b: nat): nat { (a - b) % WORD }
  function Plus(a: nat, b: nat): nat { (a + b) % WORD }

  datatype Stretch = Stretch(from: nat, to: nat)

  datatype Worker = Worker(
    now: nat,
    start: nat,                // cal_rate_start_time
    occupied: nat,             // occupied_time
    checkpoint: nat,           // last_checkpoint_time
    flag: bool,                // running_task
    busySince: Option<nat>,    // history: when the task in flight was begun
    past: seq<Stretch>,        // history: the tasks before it
    rates: seq<real>           // history: what the sampler reported
  )

  datatype Event = Tick(d: nat) | Begin | SetFlag | ClearFlag | End | Sample(drift: nat, flagAgain: bool)

  function Init(now: nat): Worker {
    Worker(now, 0, 0, 0, false, None, [], [])
  }

  /** The rate the sampler reports; with an empty window it is the flag, read a second time. */
  function Rate(occupied: nat, window: nat, flagAgain: bool): real {
    if window == 0 then (if flagAgain then 1.0 else 0.0) else occupied as real / window as real
  }

  /** get_occupied_rate: the clock is read at now and again drift later. */
  function Sampled(w: Worker, drift: nat, flagAgain: bool): Worker {
    var counted :=
      if w.flag then w.(occupied := Plus(w.occupied, Minus(w.now, w.checkpoint)), checkpoint := w.now) else w;
    var later := w.now + drift;
    var t := counted.(now := later, rates := w.rates + [Rate(counted.occupied, Minus(later, w.start), flagAgain)]);
    if Minus(later, w.start) > PERIOD then t.(occupied := 0, start := later, checkpoint := later) else t
  }

  /** One step. An event that cannot happen in w leaves w as it is. */
  function Step(w: Worker, e: Event): Worker {
    match e
    case Tick(d) => if w.now + d < WORD then w.(now := w.now + d) else w
    case Begin => if w.busySince.None? then w.(checkpoint := w.now, busySince := Some(w.now)) else w
    case SetFlag => if w.busySince.Some? then w.(flag := true) else w
    case ClearFlag => w.(flag := false)
    case End =>
      if w.busySince.Some? && !w.flag then
        w.(occupied := Plus(w.occupied, Minus(w.now, w.checkpoint)), busySince := None,
           past := w.past + [Stretch(w.busySince.value, w.now)])
      else w
    case Sample(drift, flagAgain) => if w.now + drift < WORD then Sampled(w, drift, flagAgain) else w
  }

  function Exec(w: Worker, es: seq<Event>): Worker {
    if es == [] then w else Step(Exec(w, es[..|es| - 1]), es[|es| - 1])
  }

  // ----- the reference

  /** How much of [from, to) lies at or after start. */
  function Overlap(from: nat, to: nat, start: nat): nat {
    if to <= start || to <= from then 0
    else if from <= start then to - start
    else to - from
  }

  function PastBusy(past: seq<Stretch>, start: nat): nat {
    if past == [] then 0
    else PastBusy(past[..|past| - 1], start) + Overlap(past[|past| - 1].from, past[|past| - 1].to, start)
  }

  /** The worker's true busy time inside the current window. */
  function TrueBusy(w: Worker): nat {
    PastBusy(w.past, w.start) + if w.busySince.None? then 0 else Overlap(w.busySince.value, w.now, w.start)
  }

  /** What the counter has yet to see of the task in flight. */
  function Uncounted(w: Worker): int {
    if w.busySince.None? then 0 else w.now - w.checkpoint
  }

  ghost predicate Inv(w: Worker) {
    && w.start <= w.now < WORD && w.checkpoint <= w.now
    && (w.flag ==> w.busySince.Some?)
    && (w.busySince.Some? ==> w.busySince.value <= w.checkpoint && w.start <= w.checkpoint)
    && (forall s | s in w.past :: s.from <= s.to <= w.now)
    && w.occupied + Uncounted(w) == TrueBusy(w)
    && w.occupied + Uncounted(w) <= w.now - w.start
    && (forall r | r in w.rates :: 0.0 <= r <= 1.0)
  }

  lemma {:induction false} NothingInNewWindow(past: seq<Stretch>, start: nat)
    requires forall s | s in past :: s.to <= start
    ensures PastBusy(past, start) == 0
  {
    if past != [] {
      NothingInNewWindow(past[..|past| - 1], start);
      assert past[|past| - 1] in past;
    }
  }

  lemma RateIsFraction(occupied: nat, window: nat, flagAgain: bool)
    requires occupied <= window
    ensures 0.0 <= Rate(occupied, window, flagAgain) <= 1.0
  {
    if window > 0 {
      assert occupied as real / window as real * window as real == occupied as real;
    }
  }

  /** No subtraction or addition of the accounting wraps. */
  lemma NoWrap(w: Worker, drift: nat)
    requires Inv(w) && w.now + drift < WORD
    ensures Minus(w.now, w.checkpoint) == w.now - w.checkpoint
    ensures Minus(w.now + drift, w.start) == w.now + drift - w.start
    ensures w.busySince.Some? ==> Plus(w.occupied, Minus(w.now, w.checkpoint)) == w.occupied + (w.now - w.checkpoint)
  {
  }

  lemma SampleKeeps(w: Worker, drift: nat, flagAgain: bool)
    requires Inv(w) && w.now + drift < WORD
    ensures Inv(Sampled(w, drift, flagAgain))
  {
    NoWrap(w, drift);
    hide Minus, Plus, Rate, PastBusy;
    var counted := if w.flag then w.occupied + (w.now - w.checkpoint) else w.occupied;
    RateIsFraction(counted, w.now + drift - w.start, flagAgain);
    if w.now + drift - w.start > PERIOD {
      NothingInNewWindow(w.past, w.now + drift);
    }
  }

  lemma StepKeeps(w: Worker, e: Event)
    requires Inv(w)
    ensures Inv(Step(w, e))
  {
    NoWrap(w, 0);
    match e
    case Sample(drift, flagAgain) => if w.now + drift < WORD { SampleKeeps(w, drift, flagAgain); }
    case Begin => assert w.checkpoint <= w.now;
    case End =>
      if w.busySince.Some? {
        assert (w.past + [Stretch(w.busySince.value, w.now)])[..|w.past|] == w.past;
      }
    case _ =>
  }

  /**
   Exact accounting, under any interleaving of the worker, the sampler and a clock that never goes back
   and stays within 64 bits: the counter plus the stretch of the task in flight that it has not seen is
   the true busy time inside the window. Hence the counter never exceeds the window, and every rate ever
   reported lies between 0 and 1.
   */
  lemma ExactAccounting(now: nat, es: seq<Event>)
    requires now < WORD
    ensures var w := Exec(Init(now), es);
            && w.occupied + Uncounted(w) == TrueBusy(w)
            && w.start <= w.now && w.checkpoint <= w.now
            && w.occupied <= w.now - w.start
            && (forall r | r in w.rates :: 0.0 <= r <= 1.0)
  {
    hide Step;
    AllRuns(now, es);
  }

  lemma {:induction false} AllRuns(now: nat, es: seq<Event>)
    requires now < WORD
    ensures Inv(Exec(Init(now), es))
  {
    if es != [] {
      hide Inv, Step;
      AllRuns(now, es[..|es| - 1]);
      StepKeeps(Exec(Init(now), es[..|es| - 1]), es[|es| - 1]);
    }
  }

  /**
   What a sample ought to report, from the reference alone: the true busy time inside the window, without
   the stretch not yet counted of a task in flight whose flag is not up, as a share of the window; and with
   an empty window whether the worker runs a task.
   */
  function TrueShare(w: Worker, drift: nat, flagAgain: bool): real
    requires w.start <= w.now + drift
  {
    var unseen := if w.busySince.Some? && !w.flag then w.now - w.checkpoint else 0;
    if w.now + drift == w.start then (if flagAgain then 1.0 else 0.0)
    else (TrueBusy(w) - unseen) as real / (w.now + drift - w.start) as real
  }

  /** The samples of a run, as they ought to have been. */
  function TrueShares(now: nat, es: seq<Event>): seq<real>
    requires now < WORD
  {
    if es == [] then []
    else
      var front, e := es[..|es| - 1], es[|es| - 1];
      var w := Exec(Init(now), front);
      if e.Sample? && w.now + e.drift < WORD && w.start <= w.now then
        TrueShares(now, front) + [TrueShare(w, e.drift, e.flagAgain)]
      else TrueShares(now, front)
  }

  lemma SampleIsTrue(w: Worker, drift: nat, flagAgain: bool)
    requires Inv(w) && w.now + drift < WORD
    ensures Step(w, Sample(drift, flagAgain)).rates == w.rates + [TrueShare(w, drift, flagAgain)]
  {
    NoWrap(w, drift);
    hide Minus, Plus, PastBusy, TrueBusy, WORD;
  }

  lemma OthersReportNothing(w: Worker, e: Event)
    requires !e.Sample? || w.now + e.drift >= WORD
    ensures Step(w, e).rates == w.rates
  {
  }

  /** In every run, every rate ever reported was the true busy share of the window when it was sampled. */
  lemma {:induction false} RatesAreTrue(now: nat, es: seq<Event>)
    requires now < WORD
    ensures Exec(Init(now), es).rates == TrueShares(now, es)
  {
    if es != [] {
      hide Step, Inv, TrueShare;
      var front, e := es[..|es| - 1], es[|es| - 1];
      var w := Exec(Init(now), front);
      RatesAreTrue(now, front);
      AllRuns(now, front);
      ClockInRange(w);
      if e.Sample? && w.now + e.drift < WORD {
        SampleIsTrue(w, e.drift, e.flagAgain);
      } else {
        OthersReportNothing(w, e);
      }
    }
  }

  lemma ClockInRange(w: Worker)
    requires Inv(w)
    ensures w.start <= w.now < WORD
  {
  }

  lemma Meaning(w: Worker)
    requires Inv(w)
    ensures w.occupied + Uncounted(w) == TrueBusy(w)
    ensures forall r | r in w.rates :: 0.0 <= r <= 1.0
  {
  }

  // ----- the worker and the sampler as the object of the source

  class WorkerThread {
    var calRateStartTime: nat
    var occupiedTime: nat
    var lastCheckpointTime: nat
    var runningTask: bool
    ghost var machine: Worker

    ghost predicate Valid()
      reads this
    {
      && Inv(machine)
      && machine.start == calRateStartTime && machine.occupied == occupiedTime
      && machine.checkpoint == lastCheckpointTime && machine.flag == runningTask
    }

    constructor (ghost now: nat)
      requires now < WORD
      ensures Valid() && machine == Init(now)
      ensures calRateStartTime == 0 && occupiedTime == 0 && lastCheckpointTime == 0 && !runningTask
    {
      calRateStartTime, occupiedTime, lastCheckpointTime, runningTask := 0, 0, 0, false;
      machine := Init(now);
    }

    /** Lines 50-52. */
    method BeginTask(now: nat)
      requires Valid() && now == machine.now && machine.busySince.None?
      modifies this
      ensures Valid() && machine == Step(old(machine), Begin) && lastCheckpointTime == now
      ensures machine == old(machine).(checkpoint := now, busySince := Some(now))
      ensures unchanged(`calRateStartTime, `occupiedTime, `runningTask)
    {
      StepKeeps(machine, Begin);
      lastCheckpointTime := now;
      machine := Step(machine, Begin);
    }

    /** Lines 53 and 56. */
    method SetRunning(running: bool)
      requires Valid() && machine.busySince.Some?
      modifies this
      ensures Valid() && machine == Step(old(machine), if running then SetFlag else ClearFlag) && runningTask == running
      ensures machine == old(machine).(flag := running)
      ensures unchanged(`calRateStartTime, `occupiedTime, `lastCheckpointTime)
    {
      StepKeeps(machine, if running then SetFlag else ClearFlag);
      runningTask := running;
      machine := Step(machine, if running then SetFlag else ClearFlag);
    }

    /** Lines 57-59. */
    method EndTask(now: nat)
      requires Valid() && now == machine.now && machine.busySince.Some? && !runningTask
      modifies this
      ensures Valid() && machine == Step(old(machine), End)
      ensures occupiedTime == old(occupiedTime) + (now - lastCheckpointTime) == TrueBusy(machine)
      ensures machine.busySince == None
      ensures machine.past == old(machine).past + [Stretch(old(machine).busySince.value, now)]
      ensures unchanged(`calRateStartTime, `lastCheckpointTime, `runningTask)
    {
      hide Inv, TrueBusy;
      StepKeeps(machine, End);
      NoWrap(machine, 0);
      Meaning(Step(machine, End));
      occupiedTime := Plus(occupiedTime, Minus(now, lastCheckpointTime));
      machine := Step(machine, End);
    }

    /**
     Lines 67-84. The flag is read outside the lock of its writer, so the two readings may differ. The rate
     is the true busy share of the window, but for a task in flight whose flag is not up: what it has done
     since the last checkpoint is not counted then.
     */
    method GetOccupiedRate(firstNow: nat, secondNow: nat, flagAgain: bool) returns (rate: real)
      requires Valid() && firstNow == machine.now && firstNow <= secondNow < WORD
      modifies this
      ensures Valid() && machine == Step(old(machine), Sample(secondNow - firstNow, flagAgain))
      ensures machine.rates == old(machine).rates + [rate] && 0.0 <= rate <= 1.0
      ensures old(calRateStartTime) <= secondNow
      ensures secondNow == old(calRateStartTime) ==> rate == if flagAgain then 1.0 else 0.0
      ensures secondNow > old(calRateStartTime) ==>
                rate * (secondNow - old(calRateStartTime)) as real
                == (if old(machine).busySince.None? || old(runningTask) then TrueBusy(old(machine))
                    else TrueBusy(old(machine)) - (firstNow - old(lastCheckpointTime))) as real
      ensures secondNow - old(calRateStartTime) > 5000 ==>
                occupiedTime == 0 && calRateStartTime == secondNow && lastCheckpointTime == secondNow
      ensures secondNow - old(calRateStartTime) <= 5000 ==>
                && calRateStartTime == old(calRateStartTime)
                && occupiedTime == old(occupiedTime) + (if runningTask then firstNow - old(lastCheckpointTime) else 0)
                && lastCheckpointTime == if runningTask then firstNow else old(lastCheckpointTime)
      ensures runningTask == old(runningTask)
    {
      hide *;
      HoldsNow(this);
      ghost var next := SampleSpelled(machine, secondNow - firstNow, flagAgain);
      if runningTask {
        occupiedTime := Plus(occupiedTime, Minus(firstNow, lastCheckpointTime));
        lastCheckpointTime := firstNow;
      }
      var dur := Minus(secondNow, calRateStartTime);
      rate := if dur == 0 then (if flagAgain then 1.0 else 0.0) else occupiedTime as real / dur as real;
      if dur > 0 {
        Quotient(occupiedTime, dur);
      }
      if Minus(secondNow, calRateStartTime) > 5000 {
        occupiedTime, calRateStartTime, lastCheckpointTime := 0, secondNow, secondNow;
      }
      machine := next;
      IsValid(this);
    }
  }

  lemma Quotient(a: nat, b: nat)
    requires b > 0
    ensures a as real / b as real * b as real == a as real
  {
  }

  lemma HoldsNow(c: WorkerThread)
    requires c.Valid()
    ensures Inv(c.machine)
    ensures c.machine.start == c.calRateStartTime && c.machine.occupied == c.occupiedTime
    ensures c.machine.checkpoint == c.lastCheckpointTime && c.machine.flag == c.runningTask
  {
  }

  lemma IsValid(c: WorkerThread)
    requires Inv(c.machine)
    requires c.machine.start == c.calRateStartTime && c.machine.occupied == c.occupiedTime
    requires c.machine.checkpoint == c.lastCheckpointTime && c.machine.flag == c.runningTask
    ensures c.Valid()
  {
  }

  /** A sample, in plain numbers. */
  lemma SampleSpelled(w: Worker, drift: nat, flagAgain: bool) returns (t: Worker)
    requires Inv(w) && w.now + drift < WORD
    ensures t == Step(w, Sample(drift, flagAgain)) && Inv(t)
    ensures w.start <= w.now && w.checkpoint <= w.now
    ensures Minus(w.now, w.checkpoint) == w.now - w.checkpoint
    ensures Minus(w.now + drift, w.start) == w.now + drift - w.start
    ensures w.flag ==> Plus(w.occupied, Minus(w.now, w.checkpoint)) == w.occupied + (w.now - w.checkpoint)
    ensures w.occupied + (if w.flag then w.now - w.checkpoint else 0)
            == TrueBusy(w) - (if w.busySince.Some? && !w.flag then w.now - w.checkpoint else 0)
    ensures var counted := w.occupied + if w.flag then w.now - w.checkpoint else 0;
            var window := w.now + drift - w.start;
            var rate := if window == 0 then (if flagAgain then 1.0 else 0.0) else counted as real / window as real;
            && t.rates == w.rates + [rate] && 0.0 <= rate <= 1.0
            && (window > 5000 ==> t.occupied == 0 && t.start == w.now + drift && t.checkpoint == w.now + drift)
            && (window <= 5000 ==>
                  && t.occupied == counted && t.start == w.start
                  && t.checkpoint == if w.flag then w.now else w.checkpoint)
    ensures t.flag == w.flag
  {
    NoWrap(w, drift);
    SampleKeeps(w, drift, flagAgain);
    t := Step(w, Sample(drift, flagAgain));
    hide Minus, Plus, PastBusy, TrueBusy;
    LastRate(t);
  }

  lemma LastRate(w: Worker)
    requires Inv(w) && w.rates != []
    ensures 0.0 <= w.rates[|w.rates| - 1] <= 1.0
  {
    assert w.rates[|w.rates| - 1] in w.rates;
  }
}
