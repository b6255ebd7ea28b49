/**
 The channel and its awaiters as the objects of src/task/Channel.h and src/task/ChannelAwaiter.h, each
 method proved to take the steps of ChannelMachine that it stands for. The real fields are tied to the
 ghost field machine by Valid(), so everything proved about runs of the machine holds of the objects.
 */
module ChannelObject {
  import opened Sequences
  import opened ChannelMachine

  /** The jobs the executors have got, in order. */
  function SentJobs(s: State): (jobs: seq<Job>)
    ensures |jobs| == |s.sent|
  {
    seq(|s.sent|, k requires 0 <= k < |s.sent| =>
      if s.sent[k] < |s.log| then s.log[s.sent[k]] else ResumeReaderUnsafe(0))
  }

  /** The resumes at these positions made, one after the other. */
  function ResumeAll(s: State, from: nat, count: nat): State {
    if count == 0 then s else Step(ResumeAll(s, from, count - 1), Dispatch(from + count - 1))
  }

  /** A whole push that nothing comes between: what it decides under the lock, and then its resumes. */
  function PushAndResume(s: State, lock: Event): State {
    var t := Step(Step(s, lock), Commit);
    ResumeAll(t, |s.log|, if |s.log| <= |t.log| then |t.log| - |s.log| else 0)
  }

  /** Dispatching queues a job; the job runs later. */
  class Executor {
    var jobs: seq<Job>

    constructor ()
      ensures jobs == []
    {
      jobs := [];
    }

    method Execute(job: Job)
      modifies this
      ensures jobs == old(jobs) + [job]
    {
      jobs := jobs + [job];
    }
  }

  class Channel {
    const bufferCapacity: int
    const executor: Executor
    var buffer: seq<Value>
    var writerList: seq<Writer>
    var readerList: seq<nat>
    var isActive: bool
    ghost var machine: State

    ghost predicate Valid()
      reads this, executor
    {
      && Inv(machine)
      && machine.capacity == bufferCapacity
      && machine.queues == Queues(buffer, writerList, readerList)
      && machine.phase.Open? == isActive
      && machine.holder.Free?
      && executor.jobs == SentJobs(machine)
    }

    /** How many values the buffer may hold: the capacity, converted to a size_t. */
    function Room(): (r: int)
      ensures bufferCapacity >= 0 ==> r == bufferCapacity
      ensures bufferCapacity < 0 ==> r == bufferCapacity + 0x1_0000_0000_0000_0000
    {
      Limit(bufferCapacity)
    }

    constructor (capacity: int)
      requires Limit(capacity) >= 0  // every 32-bit capacity, positive or not
      ensures Valid() && fresh(executor) && machine == Init(capacity)
      ensures bufferCapacity == capacity && isActive && executor.jobs == []
      ensures buffer == [] && writerList == [] && readerList == []
    {
      hide Inv, Accepting, Ran, Formed, Delivered, Limit;
      bufferCapacity := capacity;
      executor := new Executor();
      buffer, writerList, readerList, isActive := [], [], [], true;
      machine := Init(capacity);
      new;
      InitKeeps(capacity);
    }

    /**
     Throws when the channel is closed, and then changes nothing. Otherwise everything up to the unlock;
     the resumes that are left to do come back to the caller, who makes them one by one.
     */
    method TryPushReader(reader: nat) returns (threw: bool, resumes: seq<Job>)
      requires Valid() && reader !in machine.readersIn
      modifies this
      ensures Valid() && isActive == old(isActive) && threw == !isActive
      ensures machine == Step(Step(old(machine), LockReader(reader)), Commit)
      ensures machine.log == old(machine).log + resumes
      ensures isActive ==> machine.readersIn == old(machine).readersIn + [reader]
      ensures old(isActive) && old(buffer) != [] && old(writerList) != [] ==>
                && buffer == old(buffer)[1..] + [old(writerList)[0].value]
                && writerList == old(writerList)[1..] && readerList == old(readerList)
      ensures old(isActive) && old(buffer) != [] && old(writerList) == [] ==>
                buffer == old(buffer)[1..] && writerList == [] && readerList == old(readerList)
      ensures old(isActive) && old(buffer) == [] && old(writerList) != [] ==>
                buffer == [] && writerList == old(writerList)[1..] && readerList == old(readerList)
      ensures old(isActive) && old(buffer) == [] && old(writerList) == [] ==>
                buffer == [] && writerList == [] && readerList == old(readerList) + [reader]
      ensures !old(isActive) ==> unchanged(`buffer, `writerList, `readerList, `machine)
      ensures resumes ==
              if !old(isActive) || (old(buffer) == [] && old(writerList) == []) then []
              else if old(buffer) == [] then
                [ResumeReader(reader, old(writerList)[0].value), ResumeWriter(old(writerList)[0].id)]
              else if old(writerList) == [] then [ResumeReader(reader, old(buffer)[0])]
              else [ResumeWriter(old(writerList)[0].id), ResumeReader(reader, old(buffer)[0])]
    {
      hide Inv, Delivered;
      StepKeeps(machine, LockReader(reader));
      StepKeeps(Step(machine, LockReader(reader)), Commit);
      SentStays(machine, LockReader(reader));
      machine := Step(Step(machine, LockReader(reader)), Commit);
      if !isActive {
        return true, [];
      }
      threw := false;
      if buffer != [] {
        var value := buffer[0];
        buffer := buffer[1..];
        if writerList != [] {
          var writer := writerList[0];
          writerList := writerList[1..];
          buffer := buffer + [writer.value];
          return false, [ResumeWriter(writer.id), ResumeReader(reader, value)];
        }
        return false, [ResumeReader(reader, value)];
      }
      if writerList != [] {
        var writer := writerList[0];
        writerList := writerList[1..];
        return false, [ResumeReader(reader, writer.value), ResumeWriter(writer.id)];
      }
      readerList := readerList + [reader];
      resumes := [];
    }

    method TryPushWriter(writer: Writer) returns (threw: bool, resumes: seq<Job>)
      requires Valid() && writer.id !in Ids(machine.writersIn)
      modifies this
      ensures Valid() && isActive == old(isActive) && threw == !isActive
      ensures machine == Step(Step(old(machine), LockWriter(writer)), Commit)
      ensures machine.log == old(machine).log + resumes
      ensures isActive ==> machine.writersIn == old(machine).writersIn + [writer]
      ensures old(isActive) && old(readerList) != [] ==>
                readerList == old(readerList)[1..] && buffer == old(buffer) && writerList == old(writerList)
      ensures old(isActive) && old(readerList) == [] && old(|buffer|) < Room() ==>
                readerList == [] && buffer == old(buffer) + [writer.value] && writerList == old(writerList)
      ensures old(isActive) && old(readerList) == [] && old(|buffer|) >= Room() ==>
                readerList == [] && buffer == old(buffer) && writerList == old(writerList) + [writer]
      ensures !old(isActive) ==> unchanged(`buffer, `writerList, `readerList, `machine)
      ensures resumes ==
              if !old(isActive) then []
              else if old(readerList) != [] then
                [ResumeReader(old(readerList)[0], writer.value), ResumeWriter(writer.id)]
              else if old(|buffer|) < Room() then [ResumeWriter(writer.id)]
              else []
    {
      hide Inv, Delivered;
      StepKeeps(machine, LockWriter(writer));
      StepKeeps(Step(machine, LockWriter(writer)), Commit);
      SentStays(machine, LockWriter(writer));
      machine := Step(Step(machine, LockWriter(writer)), Commit);
      if !isActive {
        return true, [];
      }
      threw := false;
      if readerList != [] {
        var reader := readerList[0];
        readerList := readerList[1..];
        return false, [ResumeReader(reader, writer.value), ResumeWriter(writer.id)];
      }
      if |buffer| < Limit(bufferCapacity) {
        buffer := buffer + [writer.value];
        return false, [ResumeWriter(writer.id)];
      }
      writerList := writerList + [writer];
      resumes := [];
    }

    /** One resume that a push owes: its job goes to the executor. */
    method Resume(job: Job, ghost i: nat)
      requires Valid() && i in machine.owed && (i in machine.second ==> i - 1 !in machine.owed)
      requires i < |machine.log| && machine.log[i] == job
      modifies this`machine, executor
      ensures Valid() && machine == Step(old(machine), Dispatch(i))
      ensures executor.jobs == old(executor.jobs) + [job]
      ensures machine == old(machine).(owed := old(machine).owed - {i}, sent := old(machine).sent + [i])
    {
      hide Inv;
      StepKeeps(machine, Dispatch(i));
      machine := Step(machine, Dispatch(i));
      executor.Execute(job);
    }

    /** The resumes of one push, in order. */
    method ResumeEach(resumes: seq<Job>, ghost before: State)
      requires Valid() && machine.log == before.log + resumes
      requires forall i | |before.log| <= i < |machine.log| :: i in machine.owed
      requires |before.log| !in machine.second
      modifies this`machine, executor
      ensures Valid() && machine == ResumeAll(old(machine), |before.log|, |resumes|)
      ensures executor.jobs == old(executor.jobs) + resumes
      ensures machine == old(machine).(owed := machine.owed, sent := machine.sent)
      ensures forall i :: i in machine.owed <==> i in old(machine).owed && i < |before.log|
    {
      hide Inv;
      ghost var from := |before.log|;
      var k := 0;
      while k < |resumes|
        invariant 0 <= k <= |resumes| && Valid() && machine == ResumeAll(old(machine), from, k)
        invariant machine == old(machine).(owed := machine.owed, sent := machine.sent)
        invariant forall i :: i in machine.owed <==> i in old(machine).owed && !(from <= i < from + k)
        invariant executor.jobs == old(executor.jobs) + resumes[..k]
      {
        assert machine.log[from + k] == resumes[k];
        Resume(resumes[k], from + k);
        assert resumes[..k + 1] == resumes[..k] + [resumes[k]];
        k := k + 1;
      }
      assert resumes[..k] == resumes;
      OwedInLog(machine);
    }

    /** A whole push of a reader with nothing in between, as the awaiter makes it. */
    method PushReaderAndResume(reader: nat) returns (threw: bool)
      requires Valid() && reader !in machine.readersIn
      modifies this, executor
      ensures Valid() && isActive == old(isActive) && threw == !isActive
      ensures machine == PushAndResume(old(machine), LockReader(reader)) && machine.owed == old(machine).owed
      ensures old(machine).log <= machine.log
      ensures executor.jobs == old(executor.jobs) + machine.log[|old(machine).log|..]
      ensures old(isActive) && old(buffer) != [] && old(writerList) != [] ==>
                && buffer == old(buffer)[1..] + [old(writerList)[0].value]
                && writerList == old(writerList)[1..] && readerList == old(readerList)
      ensures old(isActive) && old(buffer) != [] && old(writerList) == [] ==>
                buffer == old(buffer)[1..] && writerList == [] && readerList == old(readerList)
      ensures old(isActive) && old(buffer) == [] && old(writerList) != [] ==>
                buffer == [] && writerList == old(writerList)[1..] && readerList == old(readerList)
      ensures old(isActive) && old(buffer) == [] && old(writerList) == [] ==>
                buffer == [] && writerList == [] && readerList == old(readerList) + [reader]
      ensures !old(isActive) ==> unchanged(`buffer, `writerList, `readerList)
      ensures executor.jobs == old(executor.jobs) +
              if !old(isActive) || (old(buffer) == [] && old(writerList) == []) then []
              else if old(buffer) == [] then
                [ResumeReader(reader, old(writerList)[0].value), ResumeWriter(old(writerList)[0].id)]
              else if old(writerList) == [] then [ResumeReader(reader, old(buffer)[0])]
              else [ResumeWriter(old(writerList)[0].id), ResumeReader(reader, old(buffer)[0])]
    {
      hide *;
      ghost var before := machine;
      HoldsNow(this);
      OwedByPush(machine, LockReader(reader));
      Whole(machine, LockReader(reader));
      var resumes;
      threw, resumes := TryPushReader(reader);
      ResumeEach(resumes, before);
      assert machine.log[|before.log|..] == resumes;
    }

    method PushWriterAndResume(writer: Writer) returns (threw: bool)
      requires Valid() && writer.id !in Ids(machine.writersIn)
      modifies this, executor
      ensures Valid() && isActive == old(isActive) && threw == !isActive
      ensures machine == PushAndResume(old(machine), LockWriter(writer)) && machine.owed == old(machine).owed
      ensures old(machine).log <= machine.log
      ensures executor.jobs == old(executor.jobs) + machine.log[|old(machine).log|..]
      ensures old(isActive) && old(readerList) != [] ==>
                readerList == old(readerList)[1..] && buffer == old(buffer) && writerList == old(writerList)
      ensures old(isActive) && old(readerList) == [] && old(|buffer|) < Room() ==>
                readerList == [] && buffer == old(buffer) + [writer.value] && writerList == old(writerList)
      ensures old(isActive) && old(readerList) == [] && old(|buffer|) >= Room() ==>
                readerList == [] && buffer == old(buffer) && writerList == old(writerList) + [writer]
      ensures !old(isActive) ==> unchanged(`buffer, `writerList, `readerList)
      ensures executor.jobs == old(executor.jobs) +
              if !old(isActive) then []
              else if old(readerList) != [] then
                [ResumeReader(old(readerList)[0], writer.value), ResumeWriter(writer.id)]
              else if old(|buffer|) < Room() then [ResumeWriter(writer.id)]
              else []
    {
      hide *;
      ghost var before := machine;
      HoldsNow(this);
      OwedByPush(machine, LockWriter(writer));
      Whole(machine, LockWriter(writer));
      var resumes;
      threw, resumes := TryPushWriter(writer);
      ResumeEach(resumes, before);
      assert machine.log[|before.log|..] == resumes;
    }

    /** An awaiter that is not suspended is not in the list, and removing it does nothing. */
    method RemoveReaderAwaiter(reader: nat) returns (size: nat)
      requires Valid()
      modifies this
      ensures Valid() && isActive == old(isActive) && machine == Step(old(machine), RemoveReader(reader))
      ensures size == if reader in old(readerList) then 1 else 0
      ensures forall x :: x in readerList <==> x in old(readerList) && x != reader
      ensures Subsequence(readerList, old(readerList))
      ensures unchanged(`buffer, `writerList)
      ensures machine.goneReaders == old(machine).goneReaders + if size == 1 then {reader} else {}
    {
      hide *;
      HoldsNow(this);
      ReaderRemoved(machine, reader);
      RemoveOne(readerList, reader);
      var kept := Without(readerList, {reader});
      size := |readerList| - |kept|;
      readerList := kept;
      machine := Step(machine, RemoveReader(reader));
      IsValid(this);
    }

    method RemoveWriterAwaiter(writer: Writer) returns (size: nat)
      requires Valid()
      modifies this
      ensures Valid() && isActive == old(isActive) && machine == Step(old(machine), RemoveWriter(writer))
      ensures size == if writer in old(writerList) then 1 else 0
      ensures forall x :: x in writerList <==> x in old(writerList) && x != writer
      ensures Subsequence(writerList, old(writerList))
      ensures unchanged(`buffer, `readerList)
      ensures machine.goneWriters == old(machine).goneWriters + if size == 1 then {writer} else {}
    {
      hide *;
      HoldsNow(this);
      WriterRemoved(machine, writer);
      RemoveOne(writerList, writer);
      var kept := Without(writerList, {writer});
      size := |writerList| - |kept|;
      writerList := kept;
      machine := Step(machine, RemoveWriter(writer));
      IsValid(this);
    }

    /** Only the call that flips the flag cleans up; a later one changes nothing. */
    method Close()
      requires Valid()
      modifies this, executor
      ensures Valid() && !isActive
      ensures machine == if old(isActive) then Step(Step(old(machine), CloseFlag), CleanUp) else old(machine)
      ensures !old(isActive) ==> unchanged(this) && unchanged(executor)
      ensures old(isActive) ==> buffer == [] && writerList == [] && readerList == []
      ensures old(isActive) ==>
                var n, w, r := |old(executor.jobs)|, |old(writerList)|, |old(readerList)|;
                && old(executor.jobs) <= executor.jobs && |executor.jobs| == n + w + r
                && (forall k | 0 <= k < w :: executor.jobs[n + k] == ResumeWriter(old(writerList)[k].id))
                && (forall k | 0 <= k < r :: executor.jobs[n + w + k] == ResumeReaderUnsafe(old(readerList)[k]))
    {
      hide *;
      HoldsNow(this);
      FlagLowered(machine);
      if isActive {
        isActive := false;
        machine := Step(machine, CloseFlag);
        IsValid(this);
        CleanUpQueues();
      }
    }

    method CleanUpQueues()
      requires Valid() && machine.phase.Flagged?
      modifies this, executor
      ensures Valid() && !isActive && machine == Step(old(machine), CleanUp)
      ensures buffer == [] && writerList == [] && readerList == []
      ensures var n, w, r := |old(executor.jobs)|, |old(writerList)|, |old(readerList)|;
              && old(executor.jobs) <= executor.jobs && |executor.jobs| == n + w + r
              && (forall k | 0 <= k < w :: executor.jobs[n + k] == ResumeWriter(old(writerList)[k].id))
              && (forall k | 0 <= k < r :: executor.jobs[n + w + k] == ResumeReaderUnsafe(old(readerList)[k]))
    {
      hide *;
      HoldsNow(this);
      ghost var log := executor.jobs;
      SentByCleanUp(machine);
      StepKeeps(machine, CleanUp);
      Spelled(log, writerList, readerList);
      ResumeSuspended();
      machine := Step(machine, CleanUp);
      writerList, readerList, buffer := [], [], [];
      IsValid(this);
    }

    /** Its two loops. */
    method ResumeSuspended()
      modifies executor
      ensures executor.jobs == old(executor.jobs) + WriterResumes(writerList) + UnsafeResumes(readerList)
    {
      hide WriterResumes, UnsafeResumes;
      ghost var log := executor.jobs;
      var i := 0;
      OneMoreResume([], [], 0);
      while i < |writerList|
        invariant 0 <= i <= |writerList|
        invariant executor.jobs == log + WriterResumes(writerList[..i])
      {
        executor.Execute(ResumeWriter(writerList[i].id));
        OneMoreResume(writerList, [], i);
        i := i + 1;
      }
      assert writerList[..i] == writerList;
      ghost var resumed := executor.jobs;
      i := 0;
      while i < |readerList|
        invariant 0 <= i <= |readerList|
        invariant executor.jobs == resumed + UnsafeResumes(readerList[..i])
      {
        executor.Execute(ResumeReaderUnsafe(readerList[i]));
        OneMoreResume([], readerList, i);
        i := i + 1;
      }
      assert readerList[..i] == readerList;
    }
  }

  lemma HoldsNow(c: Channel)
    requires c.Valid()
    ensures Inv(c.machine) && c.machine.capacity == c.bufferCapacity && c.machine.holder.Free?
    ensures c.machine.queues == Queues(c.buffer, c.writerList, c.readerList)
    ensures c.machine.phase.Open? == c.isActive && c.executor.jobs == SentJobs(c.machine)
  {
  }

  lemma IsValid(c: Channel)
    requires Inv(c.machine) && c.machine.capacity == c.bufferCapacity && c.machine.holder.Free?
    requires c.machine.queues == Queues(c.buffer, c.writerList, c.readerList)
    requires c.machine.phase.Open? == c.isActive && c.executor.jobs == SentJobs(c.machine)
    ensures c.Valid()
  {
  }

  /** What PushAndResume is made of. */
  lemma Whole(s: State, lock: Event)
    ensures var t := Step(Step(s, lock), Commit);
            s.log <= t.log ==> PushAndResume(s, lock) == ResumeAll(t, |s.log|, |t.log| - |s.log|)
  {
    hide Step, ResumeAll;
  }

  lemma Spelled(log: seq<Job>, ws: seq<Writer>, rs: seq<nat>)
    ensures var jobs := log + WriterResumes(ws) + UnsafeResumes(rs);
            && log <= jobs && |jobs| == |log| + |ws| + |rs|
            && (forall k | 0 <= k < |ws| :: jobs[|log| + k] == ResumeWriter(ws[k].id))
            && (forall k | 0 <= k < |rs| :: jobs[|log| + |ws| + k] == ResumeReaderUnsafe(rs[k]))
  {
  }

  lemma OpenMeansSet(s: State, k: nat)
    requires Inv(s) && k < |s.sent|
    ensures s.sent[k] < |s.log| && s.sent[k] !in s.owed
    ensures s.phase.Open? ==> !s.log[s.sent[k]].ResumeReaderUnsafe?
  {
    assert s.sent[k] in s.sent;
  }

  lemma OneMoreResume(ws: seq<Writer>, rs: seq<nat>, i: nat)
    ensures WriterResumes([]) == [] && UnsafeResumes([]) == []
    ensures i < |ws| ==> WriterResumes(ws[..i + 1]) == WriterResumes(ws[..i]) + [ResumeWriter(ws[i].id)]
    ensures i < |rs| ==> UnsafeResumes(rs[..i + 1]) == UnsafeResumes(rs[..i]) + [ResumeReaderUnsafe(rs[i])]
  {
  }

  /** A push appends to the log and leaves what was sent alone. */
  lemma SentStays(s: State, lock: Event)
    requires Inv(s) && (lock.LockReader? || lock.LockWriter?)
    ensures SentJobs(Step(Step(s, lock), Commit)) == SentJobs(s)
  {
    hide Accepting, Formed, Ran, PushReader, PushWriter;
    var t := Step(Step(s, lock), Commit);
    assert t.sent == s.sent && s.log <= t.log;
    forall k | 0 <= k < |s.sent| ensures t.sent[k] < |s.log| && t.log[t.sent[k]] == s.log[s.sent[k]] {
      assert s.sent[k] in s.sent;
    }
  }

  /** All the resumes of a push are owed when it unlocks, and its first one waits for no other. */
  lemma OwedByPush(s: State, lock: Event)
    requires Inv(s) && s.holder.Free? && (lock.LockReader? || lock.LockWriter?)
    ensures var t := Step(Step(s, lock), Commit);
            && s.log <= t.log && |s.log| !in t.second
            && (forall i :: i in t.owed <==> i in s.owed || |s.log| <= i < |t.log|)
            && (forall i | i in s.owed :: i < |s.log|)
  {
    hide Accepting, Formed, Ran, PushReader, PushWriter, Positions;
  }

  lemma OwedInLog(s: State)
    requires Inv(s)
    ensures forall i | i in s.owed :: i < |s.log|
  {
  }

  lemma ListsDistinct(s: State)
    requires Inv(s)
    ensures Distinct(s.queues.readers) && Distinct(s.queues.writers)
  {
    WithoutDistinct(s.readersIn, s.goneReaders);
    WritersDistinct(s);
    WithoutDistinct(s.writersIn, s.goneWriters);
    hide Accepting, Ran, Delivered, Without;
  }

  lemma RemoveOne<T>(xs: seq<T>, x: T)
    requires Distinct(xs)
    ensures |Without(xs, {x})| == |xs| - if x in xs then 1 else 0
    ensures forall y :: y in Without(xs, {x}) <==> y in xs && y != x
    ensures Subsequence(Without(xs, {x}), xs)
  {
    hide *;
    WithoutMembers(xs, {x});
    WithoutIsSubsequence(xs, {x});
    RemoveOneLength(xs, x);
  }

  lemma {:induction false} RemoveOneLength<T>(xs: seq<T>, x: T)
    requires Distinct(xs)
    ensures |Without(xs, {x})| == |xs| - if x in xs then 1 else 0
  {
    if xs != [] {
      var front := xs[..|xs| - 1];
      RemoveOneLength(front, x);
      WithoutLast(xs, {x});
      hide Without;
      assert xs == front + [xs[|xs| - 1]];
      assert forall k | 0 <= k < |front| :: front[k] == xs[k] != xs[|xs| - 1];
    }
  }

  lemma SameJobs(s: State, t: State)
    requires t.sent == s.sent && t.log == s.log
    ensures SentJobs(t) == SentJobs(s)
  {
  }

  /** What a removal does to what the object keeps. */
  lemma ReaderRemoved(s: State, r: nat)
    requires Inv(s) && s.holder.Free?
    ensures var t := Step(s, RemoveReader(r));
            && Inv(t) && t.capacity == s.capacity && t.phase == s.phase && t.holder.Free? && SentJobs(t) == SentJobs(s)
            && t.queues == Queues(s.queues.buffer, s.queues.writers, Without(s.queues.readers, {r}))
            && t.goneReaders == s.goneReaders + if r in s.queues.readers then {r} else {}
    ensures Distinct(s.queues.readers)
  {
    ListsDistinct(s);
    StepKeeps(s, RemoveReader(r));
    AbsentStays(s.queues.readers, r);
    hide Inv, SentJobs, Without, Distinct;
    SameJobs(s, Step(s, RemoveReader(r)));
  }

  lemma WriterRemoved(s: State, w: Writer)
    requires Inv(s) && s.holder.Free?
    ensures var t := Step(s, RemoveWriter(w));
            && Inv(t) && t.capacity == s.capacity && t.phase == s.phase && t.holder.Free? && SentJobs(t) == SentJobs(s)
            && t.queues == Queues(s.queues.buffer, Without(s.queues.writers, {w}), s.queues.readers)
            && t.goneWriters == s.goneWriters + if w in s.queues.writers then {w} else {}
    ensures Distinct(s.queues.writers)
  {
    ListsDistinct(s);
    StepKeeps(s, RemoveWriter(w));
    AbsentStays(s.queues.writers, w);
    hide Inv, SentJobs, Without, Distinct;
    SameJobs(s, Step(s, RemoveWriter(w)));
  }

  lemma FlagLowered(s: State)
    requires Inv(s)
    ensures var t := Step(s, CloseFlag);
            Inv(t) && (s.phase.Open? ==> t == s.(phase := Flagged)) && SentJobs(t) == SentJobs(s)
  {
    StepKeeps(s, CloseFlag);
    hide Inv;
    assert Step(s, CloseFlag).sent == s.sent && Step(s, CloseFlag).log == s.log;
  }

  lemma SentByCleanUp(s: State)
    requires Inv(s) && s.holder.Free? && s.phase.Flagged?
    ensures var t := Step(s, CleanUp);
            && SentJobs(t) == SentJobs(s) + WriterResumes(s.queues.writers) + UnsafeResumes(s.queues.readers)
            && WriterResumes([]) == [] && UnsafeResumes([]) == [] && t.capacity == s.capacity
            && t.queues == Queues([], [], []) && t.phase.Cleaned? && t.holder.Free?
  {
    hide Accepting, Formed, Ran, WriterResumes, UnsafeResumes;
    forall k | 0 <= k < |s.sent| ensures s.sent[k] < |s.log| {
      assert s.sent[k] in s.sent;
    }
    OneMoreResume([], [], 0);
    assert SentJobs(Step(s, CleanUp)) == SentJobs(s) + CleanUpJobs(s.queues);
  }

  lemma AbsentStays<T>(xs: seq<T>, x: T)
    ensures x !in xs ==> Without(xs, {x}) == xs
  {
    if x !in xs {
      WithoutNothing(xs, {x});
    }
  }

  /** A suspended read. The field target is what the reference given to operator>> ends up holding. */
  class ReaderAwaiter {
    const id: nat
    const hasTarget: bool
    var channel: Channel?
    var result: Option<Value>
    var target: Option<Value>

    constructor (id: nat, channel: Channel, hasTarget: bool)
      ensures this.channel == channel && this.id == id && this.hasTarget == hasTarget
      ensures result == None && target == None
    {
      this.id, this.channel, this.hasTarget := id, channel, hasTarget;
      result, target := None, None;
    }

    method AfterSuspend() returns (threw: bool)
      requires channel != null && channel.Valid() && id !in channel.machine.readersIn
      modifies channel, channel.executor
      ensures channel.Valid() && threw == !channel.isActive
      ensures channel.machine == PushAndResume(old(channel.machine), LockReader(id))
      ensures channel.machine.owed == old(channel.machine).owed && old(channel.machine).log <= channel.machine.log
      ensures channel.executor.jobs
              == old(channel.executor.jobs) + channel.machine.log[|old(channel.machine).log|..]
      ensures channel.executor.jobs == old(channel.executor.jobs) +
                if !old(channel.isActive) || (old(channel.buffer) == [] && old(channel.writerList) == []) then []
                else if old(channel.buffer) == [] then
                  [ResumeReader(id, old(channel.writerList)[0].value), ResumeWriter(old(channel.writerList)[0].id)]
                else if old(channel.writerList) == [] then [ResumeReader(id, old(channel.buffer)[0])]
                else [ResumeWriter(old(channel.writerList)[0].id), ResumeReader(id, old(channel.buffer)[0])]
      ensures old(channel.isActive) && old(channel.buffer) == [] && old(channel.writerList) == [] ==>
                channel.readerList == old(channel.readerList) + [id]
    {
      threw := channel.PushReaderAndResume(id);
    }

    /**
     Runs the k-th job the executor got, which is for this awaiter. The result is read only if the flag is
     still up, and then it has been set: that the read is defined is proved, not required.
     */
    method Resume(k: nat) returns (outcome: Outcome)
      requires channel != null && channel.Valid()
      requires k < |channel.executor.jobs| && channel.machine.sent[k] !in channel.machine.outcomes
      requires !channel.executor.jobs[k].ResumeWriter? && channel.executor.jobs[k].reader == id
      requires result == None && target == None
      modifies this, channel`machine
      ensures old(channel).Valid() && old(channel).machine
                == Step(old(channel.machine), RunJob(old(channel.machine).sent[k]))
      ensures old(channel.machine).sent[k] in old(channel).machine.outcomes
      ensures outcome == old(channel).machine.outcomes[old(channel.machine).sent[k]] && !outcome.ReadUnset?
      ensures old(channel).isActive ==>
                old(channel).executor.jobs[k].ResumeReader? && outcome == Received(old(channel).executor.jobs[k].value)
      ensures !old(channel).isActive ==> outcome == ThrewClosed
      ensures outcome.Received? ==> channel == null && result == Some(outcome.value)
      ensures outcome.Received? && hasTarget ==> target == Some(outcome.value)
      ensures !outcome.Received? ==> outcome == ThrewClosed && channel == old(channel)
      ensures !(outcome.Received? && hasTarget) ==> target == None
    {
      hide Inv;
      ghost var i := channel.machine.sent[k];
      OpenMeansSet(channel.machine, k);
      StepKeeps(channel.machine, RunJob(i));
      channel.machine := Step(channel.machine, RunJob(i));
      var job := channel.executor.jobs[k];
      if job.ResumeReader? {
        result := Some(job.value);
      }
      if !channel.isActive {
        return ThrewClosed;
      }
      if hasTarget {
        target := Some(result.value);
      }
      channel := null;
      outcome := Received(result.value);
    }

    /** The destructor. After a value has been received the channel is no longer touched. */
    method Destroy()
      requires channel != null ==> channel.Valid()
      modifies channel
      ensures channel != null ==> channel.Valid() && channel.machine == Step(old(channel.machine), RemoveReader(id))
      ensures channel != null ==>
                forall r :: r in channel.readerList <==> r in old(channel.readerList) && r != id
    {
      if channel != null {
        var _ := channel.RemoveReaderAwaiter(id);
      }
    }
  }

  /** A suspended write. */
  class WriterAwaiter {
    const pending: Writer
    var channel: Channel?
    var finished: bool

    constructor (pending: Writer, channel: Channel)
      ensures this.channel == channel && this.pending == pending && !finished
    {
      this.pending, this.channel, finished := pending, channel, false;
    }

    method AfterSuspend() returns (threw: bool)
      requires channel != null && channel.Valid() && pending.id !in Ids(channel.machine.writersIn)
      modifies channel, channel.executor
      ensures channel.Valid() && threw == !channel.isActive
      ensures channel.machine == PushAndResume(old(channel.machine), LockWriter(pending))
      ensures channel.machine.owed == old(channel.machine).owed && old(channel.machine).log <= channel.machine.log
      ensures channel.executor.jobs
              == old(channel.executor.jobs) + channel.machine.log[|old(channel.machine).log|..]
      ensures channel.executor.jobs == old(channel.executor.jobs) +
                if !old(channel.isActive) then []
                else if old(channel.readerList) != [] then
                  [ResumeReader(old(channel.readerList)[0], pending.value), ResumeWriter(pending.id)]
                else if old(|channel.buffer|) < channel.Room() then [ResumeWriter(pending.id)]
                else []
      ensures old(channel.isActive) && old(channel.readerList) == []
              && old(|channel.buffer|) >= channel.Room() ==>
                channel.writerList == old(channel.writerList) + [pending]
    {
      threw := channel.PushWriterAndResume(pending);
    }

    method Resume(k: nat) returns (outcome: Outcome)
      requires channel != null && channel.Valid()
      requires k < |channel.executor.jobs| && channel.machine.sent[k] !in channel.machine.outcomes
      requires channel.executor.jobs[k] == ResumeWriter(pending.id)
      modifies this, channel`machine
      ensures old(channel).Valid() && old(channel).machine
                == Step(old(channel.machine), RunJob(old(channel.machine).sent[k]))
      ensures old(channel.machine).sent[k] in old(channel).machine.outcomes
      ensures outcome == old(channel).machine.outcomes[old(channel.machine).sent[k]]
      ensures outcome == if old(channel).isActive then Written else ThrewClosed
      ensures finished && channel == if outcome == Written then null else old(channel)
    {
      hide Inv;
      ghost var i := channel.machine.sent[k];
      OpenMeansSet(channel.machine, k);
      StepKeeps(channel.machine, RunJob(i));
      channel.machine := Step(channel.machine, RunJob(i));
      finished := true;
      if !channel.isActive {
        return ThrewClosed;
      }
      channel := null;
      outcome := Written;
    }

    method Destroy()
      requires channel != null ==> channel.Valid()
      modifies channel
      ensures channel != null ==>
                channel.Valid() && channel.machine == Step(old(channel.machine), RemoveWriter(pending))
      ensures channel != null ==>
                forall w :: w in channel.writerList <==> w in old(channel.writerList) && w != pending
    {
      if channel != null {
        var _ := channel.RemoveWriterAwaiter(pending);
      }
    }
  }
}
