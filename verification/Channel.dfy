/**
 The channel of src/task/Channel.h as a machine of atomic steps.

 A step is one critical section of the channel lock, or one access to the atomic flag. A push locks in
 one step and takes effect in another, because the flag may flip between the check at the start of the
 critical section and its effect. Which awaiters to resume is decided under the lock; a push resumes
 them one by one after it has unlocked, each in a step of its own, so that anything may happen before.
 To resume an awaiter is to hand a job to its executor; running the job is again a later step, and jobs
 run in any order.
 */
module ChannelMachine {
  import opened Sequences

  type Value(==, !new)

  /** A pending write: a name for the awaiter that no other awaiter of the run has, and the value it carries. */
  datatype Writer = Writer(id: nat, value: Value)

  datatype Job =
    | ResumeReader(reader: nat, value: Value)
    | ResumeReaderUnsafe(reader: nat)
    | ResumeWriter(writer: nat)

  datatype Queues = Queues(buffer: seq<Value>, writers: seq<Writer>, readers: seq<nat>)

  /**
   What one critical section does: the queues it leaves and the resumes it decides on, in the order they
   are to be made.
   */
  datatype Effect = Effect(queues: Queues, jobs: seq<Job>)

  datatype Outcome = Received(value: Value) | Written | ThrewClosed | ReadUnset

  datatype Phase = Open | Flagged | Cleaned

  datatype Holder = Free | PushingReader(reader: nat) | PushingWriter(writer: Writer)

  /**
   A resume is named by its position in the log. The last seven fields are a history: the program keeps
   none of them.
   */
  datatype State = State(
    capacity: int,
    queues: Queues,
    phase: Phase,
    holder: Holder,
    log: seq<Job>,                // every resume decided on so far, in the order of the critical sections
    owed: set<nat>,               // resumes that a push has yet to make, with the lock released
    second: set<nat>,             // resumes that come after another one of the same push
    sent: seq<nat>,               // resumes made, in the order in which the executors got them
    outcomes: map<nat, Outcome>,  // how the jobs that have run ended
    readersIn: seq<nat>,          // readers accepted by a push, in order
    writersIn: seq<Writer>,       // writers accepted by a push, in order
    goneReaders: set<nat>,        // readers that were suspended and then removed
    goneWriters: set<Writer>,     // writers that were suspended and then removed
    dropped: seq<Value>           // values in the channel when it was cleaned up
  )

  datatype Event =
    | LockReader(reader: nat)
    | LockWriter(writer: Writer)
    | Commit
    | Dispatch(index: nat)
    | RemoveReader(reader: nat)
    | RemoveWriter(writer: Writer)
    | CloseFlag
    | CleanUp
    | RunJob(index: nat)

  const TWO_TO_THE_64: nat := 0x1_0000_0000_0000_0000

  /** The int capacity is compared with a size_t, so a negative one counts modulo 2^64. */
  function Limit(capacity: int): int {
    if capacity >= 0 then capacity else capacity + TWO_TO_THE_64
  }

  function Values(ws: seq<Writer>): seq<Value>
  {
    seq(|ws|, i requires 0 <= i < |ws| => ws[i].value)
  }

  function Ids(ws: seq<Writer>): seq<nat>
  {
    seq(|ws|, i requires 0 <= i < |ws| => ws[i].id)
  }

  // ----- the critical sections

  function PushReader(q: Queues, reader: nat): Effect {
    if q.buffer != [] then
      if q.writers != [] then
        Effect(q.(buffer := q.buffer[1..] + [q.writers[0].value], writers := q.writers[1..]),
               [ResumeWriter(q.writers[0].id), ResumeReader(reader, q.buffer[0])])
      else
        Effect(q.(buffer := q.buffer[1..]), [ResumeReader(reader, q.buffer[0])])
    else if q.writers != [] then
      Effect(q.(writers := q.writers[1..]),
             [ResumeReader(reader, q.writers[0].value), ResumeWriter(q.writers[0].id)])
    else
      Effect(q.(readers := q.readers + [reader]), [])
  }

  function PushWriter(capacity: int, q: Queues, writer: Writer): Effect {
    if q.readers != [] then
      Effect(q.(readers := q.readers[1..]),
             [ResumeReader(q.readers[0], writer.value), ResumeWriter(writer.id)])
    else if |q.buffer| < Limit(capacity) then
      Effect(q.(buffer := q.buffer + [writer.value]), [ResumeWriter(writer.id)])
    else
      Effect(q.(writers := q.writers + [writer]), [])
  }

  function WriterResumes(ws: seq<Writer>): seq<Job>
  {
    seq(|ws|, i requires 0 <= i < |ws| => ResumeWriter(ws[i].id))
  }

  function UnsafeResumes(rs: seq<nat>): seq<Job>
  {
    seq(|rs|, i requires 0 <= i < |rs| => ResumeReaderUnsafe(rs[i]))
  }

  function CleanUpJobs(q: Queues): seq<Job> {
    WriterResumes(q.writers) + UnsafeResumes(q.readers)
  }

  /** Running a job: set the result if the job carries one, then resume. The resume checks the flag before it reads. */
  function Resumed(active: bool, job: Job): Outcome {
    if !active then ThrewClosed
    else match job
      case ResumeReader(_, v) => Received(v)
      case ResumeReaderUnsafe(_) => ReadUnset
      case ResumeWriter(_) => Written
  }

  // ----- the machine

  function Init(capacity: int): State {
    State(capacity, Queues([], [], []), Open, Free, [], {}, {}, [], map[], [], [], {}, {}, [])
  }

  function Positions(from: nat, count: nat): (r: set<nat>)
    ensures forall i :: i in r <==> from <= i < from + count
  {
    if count == 0 then {} else Positions(from, count - 1) + {from + count - 1}
  }

  /** A push lets go of the lock: its effect on the queues is there, its resumes are still to be made. */
  function Unlocked(s: State, eff: Effect): State {
    s.(queues := eff.queues, holder := Free, log := s.log + eff.jobs,
       owed := s.owed + Positions(|s.log|, |eff.jobs|),
       second := s.second + Positions(|s.log| + 1, if eff.jobs == [] then 0 else |eff.jobs| - 1))
  }

  /** One step. An event that cannot happen in s leaves s as it is. */
  function Step(s: State, e: Event): State {
    match e
    case LockReader(r) =>
      if s.holder.Free? && s.phase.Open? && r !in s.readersIn then s.(holder := PushingReader(r)) else s
    case LockWriter(w) =>
      if s.holder.Free? && s.phase.Open? && w.id !in Ids(s.writersIn) then s.(holder := PushingWriter(w)) else s
    case Commit =>
      (match s.holder
       case Free => s
       case PushingReader(r) =>
         Unlocked(s, PushReader(s.queues, r)).(readersIn := s.readersIn + [r])
       case PushingWriter(w) =>
         Unlocked(s, PushWriter(s.capacity, s.queues, w)).(writersIn := s.writersIn + [w]))
    case Dispatch(i) =>
      if i in s.owed && (i in s.second ==> i - 1 !in s.owed) then
        s.(owed := s.owed - {i}, sent := s.sent + [i])
      else s
    case RemoveReader(r) =>
      if s.holder.Free? && r in s.queues.readers then
        s.(queues := s.queues.(readers := Without(s.queues.readers, {r})), goneReaders := s.goneReaders + {r})
      else s
    case RemoveWriter(w) =>
      if s.holder.Free? && w in s.queues.writers then
        s.(queues := s.queues.(writers := Without(s.queues.writers, {w})), goneWriters := s.goneWriters + {w})
      else s
    case CloseFlag =>
      if s.phase.Open? then s.(phase := Flagged) else s
    case CleanUp =>
      if s.holder.Free? && s.phase.Flagged? then
        s.(queues := Queues([], [], []), phase := Cleaned, log := s.log + CleanUpJobs(s.queues),
           sent := s.sent + seq(|CleanUpJobs(s.queues)|, k requires k >= 0 => |s.log| + k),
           dropped := s.queues.buffer + Values(s.queues.writers))
      else s
    case RunJob(i) =>
      if i < |s.log| && i !in s.owed && i !in s.outcomes then
        s.(outcomes := s.outcomes[i := Resumed(s.phase.Open?, s.log[i])])
      else s
  }

  function Exec(s: State, es: seq<Event>): State {
    if es == [] then s else Step(Exec(s, es[..|es| - 1]), es[|es| - 1])
  }

  // ----- what a state is a function of

  /** The accepted readers that did not give up while they were suspended. */
  function LiveReaders(s: State): seq<nat> { Without(s.readersIn, s.goneReaders) }

  function LiveWriters(s: State): seq<Writer> { Without(s.writersIn, s.goneWriters) }

  function ReaderJobs(log: seq<Job>): seq<Job> {
    if log == [] then []
    else
      var j := log[|log| - 1];
      ReaderJobs(log[..|log| - 1]) + if j.ResumeWriter? then [] else [j]
  }

  function WritersResumed(log: seq<Job>): seq<nat> {
    if log == [] then []
    else
      var j := log[|log| - 1];
      WritersResumed(log[..|log| - 1]) + if j.ResumeWriter? then [j.writer] else []
  }

  /** The k-th reader is given the value of the k-th writer. */
  function Paired(rs: seq<nat>, ws: seq<Writer>): seq<Job>
    requires |rs| == |ws|
  {
    seq(|rs|, i requires 0 <= i < |rs| => ResumeReader(rs[i], ws[i].value))
  }

  /**
   The form of a channel that has paired and buffered as much as it can, for live readers rs and live
   writers ws. There are as many pairs as there are live readers and live writers; and as many writers
   have been let go on as are paired or fit the buffer.
   */
  ghost predicate Shape(limit: int, rs: seq<nat>, ws: seq<Writer>, q: Queues, given: seq<Job>, resumed: seq<nat>) {
    var h, k := Min(|rs|, |ws|), Min(|ws|, |rs| + limit);
    && 0 <= limit
    && q.readers == rs[h..]
    && q.buffer == Values(ws[h..k])
    && q.writers == ws[k..]
    && given == Paired(rs[..h], ws[..h])
    && resumed == Ids(ws[..k])
  }

  /** Before the clean-up, queues and resumes are a function of the live readers, the live writers and the capacity. */
  ghost predicate NormalForm(s: State) {
    && Shape(Limit(s.capacity), LiveReaders(s), LiveWriters(s), s.queues, ReaderJobs(s.log), WritersResumed(s.log))
    && s.dropped == []
  }

  /** After the clean-up everything is empty and the resume of every live awaiter has been decided on, in order. */
  ghost predicate CleanedForm(s: State) {
    var rs, ws := LiveReaders(s), LiveWriters(s);
    var h := Min(|rs|, |ws|);
    && s.queues == Queues([], [], [])
    && s.holder.Free?
    && ReaderJobs(s.log) == Paired(rs[..h], ws[..h]) + UnsafeResumes(rs[h..])
    && WritersResumed(s.log) == Ids(ws)
    && s.dropped == Values(ws[h..])
  }

  ghost predicate Accepting(s: State) {
    && Distinct(s.readersIn)
    && Distinct(Ids(s.writersIn))
    && (s.holder.PushingReader? ==> s.holder.reader !in s.readersIn)
    && (s.holder.PushingWriter? ==> s.holder.writer.id !in Ids(s.writersIn))
    && (forall r | r in s.goneReaders :: r in s.readersIn)
    && (forall w | w in s.goneWriters :: w in s.writersIn)
  }

  /** A result that was never set is not read: as long as the flag is up no job lacks a result. */
  ghost predicate Ran(s: State) {
    && (s.phase.Open? ==> forall j | j in s.log :: !j.ResumeReaderUnsafe?)
    && (s.phase.Open? ==> forall i | i in s.outcomes :: !s.outcomes[i].ThrewClosed?)
    && (forall i | i in s.outcomes :: i < |s.log| && !s.outcomes[i].ReadUnset?)
    && (forall i | i in s.outcomes && !s.outcomes[i].ThrewClosed? :: s.outcomes[i] == Resumed(true, s.log[i]))
  }

  /** Each resume decided on is made once or still owed. */
  ghost predicate Delivered(s: State) {
    && Distinct(s.sent)
    && (forall i | i in s.sent :: i < |s.log|)
    && (forall i: nat | i < |s.log| :: i in s.sent <==> i !in s.owed)
    && (forall i | i in s.owed :: i < |s.log|)
    && (forall i | i in s.second :: 0 < i < |s.log|)
    && (forall i | i in s.outcomes :: i !in s.owed)
  }

  ghost predicate Formed(s: State) {
    if s.phase.Cleaned? then CleanedForm(s) else NormalForm(s)
  }

  ghost predicate Inv(s: State) {
    Accepting(s) && Ran(s) && Delivered(s) && Formed(s)
  }

  // ----- the log

  lemma {:induction false} ReaderJobsConcat(a: seq<Job>, b: seq<Job>)
    ensures ReaderJobs(a + b) == ReaderJobs(a) + ReaderJobs(b)
  {
    if b == [] {
      assert a + b == a;
    } else {
      assert (a + b)[..|a + b| - 1] == a + b[..|b| - 1];
      ReaderJobsConcat(a, b[..|b| - 1]);
    }
  }

  lemma {:induction false} WritersResumedConcat(a: seq<Job>, b: seq<Job>)
    ensures WritersResumed(a + b) == WritersResumed(a) + WritersResumed(b)
  {
    if b == [] {
      assert a + b == a;
    } else {
      assert (a + b)[..|a + b| - 1] == a + b[..|b| - 1];
      WritersResumedConcat(a, b[..|b| - 1]);
    }
  }

  lemma {:induction false} LogOfWriters(ws: seq<Writer>)
    ensures ReaderJobs(WriterResumes(ws)) == []
    ensures WritersResumed(WriterResumes(ws)) == Ids(ws)
  {
    if ws != [] {
      assert WriterResumes(ws)[..|ws| - 1] == WriterResumes(ws[..|ws| - 1]);
      LogOfWriters(ws[..|ws| - 1]);
      assert Ids(ws) == Ids(ws[..|ws| - 1]) + [ws[|ws| - 1].id];
    }
  }

  lemma {:induction false} LogOfReaders(rs: seq<nat>)
    ensures ReaderJobs(UnsafeResumes(rs)) == UnsafeResumes(rs)
    ensures WritersResumed(UnsafeResumes(rs)) == []
  {
    if rs != [] {
      assert UnsafeResumes(rs)[..|rs| - 1] == UnsafeResumes(rs[..|rs| - 1]);
      LogOfReaders(rs[..|rs| - 1]);
      assert UnsafeResumes(rs) == UnsafeResumes(rs[..|rs| - 1]) + [ResumeReaderUnsafe(rs[|rs| - 1])];
    }
  }

  /** A push decides on at most two resumes; their projections are read off directly. */
  lemma LogOfPair(a: Job, b: Job)
    ensures ReaderJobs([]) == [] && WritersResumed([]) == []
    ensures ReaderJobs([a]) == if a.ResumeWriter? then [] else [a]
    ensures WritersResumed([a]) == if a.ResumeWriter? then [a.writer] else []
    ensures ReaderJobs([a, b]) == ReaderJobs([a]) + ReaderJobs([b])
    ensures WritersResumed([a, b]) == WritersResumed([a]) + WritersResumed([b])
  {
    assert [a][..0] == [] && [b][..0] == [];
    assert [a, b] == [a] + [b];
    ReaderJobsConcat([a], [b]);
    WritersResumedConcat([a], [b]);
  }

  /** One reader and one writer resumed, in either order. */
  lemma LogOfHandover(r: nat, v: Value, id: nat)
    ensures ReaderJobs([ResumeReader(r, v), ResumeWriter(id)]) == [ResumeReader(r, v)]
    ensures ReaderJobs([ResumeWriter(id), ResumeReader(r, v)]) == [ResumeReader(r, v)]
    ensures WritersResumed([ResumeReader(r, v), ResumeWriter(id)]) == [id]
    ensures WritersResumed([ResumeWriter(id), ResumeReader(r, v)]) == [id]
  {
    LogOfPair(ResumeReader(r, v), ResumeWriter(id));
    LogOfPair(ResumeWriter(id), ResumeReader(r, v));
  }

  /** A log that goes on keeps the ranks. */
  lemma RanksStay(s: State, t: State)
    requires s.log <= t.log
    ensures ReaderJobs(s.log) <= ReaderJobs(t.log) && WritersResumed(s.log) <= WritersResumed(t.log)
  {
    var more := t.log[|s.log|..];
    assert t.log == s.log + more;
    ReaderJobsConcat(s.log, more);
    WritersResumedConcat(s.log, more);
  }

  // ----- every step keeps the invariant

  /** A reader that finds values: the pair it makes, and the writer that moves up. */
  lemma PairUp(rs: seq<nat>, ws: seq<Writer>, h: nat, r: nat)
    requires h == |rs| < |ws|
    ensures Paired((rs + [r])[..h + 1], ws[..h + 1]) == Paired(rs[..h], ws[..h]) + [ResumeReader(r, ws[h].value)]
    ensures (rs + [r])[h + 1..] == []
  {
  }

  lemma MoveUp(ws: seq<Writer>, h: nat, k: nat)
    requires h <= k < |ws|
    ensures Ids(ws[..k + 1]) == Ids(ws[..k]) + [ws[k].id]
    ensures ws[k..][0] == ws[k] && ws[k..][1..] == ws[k + 1..]
    ensures Values(ws[k..k]) == [] && Values(ws[k + 1..k + 1]) == []
    ensures h < k ==> Values(ws[h..k]) != [] && Values(ws[h..k])[0] == ws[h].value
    ensures h < k ==> Values(ws[h..k])[1..] + [ws[k].value] == Values(ws[h + 1..k + 1])
  {
  }

  lemma ValuesOneMore(ws: seq<Writer>, w: Writer)
    ensures Values(ws + [w]) == Values(ws) + [w.value] && Values(ws + []) == Values(ws)
  {
    assert ws + [] == ws;
  }

  lemma ReaderWaits(limit: int, rs: seq<nat>, ws: seq<Writer>, q: Queues, given: seq<Job>, resumed: seq<nat>, r: nat)
    requires Shape(limit, rs, ws, q, given, resumed) && |ws| <= |rs|
    ensures q.buffer == [] && q.writers == []
    ensures Shape(limit, rs + [r], ws, q.(readers := q.readers + [r]), given, resumed)
  {
    var h := |ws|;
    assert (rs + [r])[..h] == rs[..h] && (rs + [r])[h..] == rs[h..] + [r];
  }

  /** The reader takes the earliest value; nobody waits to write. */
  lemma ReaderTakes(limit: int, rs: seq<nat>, ws: seq<Writer>, q: Queues, given: seq<Job>, resumed: seq<nat>, r: nat)
    requires Shape(limit, rs, ws, q, given, resumed) && |rs| < |ws| <= |rs| + limit
    ensures q.writers == [] && q.buffer != [] && q.buffer[0] == ws[|rs|].value
    ensures Shape(limit, rs + [r], ws, q.(buffer := q.buffer[1..]), given + [ResumeReader(r, ws[|rs|].value)], resumed)
  {
    PairUp(rs, ws, |rs|, r);
    assert Values(ws[|rs|..|ws|])[1..] == Values(ws[|rs| + 1..|ws|]);
  }

  /** The reader takes the earliest value, and the writer first in line moves up or hands over directly. */
  lemma ReaderAdmits(limit: int, rs: seq<nat>, ws: seq<Writer>, q: Queues, given: seq<Job>, resumed: seq<nat>, r: nat)
    requires Shape(limit, rs, ws, q, given, resumed) && |rs| + limit < |ws|
    ensures var k := |rs| + limit;
            && q.writers != [] && q.writers[0] == ws[k]
            && (if limit == 0 then q.buffer == [] && ws[k] == ws[|rs|]
                  else q.buffer != [] && q.buffer[0] == ws[|rs|].value)
            && Shape(limit, rs + [r], ws,
                     Queues(if limit == 0 then [] else q.buffer[1..] + [ws[k].value], q.writers[1..], q.readers),
                     given + [ResumeReader(r, ws[|rs|].value)], resumed + [ws[k].id])
  {
    hide Paired, Values, Ids;
    PairUp(rs, ws, |rs|, r);
    MoveUp(ws, |rs|, |rs| + limit);
  }

  lemma PushReaderShape(limit: int, rs: seq<nat>, ws: seq<Writer>, q: Queues, given: seq<Job>, resumed: seq<nat>,
        r: nat)
    requires Shape(limit, rs, ws, q, given, resumed) && limit >= 0
    ensures var eff := PushReader(q, r);
            Shape(limit, rs + [r], ws, eff.queues, given + ReaderJobs(eff.jobs), resumed + WritersResumed(eff.jobs))
  {
    hide ReaderJobs, WritersResumed, Shape;
    LogOfPair(ResumeWriter(0), ResumeWriter(0));
    assert given + [] == given && resumed + [] == resumed;
    if |ws| <= |rs| {
      ReaderWaits(limit, rs, ws, q, given, resumed, r);
    } else {
      var give := ResumeReader(r, ws[|rs|].value);
      if |ws| <= |rs| + limit {
        ReaderTakes(limit, rs, ws, q, given, resumed, r);
        LogOfPair(give, give);
      } else {
        var admit := ResumeWriter(ws[|rs| + limit].id);
        ReaderAdmits(limit, rs, ws, q, given, resumed, r);
        LogOfHandover(r, ws[|rs|].value, admit.writer);
      }
    }
  }

  lemma PushWriterShape(capacity: int, rs: seq<nat>, ws: seq<Writer>, q: Queues, given: seq<Job>, resumed: seq<nat>,
        w: Writer)
    requires Shape(Limit(capacity), rs, ws, q, given, resumed)
    ensures var eff := PushWriter(capacity, q, w);
            Shape(Limit(capacity), rs, ws + [w], eff.queues, given + ReaderJobs(eff.jobs),
                resumed + WritersResumed(eff.jobs))
  {
    hide ReaderJobs, WritersResumed, Limit, Shape;
    LogOfPair(ResumeWriter(w.id), ResumeWriter(w.id));
    if |ws| < |rs| {
      WriterMeetsReader(Limit(capacity), rs, ws, q, given, resumed, w);
      LogOfHandover(rs[|ws|], w.value, w.id);
    } else {
      assert given + [] == given && resumed + [] == resumed;
      WriterFits(Limit(capacity), rs, ws, q, given, resumed, w);
      WriterWaits(Limit(capacity), rs, ws, q, given, resumed, w);
    }
  }

  lemma WriterMeetsReader(limit: int, rs: seq<nat>, ws: seq<Writer>, q: Queues, given: seq<Job>, resumed: seq<nat>,
        w: Writer)
    requires Shape(limit, rs, ws, q, given, resumed) && |ws| < |rs|
    ensures q.readers != [] && q.readers[0] == rs[|ws|]
    ensures Shape(limit, rs, ws + [w], q.(readers := q.readers[1..]),
                  given + [ResumeReader(rs[|ws|], w.value)], resumed + [w.id])
  {
    assert ws[..|ws|] == ws && (ws + [w])[..|ws| + 1] == ws + [w];
    assert Paired(rs[..|ws| + 1], ws + [w]) == Paired(rs[..|ws|], ws) + [ResumeReader(rs[|ws|], w.value)];
    assert Ids(ws + [w]) == Ids(ws) + [w.id];
  }

  lemma WriterFits(limit: int, rs: seq<nat>, ws: seq<Writer>, q: Queues, given: seq<Job>, resumed: seq<nat>, w: Writer)
    requires Shape(limit, rs, ws, q, given, resumed) && |rs| <= |ws|
    ensures q.readers == []
    ensures |q.buffer| < limit ==>
              Shape(limit, rs, ws + [w], q.(buffer := q.buffer + [w.value]), given, resumed + [w.id])
  {
    if |q.buffer| < limit {
      assert (ws + [w])[..|ws| + 1] == ws + [w] && ws[..|ws|] == ws;
      assert (ws + [w])[..|rs|] == ws[..|rs|];
      assert (ws + [w])[|rs|..|ws| + 1] == ws[|rs|..|ws|] + [w];
      ValuesOneMore(ws[|rs|..|ws|], w);
      assert Ids(ws + [w]) == Ids(ws) + [w.id];
    }
  }

  lemma WriterWaits(limit: int, rs: seq<nat>, ws: seq<Writer>, q: Queues, given: seq<Job>, resumed: seq<nat>, w: Writer)
    requires Shape(limit, rs, ws, q, given, resumed) && |rs| <= |ws|
    ensures |q.buffer| >= limit ==>
              Shape(limit, rs, ws + [w], q.(writers := q.writers + [w]), given, resumed)
  {
    var h, k := |rs|, Min(|ws|, |rs| + limit);
    assert (ws + [w])[..h] == ws[..h] && (ws + [w])[h..k] == ws[h..k] && (ws + [w])[..k] == ws[..k];
    assert (ws + [w])[k..] == ws[k..] + [w];
  }

  lemma LimitIsSize(s: State)
    requires NormalForm(s)
    ensures Limit(s.capacity) >= 0
  {
  }

  lemma ReaderCommitKeeps(s: State)
    requires Inv(s) && s.holder.PushingReader?
    ensures Formed(Step(s, Commit))
  {
    LimitIsSize(s);
    hide Shape, Ran, Delivered, PushReader, ReaderJobs, WritersResumed, Limit, Positions;
    var r := s.holder.reader;
    WithoutConcat(s.readersIn, [r], s.goneReaders);
    WithoutNothing([r], s.goneReaders);
    PushReaderShape(Limit(s.capacity), LiveReaders(s), LiveWriters(s), s.queues, ReaderJobs(s.log),
        WritersResumed(s.log), r);
    ReaderJobsConcat(s.log, PushReader(s.queues, r).jobs);
    WritersResumedConcat(s.log, PushReader(s.queues, r).jobs);
  }

  lemma NotGone(s: State, w: Writer)
    requires Accepting(s) && w.id !in Ids(s.writersIn)
    ensures w !in s.goneWriters
  {
    forall i | 0 <= i < |s.writersIn| ensures s.writersIn[i].id in Ids(s.writersIn) {
      assert Ids(s.writersIn)[i] == s.writersIn[i].id;
    }
  }

  lemma WriterCommitKeeps(s: State)
    requires Inv(s) && s.holder.PushingWriter?
    ensures Formed(Step(s, Commit))
  {
    hide Shape, Ran, Delivered, PushWriter, ReaderJobs, WritersResumed, Limit, Positions;
    var w := s.holder.writer;
    NotGone(s, w);
    WithoutConcat(s.writersIn, [w], s.goneWriters);
    WithoutNothing([w], s.goneWriters);
    PushWriterShape(s.capacity, LiveReaders(s), LiveWriters(s), s.queues, ReaderJobs(s.log), WritersResumed(s.log), w);
    ReaderJobsConcat(s.log, PushWriter(s.capacity, s.queues, w).jobs);
    WritersResumedConcat(s.log, PushWriter(s.capacity, s.queues, w).jobs);
  }

  /** Taking x out of the tail of a list without repetitions leaves the rest of the list alone. */
  lemma WithoutInTail<T>(xs: seq<T>, k: nat, x: T)
    requires Distinct(xs) && k <= |xs| && x in xs[k..]
    ensures Without(xs, {x}) == xs[..k] + Without(xs[k..], {x})
  {
    assert xs == xs[..k] + xs[k..];
    WithoutConcat(xs[..k], xs[k..], {x});
    WithoutNothing(xs[..k], {x});
  }

  lemma RemoveReaderShape(limit: int, rs: seq<nat>, ws: seq<Writer>, q: Queues, given: seq<Job>, resumed: seq<nat>,
        r: nat)
    requires Shape(limit, rs, ws, q, given, resumed) && Distinct(rs) && r in q.readers
    ensures Shape(limit, Without(rs, {r}), ws, q.(readers := Without(q.readers, {r})), given, resumed)
  {
    var h := Min(|rs|, |ws|);
    WithoutInTail(rs, h, r);
    assert Without(rs, {r})[..h] == rs[..h];
  }

  lemma RemoveReaderKeeps(s: State, r: nat)
    requires Inv(s) && !s.phase.Cleaned? && s.holder.Free? && r in s.queues.readers
    ensures Formed(Step(s, RemoveReader(r)))
  {
    hide Shape;
    WithoutDistinct(s.readersIn, s.goneReaders);
    WithoutTwice(s.readersIn, s.goneReaders, {r});
    RemoveReaderShape(Limit(s.capacity), LiveReaders(s), LiveWriters(s), s.queues, ReaderJobs(s.log),
        WritersResumed(s.log), r);
  }

  lemma WritersDistinct(s: State)
    requires Accepting(s)
    ensures Distinct(s.writersIn)
  {
    forall i, j | 0 <= i < j < |s.writersIn| ensures s.writersIn[i] != s.writersIn[j] {
      assert Ids(s.writersIn)[i] != Ids(s.writersIn)[j];
    }
  }

  lemma RemoveWriterShape(limit: int, rs: seq<nat>, ws: seq<Writer>, q: Queues, given: seq<Job>, resumed: seq<nat>,
        w: Writer)
    requires Shape(limit, rs, ws, q, given, resumed) && Distinct(ws) && w in q.writers
    ensures Shape(limit, rs, Without(ws, {w}), q.(writers := Without(q.writers, {w})), given, resumed)
  {
    var h, k := Min(|rs|, |ws|), Min(|ws|, |rs| + limit);
    WithoutInTail(ws, k, w);
    var us := Without(ws, {w});
    assert us[..k] == ws[..k] && us[..h] == ws[..h] && us[h..k] == ws[h..k];
  }

  lemma RemoveWriterKeeps(s: State, w: Writer)
    requires Inv(s) && !s.phase.Cleaned? && s.holder.Free? && w in s.queues.writers
    ensures Formed(Step(s, RemoveWriter(w)))
  {
    hide Shape;
    WritersDistinct(s);
    WithoutDistinct(s.writersIn, s.goneWriters);
    WithoutTwice(s.writersIn, s.goneWriters, {w});
    RemoveWriterShape(Limit(s.capacity), LiveReaders(s), LiveWriters(s), s.queues, ReaderJobs(s.log),
        WritersResumed(s.log), w);
  }

  lemma CleanUpDispatches(q: Queues)
    ensures ReaderJobs(CleanUpJobs(q)) == UnsafeResumes(q.readers)
    ensures WritersResumed(CleanUpJobs(q)) == Ids(q.writers)
  {
    ReaderJobsConcat(WriterResumes(q.writers), UnsafeResumes(q.readers));
    WritersResumedConcat(WriterResumes(q.writers), UnsafeResumes(q.readers));
    LogOfWriters(q.writers);
    LogOfReaders(q.readers);
  }

  lemma JoinWriters(ws: seq<Writer>, h: nat, k: nat)
    requires h <= k <= |ws|
    ensures Ids(ws[..k]) + Ids(ws[k..]) == Ids(ws)
    ensures Values(ws[h..k]) + Values(ws[k..]) == Values(ws[h..])
    ensures Values(ws[..h]) + Values(ws[h..]) == Values(ws)
  {
  }

  lemma CleanUpKeeps(s: State)
    requires Inv(s) && s.holder.Free? && s.phase.Flagged?
    ensures Formed(Step(s, CleanUp))
  {
    hide ReaderJobs, WritersResumed, CleanUpJobs, Values, Ids, UnsafeResumes, Paired;
    var rs, ws := LiveReaders(s), LiveWriters(s);
    ReaderJobsConcat(s.log, CleanUpJobs(s.queues));
    WritersResumedConcat(s.log, CleanUpJobs(s.queues));
    CleanUpDispatches(s.queues);
    JoinWriters(ws, Min(|rs|, |ws|), Min(|ws|, |rs| + Limit(s.capacity)));
  }

  lemma FormedKeeps(s: State, e: Event)
    requires Inv(s)
    ensures Formed(Step(s, e))
  {
    hide Shape;
    match e
    case Commit =>
      if s.holder.PushingReader? { ReaderCommitKeeps(s); }
      else if s.holder.PushingWriter? { WriterCommitKeeps(s); }
    case RemoveReader(r) => if s.holder.Free? && r in s.queues.readers { RemoveReaderKeeps(s, r); }
    case RemoveWriter(w) => if s.holder.Free? && w in s.queues.writers { RemoveWriterKeeps(s, w); }
    case CleanUp => if s.holder.Free? && s.phase.Flagged? { CleanUpKeeps(s); }
    case _ =>
  }

  lemma AcceptingKeeps(s: State, e: Event)
    requires Inv(s)
    ensures Accepting(Step(s, e))
  {
    hide Formed, Ran, Delivered, Unlocked, PushReader, PushWriter, CleanUpJobs, Without;
    if e.Commit? {
      CommitAccepts(s);
    } else if e.RemoveReader? && e.reader in s.queues.readers {
      SuspendedReaderIsLive(s, e.reader);
    } else if e.RemoveWriter? && e.writer in s.queues.writers {
      SuspendedIsLive(s, e.writer);
    }
  }

  lemma CommitAccepts(s: State)
    requires Accepting(s)
    ensures Accepting(Step(s, Commit))
  {
    hide PushReader, PushWriter, Positions;
    if s.holder.PushingWriter? {
      assert Ids(s.writersIn + [s.holder.writer]) == Ids(s.writersIn) + [s.holder.writer.id];
    }
  }

  lemma SuspendedReaderIsLive(s: State, r: nat)
    requires Inv(s) && r in s.queues.readers
    ensures r in LiveReaders(s) && r in s.readersIn && r !in s.goneReaders
  {
    WithoutMembers(s.readersIn, s.goneReaders);
    hide Accepting, Ran, Delivered, Without;
  }

  lemma PushesAreSafe(s: State)
    ensures forall r :: forall j | j in PushReader(s.queues, r).jobs :: !j.ResumeReaderUnsafe?
    ensures forall w :: forall j | j in PushWriter(s.capacity, s.queues, w).jobs :: !j.ResumeReaderUnsafe?
  {
  }

  lemma RanKeeps(s: State, e: Event)
    requires Inv(s)
    ensures Ran(Step(s, e))
  {
    hide Accepting, Formed, PushReader, PushWriter;
    PushesAreSafe(s);
  }

  lemma DeliveredKeeps(s: State, e: Event)
    requires Inv(s)
    ensures Delivered(Step(s, e))
  {
    hide Accepting, Formed, PushReader, PushWriter, CleanUpJobs, Resumed, Positions;
    if e.CleanUp? && s.holder.Free? && s.phase.Flagged? {
      CleanUpDelivers(s);
    }
  }

  lemma CleanUpDelivers(s: State)
    requires Delivered(s) && s.holder.Free? && s.phase.Flagged?
    ensures Delivered(Step(s, CleanUp))
  {
    hide CleanUpJobs;
    var t := Step(s, CleanUp);
    var more := t.sent[|s.sent|..];
    assert t.sent == s.sent + more;
    forall i: nat | |s.log| <= i < |t.log| ensures i in more {
      assert more[i - |s.log|] == i;
    }
    assert forall i | i in more :: |s.log| <= i < |t.log|;
    forall i, j | 0 <= i < j < |t.sent| ensures t.sent[i] != t.sent[j] {
      assert i < |s.sent| <= j ==> t.sent[i] in s.sent && t.sent[j] in more;
    }
    assert Distinct(t.sent);
  }

  lemma InitKeeps(capacity: int)
    requires Limit(capacity) >= 0
    ensures Inv(Init(capacity))
  {
    assert LiveReaders(Init(capacity)) == [] && LiveWriters(Init(capacity)) == [];
    LogOfPair(ResumeWriter(0), ResumeWriter(0));
    hide ReaderJobs, WritersResumed, Limit, LiveReaders, LiveWriters;
  }

  lemma StepKeeps(s: State, e: Event)
    requires Inv(s)
    ensures Inv(Step(s, e)) && Step(s, e).capacity == s.capacity
  {
    hide Formed, Accepting, Ran, Delivered;
    FormedKeeps(s, e);
    AcceptingKeeps(s, e);
    RanKeeps(s, e);
    DeliveredKeeps(s, e);
  }

  lemma {:induction false} Invariant(capacity: int, es: seq<Event>)
    requires Limit(capacity) >= 0
    ensures Inv(Exec(Init(capacity), es))
    ensures Exec(Init(capacity), es).capacity == capacity
  {
    hide Step, Inv;
    if es == [] {
      InitKeeps(capacity);
    } else {
      Invariant(capacity, es[..|es| - 1]);
      StepKeeps(Exec(Init(capacity), es[..|es| - 1]), es[|es| - 1]);
    }
  }

  // ----- whole runs

  /**
   Every run, with any interleaving and any removals: until the clean-up, the k-th live reader has been
   given exactly the value of the k-th live writer, for as long as there are both; the surplus readers
   wait; and of the surplus values the first ones that fit are in the buffer and the rest in suspended
   writers. The writers to be resumed are exactly the first ones, as many as there are readers plus room.
   */
  lemma NormalFormOfRun(capacity: int, es: seq<Event>)
    requires Limit(capacity) >= 0
    ensures var s := Exec(Init(capacity), es);
            !s.phase.Cleaned? ==>
              var rs, ws := LiveReaders(s), LiveWriters(s);
              var h, k := Min(|rs|, |ws|), Min(|ws|, |rs| + Limit(capacity));
              && ReaderJobs(s.log) == Paired(rs[..h], ws[..h])
              && s.queues == Queues(Values(ws[h..k]), ws[k..], rs[h..])
              && WritersResumed(s.log) == Ids(ws[..k])
  {
    hide Step, Exec, Accepting, Ran, Shape, CleanedForm, Limit, LiveReaders, LiveWriters;
    var s := Exec(Init(capacity), es);
    Invariant(capacity, es);
    if !s.phase.Cleaned? {
      ShapeSays(Limit(capacity), LiveReaders(s), LiveWriters(s), s.queues, ReaderJobs(s.log), WritersResumed(s.log));
    }
  }

  lemma ShapeSays(limit: int, rs: seq<nat>, ws: seq<Writer>, q: Queues, given: seq<Job>, resumed: seq<nat>)
    requires Shape(limit, rs, ws, q, given, resumed)
    ensures var h, k := Min(|rs|, |ws|), Min(|ws|, |rs| + limit);
            && 0 <= h <= k
            && given == Paired(rs[..h], ws[..h])
            && q == Queues(Values(ws[h..k]), ws[k..], rs[h..])
            && resumed == Ids(ws[..k])
  {
  }

  /** With no removals the live awaiters are simply the arrivals. */
  lemma LiveWithoutRemovals(s: State)
    requires s.goneReaders == {} && s.goneWriters == {}
    ensures LiveReaders(s) == s.readersIn && LiveWriters(s) == s.writersIn
  {
    WithoutNothing(s.readersIn, {});
    WithoutNothing(s.writersIn, {});
  }

  lemma {:induction false} NobodyGone(capacity: int, es: seq<Event>)
    requires forall e | e in es :: !e.RemoveReader? && !e.RemoveWriter?
    ensures var s := Exec(Init(capacity), es); s.goneReaders == {} && s.goneWriters == {}
  {
    if es != [] {
      NobodyGone(capacity, es[..|es| - 1]);
    }
  }

  /** Without removals the form of the run is a function of the arrivals and the capacity alone. */
  lemma NormalFormOfArrivals(capacity: int, es: seq<Event>)
    requires Limit(capacity) >= 0
    requires forall e | e in es :: !e.RemoveReader? && !e.RemoveWriter?
    ensures var s := Exec(Init(capacity), es);
            !s.phase.Cleaned? ==>
              var rs, ws := s.readersIn, s.writersIn;
              var h, k := Min(|rs|, |ws|), Min(|ws|, |rs| + Limit(capacity));
              && ReaderJobs(s.log) == Paired(rs[..h], ws[..h])
              && s.queues == Queues(Values(ws[h..k]), ws[k..], rs[h..])
              && WritersResumed(s.log) == Ids(ws[..k])
  {
    hide Step, Exec, LiveReaders, LiveWriters, Limit;
    NobodyGone(capacity, es);
    NormalFormOfRun(capacity, es);
    LiveWithoutRemovals(Exec(Init(capacity), es));
  }

  /** What the readers get depends on who lives, in either phase, and on nothing else. */
  lemma ReadersDependOnLive(s: State, t: State)
    requires Inv(s) && Inv(t) && s.phase.Cleaned? == t.phase.Cleaned?
    requires LiveReaders(s) == LiveReaders(t) && LiveWriters(s) == LiveWriters(t)
    ensures ReaderJobs(s.log) == ReaderJobs(t.log) && s.queues.readers == t.queues.readers
  {
  }

  /** The part of a state that the capacity has no influence on, as long as removals find the same writers. */
  ghost predicate SameArrivals(s: State, t: State) {
    SameControl(s, t) && s.goneReaders == t.goneReaders && s.goneWriters == t.goneWriters
  }

  /** The part that it never has any influence on. */
  ghost predicate SameControl(s: State, t: State) {
    s.phase == t.phase && s.holder == t.holder && s.readersIn == t.readersIn && s.writersIn == t.writersIn
  }

  /** The event removes a writer that is suspended. */
  predicate Removes(s: State, e: Event) {
    e.RemoveWriter? && s.holder.Free? && e.writer in s.queues.writers
  }

  /** Every removal of a writer finds it suspended in both channels or in neither. */
  ghost predicate RemovalsAgree(c: int, d: int, es: seq<Event>) {
    forall i | 0 <= i < |es| :: Removes(Exec(Init(c), es[..i]), es[i]) <==> Removes(Exec(Init(d), es[..i]), es[i])
  }

  lemma SameControlStep(s: State, t: State, e: Event)
    requires SameControl(s, t)
    ensures SameControl(Step(s, e), Step(t, e))
  {
  }

  lemma SameArrivalsStep(s: State, t: State, e: Event)
    requires Inv(s) && Inv(t) && SameArrivals(s, t) && (Removes(s, e) <==> Removes(t, e))
    ensures SameArrivals(Step(s, e), Step(t, e))
  {
    hide Inv;
    ReadersDependOnLive(s, t);
  }

  /** Gone from one channel; let go on by the other, which keeps its value. */
  ghost predicate Parted(s: State, t: State, w: Writer) {
    w in s.goneWriters && LetGo(t, w)
  }

  ghost predicate LetGo(t: State, w: Writer) {
    w in t.writersIn && w !in t.goneWriters && w.id in WritersResumed(t.log)
  }

  /** A writer let go on is not suspended, and so is never removed. */
  lemma LetGoIsNotSuspended(t: State, w: Writer)
    requires Inv(t) && LetGo(t, w)
    ensures w !in t.queues.writers
  {
    LiveIdsDistinct(t);
    hide Accepting, Ran, Delivered, LiveReaders, LiveWriters, Limit, WritersResumed, Paired, Values;
    var rs, ws := LiveReaders(t), LiveWriters(t);
    var k := Min(|ws|, |rs| + Limit(t.capacity));
    if !t.phase.Cleaned? {
      var m :| 0 <= m < k && Ids(ws[..k])[m] == w.id;
      forall i | 0 <= i < |ws[k..]| ensures ws[k..][i] != w {
        assert Ids(ws)[k + i] != Ids(ws)[m];
      }
    }
  }

  lemma LetGoStays(t: State, w: Writer, e: Event)
    requires Inv(t) && LetGo(t, w)
    ensures LetGo(Step(t, e), w)
  {
    LetGoIsNotSuspended(t, w);
    hide Inv, WritersResumed, PushReader, PushWriter, CleanUpJobs, Positions;
    assert t.log <= Step(t, e).log;
    RanksStay(t, Step(t, e));
  }

  lemma PartingStep(s: State, t: State, e: Event)
    requires Inv(s) && Inv(t) && SameArrivals(s, t) && Removes(s, e) && !Removes(t, e)
    ensures Parted(Step(s, e), Step(t, e), e.writer)
  {
    var w := e.writer;
    SuspendedIsLive(s, w);
    assert LiveWriters(s) == LiveWriters(t);
    LiveIsSuspendedOrLetGo(t, w);
  }

  lemma SuspendedIsLive(s: State, w: Writer)
    requires Inv(s) && w in s.queues.writers
    ensures !s.phase.Cleaned? && w in LiveWriters(s) && w in s.writersIn && w !in s.goneWriters
  {
    WithoutMembers(s.writersIn, s.goneWriters);
    hide Accepting, Ran, Delivered, Without;
  }

  lemma LiveIsSuspendedOrLetGo(t: State, w: Writer)
    requires Inv(t) && !t.phase.Cleaned? && w in LiveWriters(t)
    ensures w in t.queues.writers || w.id in WritersResumed(t.log)
  {
    hide Accepting, Ran, Delivered, LiveReaders, LiveWriters, Limit, WritersResumed, Paired, Values;
    var rs, ws := LiveReaders(t), LiveWriters(t);
    var k := Min(|ws|, |rs| + Limit(t.capacity));
    var m :| 0 <= m < |ws| && ws[m] == w;
    if m < k {
      assert Ids(ws[..k])[m] == w.id;
    } else {
      assert ws[k..][m - k] == w;
    }
  }

  lemma PartedMeansDifferent(s: State, t: State, w: Writer)
    requires Parted(s, t, w)
    ensures LiveWriters(s) != LiveWriters(t)
  {
    WithoutMembers(s.writersIn, s.goneWriters);
    WithoutMembers(t.writersIn, t.goneWriters);
  }

  lemma PartedStays(s: State, t: State, w: Writer, e: Event)
    requires Inv(t) && Parted(s, t, w)
    ensures Parted(Step(s, e), Step(t, e), w)
  {
    hide Inv;
    LetGoStays(t, w, e);
  }

  ghost predicate Apart(s: State, t: State) {
    exists w :: Parted(s, t, w) || Parted(t, s, w)
  }

  lemma ApartStays(s: State, t: State, e: Event)
    requires Inv(s) && Inv(t) && Apart(s, t)
    ensures Apart(Step(s, e), Step(t, e))
  {
    hide Inv, Step, Parted;
    var w :| Parted(s, t, w) || Parted(t, s, w);
    if Parted(s, t, w) {
      PartedStays(s, t, w, e);
    } else {
      PartedStays(t, s, w, e);
    }
  }

  lemma LastRemovalDecides(c: int, d: int, es: seq<Event>)
    requires es != []
    ensures var n := |es| - 1;
            RemovalsAgree(c, d, es) <==>
              && RemovalsAgree(c, d, es[..n])
              && (Removes(Exec(Init(c), es[..n]), es[n]) <==> Removes(Exec(Init(d), es[..n]), es[n]))
  {
    hide Exec, Removes;
    var front := es[..|es| - 1];
    assert forall i | 0 <= i < |front| :: front[..i] == es[..i] && front[i] == es[i];
  }

  lemma {:induction false} TogetherOrApart(c: int, d: int, es: seq<Event>)
    requires Limit(c) >= 0 && Limit(d) >= 0
    ensures var s, t := Exec(Init(c), es), Exec(Init(d), es);
            if RemovalsAgree(c, d, es) then SameArrivals(s, t) else Apart(s, t)
  {
    hide Step, Inv, Removes, Apart, SameArrivals, RemovalsAgree, Limit;
    if es == [] {
      NothingRemovedYet(c, d);
    } else {
      var n := |es| - 1;
      var s, t, e := Exec(Init(c), es[..n]), Exec(Init(d), es[..n]), es[n];
      TogetherOrApart(c, d, es[..n]);
      Invariant(c, es[..n]);
      Invariant(d, es[..n]);
      LastRemovalDecides(c, d, es);
      if !RemovalsAgree(c, d, es[..n]) {
        ApartStays(s, t, e);
      } else if Removes(s, e) <==> Removes(t, e) {
        SameArrivalsStep(s, t, e);
      } else {
        ComeApart(s, t, e);
      }
    }
  }

  lemma NothingRemovedYet(c: int, d: int)
    ensures RemovalsAgree(c, d, []) && SameArrivals(Init(c), Init(d))
  {
  }

  lemma ComeApart(s: State, t: State, e: Event)
    requires Inv(s) && Inv(t) && SameArrivals(s, t) && (Removes(s, e) <==> !Removes(t, e))
    ensures Apart(Step(s, e), Step(t, e))
  {
    hide Inv, Step, Parted;
    if Removes(s, e) {
      PartingStep(s, t, e);
    } else {
      PartingStep(t, s, e);
    }
  }

  /**
   When the capacity has no influence, exactly: two channels of any two capacities, fed the same events in
   the same order, have the same live writers if and only if every removal of a writer found it suspended
   in both or in neither; and then they give the same values to the same readers, before and after a
   close, and accept and lose the same awaiters.
   */
  lemma CapacityIndependence(c: int, d: int, es: seq<Event>)
    requires Limit(c) >= 0 && Limit(d) >= 0
    ensures var s, t := Exec(Init(c), es), Exec(Init(d), es);
            && (RemovalsAgree(c, d, es) <==> LiveWriters(s) == LiveWriters(t))
            && (RemovalsAgree(c, d, es) ==> SameArrivals(s, t) && ReaderJobs(s.log) == ReaderJobs(t.log))
  {
    hide Step, Inv, Exec, Parted, RemovalsAgree;
    var s, t := Exec(Init(c), es), Exec(Init(d), es);
    TogetherOrApart(c, d, es);
    Invariant(c, es);
    Invariant(d, es);
    if RemovalsAgree(c, d, es) {
      ReadersDependOnLive(s, t);
    } else {
      var w :| Parted(s, t, w) || Parted(t, s, w);
      if Parted(s, t, w) {
        PartedMeansDifferent(s, t, w);
      } else {
        PartedMeansDifferent(t, s, w);
      }
    }
  }

  /** In particular when no event removes a writer. */
  lemma IndependenceWithoutRemovals(c: int, d: int, es: seq<Event>)
    requires Limit(c) >= 0 && Limit(d) >= 0
    requires forall e | e in es :: !e.RemoveWriter?
    ensures var s, t := Exec(Init(c), es), Exec(Init(d), es);
            SameArrivals(s, t) && ReaderJobs(s.log) == ReaderJobs(t.log)
  {
    hide Exec;
    CapacityIndependence(c, d, es);
  }

  /**
   Removals need not agree: a removed writer is gone from a rendezvous channel, but its value is already
   in a buffer.
   */
  lemma RemovalMakesCapacityMatter(w: Writer, r: nat)
    ensures var es := [LockWriter(w), Commit, RemoveWriter(w), LockReader(r), Commit];
            && ReaderJobs(Exec(Init(0), es).log) == []
            && ReaderJobs(Exec(Init(1), es).log) == [ResumeReader(r, w.value)]
  {
    hide Step, ReaderJobs;
    var es := [LockWriter(w), Commit, RemoveWriter(w), LockReader(r), Commit];
    ExecFive(Init(0), es);
    ExecFive(Init(1), es);
    LogOfPair(ResumeWriter(w.id), ResumeReader(r, w.value));
    LogOfPair(ResumeReader(r, w.value), ResumeWriter(w.id));
    RemovedFromRendezvous(w, r);
    KeptInBuffer(w, r);
  }

  lemma RemovedFromRendezvous(w: Writer, r: nat)
    ensures Step(Step(Step(Step(Step(Init(0), LockWriter(w)), Commit), RemoveWriter(w)), LockReader(r)), Commit).log
              == []
  {
    var s := Init(0).(queues := Queues([], [w], []), writersIn := [w]);
    assert Step(Step(Init(0), LockWriter(w)), Commit) == s;
    assert Without([w], {w}) == [] by { assert [w][..0] == []; }
    assert Step(s, RemoveWriter(w)) == s.(queues := Queues([], [], []), goneWriters := {w});
  }

  lemma KeptInBuffer(w: Writer, r: nat)
    ensures Step(Step(Step(Step(Step(Init(1), LockWriter(w)), Commit), RemoveWriter(w)), LockReader(r)), Commit).log
         == [ResumeWriter(w.id), ResumeReader(r, w.value)]
  {
    var s := Init(1).(queues := Queues([w.value], [], []), writersIn := [w], log := [ResumeWriter(w.id)], owed := {0});
    assert Positions(0, 1) == {0} && Positions(1, 0) == {};
    assert Step(Step(Init(1), LockWriter(w)), Commit) == s;
    assert Step(s, RemoveWriter(w)) == s;
  }

  lemma ExecFive(s: State, es: seq<Event>)
    requires |es| == 5
    ensures Exec(s, es) == Step(Step(Step(Step(Step(s, es[0]), es[1]), es[2]), es[3]), es[4])
  {
    hide Step;
    assert es[..4][..3] == es[..3] && es[..3][..2] == es[..2] && es[..2][..1] == es[..1] && es[..1][..0] == [];
    assert Exec(s, es[..1]) == Step(s, es[0]);
    assert Exec(s, es[..2]) == Step(Step(s, es[0]), es[1]);
    assert Exec(s, es[..3]) == Step(Step(Step(s, es[0]), es[1]), es[2]);
  }

  // ----- closing

  function ReadersResumed(jobs: seq<Job>): seq<nat>
    requires forall j | j in jobs :: !j.ResumeWriter?
  {
    seq<nat>(|jobs|, i requires 0 <= i < |jobs| => jobs[i].reader)
  }

  lemma {:induction false} ReaderJobsAreReaders(log: seq<Job>)
    ensures forall j | j in ReaderJobs(log) :: !j.ResumeWriter? && j in log
  {
    if log != [] {
      ReaderJobsAreReaders(log[..|log| - 1]);
    }
  }

  /**
   In every state at most one resume has been decided on for every accepted awaiter, and each resume
   decided on has been made once or is owed by a push that has let go of the lock. Once the clean-up has
   run, exactly the awaiters that did not remove themselves have a resume.
   */
  lemma NobodyStranded(capacity: int, es: seq<Event>)
    requires Limit(capacity) >= 0
    ensures var s := Exec(Init(capacity), es);
            && Distinct(s.sent) && (forall i: nat | i < |s.log| :: i in s.sent <==> i !in s.owed)
            && (forall j | j in ReaderJobs(s.log) :: !j.ResumeWriter?)
            && var readers, writers := ReadersResumed(ReaderJobs(s.log)), WritersResumed(s.log);
            && Distinct(readers) && Distinct(writers)
            && readers <= LiveReaders(s) && writers <= Ids(LiveWriters(s))
            && (s.phase.Cleaned? ==>
                  && s.queues == Queues([], [], [])
                  && readers == LiveReaders(s)
                  && writers == Ids(LiveWriters(s))
                  && (forall r | r in s.readersIn :: r in readers || r in s.goneReaders)
                  && (forall w | w in s.writersIn :: w.id in writers || w in s.goneWriters))
  {
    var s := Exec(Init(capacity), es);
    Invariant(capacity, es);
    ReaderJobsAreReaders(s.log);
    WithoutDistinct(s.readersIn, s.goneReaders);
    LiveIdsDistinct(s);
    WithoutMembers(s.readersIn, s.goneReaders);
    WithoutMembers(s.writersIn, s.goneWriters);
    ResumedArePrefix(s);
    if s.phase.Cleaned? {
      forall w | w in s.writersIn ensures w.id in Ids(LiveWriters(s)) || w in s.goneWriters {
        if w !in s.goneWriters {
          var i :| 0 <= i < |LiveWriters(s)| && LiveWriters(s)[i] == w;
          assert Ids(LiveWriters(s))[i] == w.id;
        }
      }
    }
  }

  lemma ResumedArePrefix(s: State)
    requires Inv(s)
    requires forall j | j in ReaderJobs(s.log) :: !j.ResumeWriter?
    ensures ReadersResumed(ReaderJobs(s.log)) <= LiveReaders(s)
    ensures WritersResumed(s.log) <= Ids(LiveWriters(s))
    ensures s.phase.Cleaned? ==> ReadersResumed(ReaderJobs(s.log)) == LiveReaders(s)
  {
    hide Accepting, Ran, Delivered, LiveReaders, LiveWriters, Limit, ReaderJobs, WritersResumed;
    var rs, ws := LiveReaders(s), LiveWriters(s);
    var h, k := Min(|rs|, |ws|), Min(|ws|, |rs| + Limit(s.capacity));
    if s.phase.Cleaned? {
      ReadersOfPairs(rs, ws, h);
    } else {
      ReadersOfPairs(rs, ws, h);
      JoinWriters(ws, k, k);
    }
  }

  lemma ReadersOfPairs(rs: seq<nat>, ws: seq<Writer>, h: nat)
    requires h <= |rs| && h <= |ws|
    ensures forall j | j in Paired(rs[..h], ws[..h]) + UnsafeResumes(rs[h..]) :: !j.ResumeWriter?
    ensures ReadersResumed(Paired(rs[..h], ws[..h])) == rs[..h]
    ensures ReadersResumed(Paired(rs[..h], ws[..h]) + UnsafeResumes(rs[h..])) == rs
  {
  }

  lemma {:induction false} IdsOfWithout(ws: seq<Writer>, gone: set<Writer>)
    requires Distinct(Ids(ws))
    ensures Distinct(Ids(Without(ws, gone)))
  {
    if ws != [] {
      var init, w := ws[..|ws| - 1], ws[|ws| - 1];
      assert Ids(init) == Ids(ws)[..|ws| - 1];
      IdsOfWithout(init, gone);
      WithoutMembers(init, gone);
      var kept := Without(init, gone);
      forall i | 0 <= i < |kept| ensures kept[i].id != w.id {
        assert kept[i] in init;
        var j :| 0 <= j < |init| && init[j] == kept[i];
        assert Ids(ws)[j] == kept[i].id && Ids(ws)[|ws| - 1] == w.id;
      }
      assert Ids(kept + [w]) == Ids(kept) + [w.id];
      assert kept + [] == kept;
    }
  }

  lemma LiveIdsDistinct(s: State)
    requires Accepting(s)
    ensures Distinct(Ids(LiveWriters(s)))
  {
    IdsOfWithout(s.writersIn, s.goneWriters);
  }

  /**
   Nothing moves after the clean-up, except that owed resumes are made and jobs run, all of them seeing a
   closed channel.
   */
  lemma {:induction false} CleanedForGood(s: State, es: seq<Event>)
    requires Inv(s) && s.phase.Cleaned?
    ensures var t := Exec(s, es); t == s.(owed := t.owed, sent := t.sent, outcomes := t.outcomes)
    ensures Exec(s, es).owed <= s.owed && s.sent <= Exec(s, es).sent
    ensures forall i | i in Exec(s, es).outcomes && i !in s.outcomes :: Exec(s, es).outcomes[i].ThrewClosed?
    ensures forall i | i in s.outcomes :: i in Exec(s, es).outcomes && Exec(s, es).outcomes[i] == s.outcomes[i]
  {
    if es != [] {
      CleanedForGood(s, es[..|es| - 1]);
    }
  }

  lemma {:induction false} FirstEvent(s: State, e: Event, es: seq<Event>)
    ensures Exec(s, [e] + es) == Exec(Step(s, e), es)
  {
    hide Step;
    if es == [] {
      assert [e] + [] == [e] && [e][..0] == [];
    } else {
      assert ([e] + es)[..|es|] == [e] + es[..|es| - 1];
      FirstEvent(s, e, es[..|es| - 1]);
    }
  }

  lemma {:induction false} Least(xs: set<nat>) returns (x: nat)
    requires xs != {}
    ensures x in xs && forall y | y in xs :: x <= y
  {
    x :| x in xs;
    if y :| y in xs && y < x {
      var rest := xs - {x};
      assert xs == rest + {x};
      x := Least(rest);
    }
  }

  /**
   The owed resumes can be made whatever the phase and whoever holds the lock; then each one decided on
   has been made once.
   */
  lemma {:induction false} OwedCanBeMade(s: State) returns (es: seq<Event>)
    requires Inv(s)
    ensures |es| == |s.owed| && forall e | e in es :: e.Dispatch?
    ensures var t := Exec(s, es);
            && t == s.(owed := {}, sent := t.sent) && s.sent <= t.sent
            && Distinct(t.sent) && forall i: nat :: i in t.sent <==> i < |s.log|
    decreases |s.owed|
  {
    es := [];
    if s.owed != {} {
      var i := Least(s.owed);
      var t := Step(s, Dispatch(i));
      assert t == s.(owed := s.owed - {i}, sent := s.sent + [i]);
      StepKeeps(s, Dispatch(i));
      hide Inv, Step;
      var rest := OwedCanBeMade(t);
      FirstEvent(s, Dispatch(i), rest);
      es := [Dispatch(i)] + rest;
    }
  }

  /** A close that has flipped the flag can always finish: at most the push that holds the lock is in its way. */
  lemma CloseCanFinish(s: State)
    requires s.phase.Flagged?
    ensures Step(if s.holder.Free? then s else Step(s, Commit), CleanUp).phase.Cleaned?
  {
  }

  /** Whatever order the jobs run in, none of them reads a result that was never set. */
  lemma UnsetResultNeverRead(capacity: int, es: seq<Event>)
    requires Limit(capacity) >= 0
    ensures var s := Exec(Init(capacity), es);
            forall i | i in s.outcomes :: i < |s.log| && s.outcomes[i] in {ThrewClosed, Resumed(true, s.log[i])}
                && s.outcomes[i] != ReadUnset
  {
    hide Step;
    Invariant(capacity, es);
  }

  // ----- conservation

  function GivenValues(jobs: seq<Job>): seq<Value> {
    if jobs == [] then []
    else
      var j := jobs[|jobs| - 1];
      GivenValues(jobs[..|jobs| - 1]) + if j.ResumeReader? then [j.value] else []
  }

  lemma {:induction false} GivenByPairs(rs: seq<nat>, ws: seq<Writer>)
    requires |rs| == |ws|
    ensures GivenValues(Paired(rs, ws)) == Values(ws)
  {
    if rs != [] {
      var n := |rs| - 1;
      assert Paired(rs, ws)[..n] == Paired(rs[..n], ws[..n]);
      GivenByPairs(rs[..n], ws[..n]);
      assert Values(ws) == Values(ws[..n]) + [ws[n].value];
    }
  }

  lemma {:induction false} GivenByUnsafe(jobs: seq<Job>, rs: seq<nat>)
    ensures GivenValues(jobs + UnsafeResumes(rs)) == GivenValues(jobs)
  {
    if rs == [] {
      assert jobs + UnsafeResumes(rs) == jobs;
    } else {
      var n := |rs| - 1;
      assert (jobs + UnsafeResumes(rs))[..|jobs| + n] == jobs + UnsafeResumes(rs[..n]);
      GivenByUnsafe(jobs, rs[..n]);
    }
  }

  lemma {:induction false} ValuesSplit(ws: seq<Writer>, gone: set<Writer>, others: set<Writer>)
    requires forall w | w in ws :: w in others <==> w !in gone
    ensures multiset(Values(ws)) == multiset(Values(Without(ws, gone))) + multiset(Values(Without(ws, others)))
  {
    if ws == [] {
      assert Values(ws) == [];
    } else {
      var n := |ws| - 1;
      ValuesSplit(ws[..n], gone, others);
      ValuesOneMore(ws[..n], ws[n]);
      ValuesOneMore(Without(ws[..n], gone), ws[n]);
      ValuesOneMore(Without(ws[..n], others), ws[n]);
      assert ws == ws[..n] + [ws[n]];
    }
  }

  /**
   Where a value that was handed to a reader is: the resume is owed, or with the executor; or it has run,
   and the reader has it or found the channel closed.
   */
  datatype Fate = Owed | Posted | Read | Refused

  function FateOf(s: State, i: nat): Fate {
    if i in s.owed then Owed
    else if i !in s.outcomes then Posted
    else if s.outcomes[i].Received? then Read
    else Refused
  }

  /** Of the values handed over by the first n resumes, those with this fate. */
  function GivenWith(s: State, n: nat, f: Fate): seq<Value>
    requires n <= |s.log|
  {
    if n == 0 then []
    else
      var one := if s.log[n - 1].ResumeReader? && FateOf(s, n - 1) == f then [s.log[n - 1].value] else [];
      GivenWith(s, n - 1, f) + one
  }

  lemma NothingGiven(s: State, f: Fate)
    ensures GivenValues(ReaderJobs(s.log[..0])) == [] && GivenWith(s, 0, f) == []
  {
    assert ReaderJobs(s.log[..0]) == [];
  }

  lemma GivenOneMore(s: State, n: nat)
    requires n < |s.log|
    ensures GivenValues(ReaderJobs(s.log[..n + 1]))
            == GivenValues(ReaderJobs(s.log[..n])) + if s.log[n].ResumeReader? then [s.log[n].value] else []
  {
    assert s.log[..n + 1][..n] == s.log[..n];
    var jobs, j := ReaderJobs(s.log[..n]), s.log[n];
    assert ReaderJobs(s.log[..n + 1]) == jobs + if j.ResumeWriter? then [] else [j];
    assert jobs + [] == jobs && (jobs + [j])[..|jobs|] == jobs;
    assert GivenValues(jobs + [j]) == GivenValues(jobs) + if j.ResumeReader? then [j.value] else [];
    assert GivenValues(jobs) + [] == GivenValues(jobs);
  }

  /** Whether the n-th resume hands over v, as a number. */
  function HandsOver(s: State, n: nat, v: Value): nat
    requires n < |s.log|
  {
    if s.log[n].ResumeReader? && s.log[n].value == v then 1 else 0
  }

  lemma CountOneMore(s: State, n: nat, v: Value)
    requires n < |s.log|
    ensures multiset(GivenValues(ReaderJobs(s.log[..n + 1])))[v] == multiset(GivenValues(ReaderJobs(s.log[..n])))[v]
              + HandsOver(s, n, v)
  {
    hide GivenValues, ReaderJobs;
    GivenOneMore(s, n);
  }

  lemma GivenWithOneMore(s: State, n: nat, f: Fate)
    requires n < |s.log|
    ensures GivenWith(s, n + 1, f)
            == GivenWith(s, n, f) + if s.log[n].ResumeReader? && FateOf(s, n) == f then [s.log[n].value] else []
  {
    hide FateOf;
  }

  lemma FateOneMore(s: State, n: nat, f: Fate, v: Value)
    requires n < |s.log|
    ensures multiset(GivenWith(s, n + 1, f))[v]
            == multiset(GivenWith(s, n, f))[v] + if FateOf(s, n) == f then HandsOver(s, n, v) else 0
  {
    hide FateOf;
  }

  /** The fates share out what was handed over: each value as often as it was. */
  lemma {:induction false} Fates(s: State, n: nat, v: Value)
    requires n <= |s.log|
    ensures multiset(GivenValues(ReaderJobs(s.log[..n])))[v]
            == multiset(GivenWith(s, n, Read))[v] + multiset(GivenWith(s, n, Posted))[v]
             + multiset(GivenWith(s, n, Owed))[v] + multiset(GivenWith(s, n, Refused))[v]
  {
    hide *;
    if n == 0 {
      forall f: Fate ensures GivenValues(ReaderJobs(s.log[..n])) == [] && GivenWith(s, n, f) == [] {
        NothingGiven(s, f);
      }
    } else {
      Fates(s, n - 1, v);
      CountOneMore(s, n - 1, v);
      forall f: Fate ensures multiset(GivenWith(s, n, f))[v]
                             == multiset(GivenWith(s, n - 1, f))[v]
                              + if FateOf(s, n - 1) == f then HandsOver(s, n - 1, v) else 0 {
        FateOneMore(s, n - 1, f, v);
      }
    }
  }

  lemma FatesShareOut(s: State)
    ensures var n := |s.log|;
            multiset(GivenValues(ReaderJobs(s.log)))
            == multiset(GivenWith(s, n, Read)) + multiset(GivenWith(s, n, Posted)) + multiset(GivenWith(s, n, Owed))
             + multiset(GivenWith(s, n, Refused))
  {
    hide *;
    var n := |s.log|;
    assert s.log[..n] == s.log;
    var given, a, b, c, d := multiset(GivenValues(ReaderJobs(s.log))), multiset(GivenWith(s, n, Read)),
        multiset(GivenWith(s, n, Posted)),
                             multiset(GivenWith(s, n, Owed)), multiset(GivenWith(s, n, Refused));
    forall v ensures given[v] == (a + b + c + d)[v] {
      Fates(s, n, v);
    }
    SameCounts(given, a + b + c + d);
  }

  /** Each fate keeps the order of the hand-overs. */
  lemma {:induction false} FateInOrder(s: State, n: nat, f: Fate)
    requires n <= |s.log|
    ensures Subsequence(GivenWith(s, n, f), GivenValues(ReaderJobs(s.log[..n])))
  {
    hide *;
    if n == 0 {
      NothingGiven(s, f);
      NothingIsSubsequence(GivenValues(ReaderJobs(s.log[..n])));
    } else {
      FateInOrder(s, n - 1, f);
      GivenOneMore(s, n - 1);
      GivenWithOneMore(s, n - 1, f);
      var j := s.log[n - 1];
      if j.ResumeReader? {
        SubsequenceGrows(GivenWith(s, n - 1, f), GivenValues(ReaderJobs(s.log[..n - 1])), j.value);
      } else {
        SubsequenceStays(GivenWith(s, n - 1, f), GivenValues(ReaderJobs(s.log[..n - 1])));
      }
    }
  }

  /** What the running of a job has to do with its fate. */
  lemma FatesAreOutcomes(s: State, i: nat)
    requires Inv(s) && i < |s.log| && s.log[i].ResumeReader?
    ensures FateOf(s, i).Read? <==> i in s.outcomes && s.outcomes[i] == Received(s.log[i].value)
    ensures FateOf(s, i).Refused? <==> i in s.outcomes && s.outcomes[i] == ThrewClosed
  {
  }

  /** The accepted writers that were suspended and removed. */
  function RemovedWriters(s: State): seq<Writer> {
    Without(s.writersIn, (set w | w in s.writersIn) - s.goneWriters)
  }

  /**
   Conservation, in order: in acceptance order, the values of the live writers are those handed to
   readers, then the buffer, then the suspended writers, then what the close dropped. The accepted
   writers are the live ones and the removed ones, each as often as it was accepted.
   */
  lemma Conservation(capacity: int, es: seq<Event>)
    requires Limit(capacity) >= 0
    ensures var s := Exec(Init(capacity), es);
            && GivenValues(ReaderJobs(s.log)) + s.queues.buffer + Values(s.queues.writers) + s.dropped
                  == Values(LiveWriters(s))
            && Subsequence(LiveWriters(s), s.writersIn)
            && multiset(s.writersIn) == multiset(LiveWriters(s)) + multiset(RemovedWriters(s))
            && (s.dropped != [] ==> s.phase.Cleaned?)
  {
    hide Step;
    var s := Exec(Init(capacity), es);
    Invariant(capacity, es);
    WithoutIsSubsequence(s.writersIn, s.goneWriters);
    SplitByRemoval(s.writersIn, s.goneWriters, (set w | w in s.writersIn) - s.goneWriters);
    ValuesInOrder(s);
  }

  lemma ValuesInOrder(s: State)
    requires Inv(s)
    ensures GivenValues(ReaderJobs(s.log)) + s.queues.buffer + Values(s.queues.writers) + s.dropped
              == Values(LiveWriters(s))
  {
    hide NormalForm, CleanedForm;
    if s.phase.Cleaned? {
      ValuesWhenCleaned(s);
    } else {
      ValuesBefore(s);
    }
  }

  lemma ValuesWhenCleaned(s: State)
    requires CleanedForm(s)
    ensures GivenValues(ReaderJobs(s.log)) + s.queues.buffer + Values(s.queues.writers) + s.dropped
              == Values(LiveWriters(s))
  {
    hide ReaderJobs, WritersResumed, GivenValues, Without, UnsafeResumes, Ids, LiveReaders, LiveWriters;
    assert Values([]) == [];
    hide Values;
    var rs, ws := LiveReaders(s), LiveWriters(s);
    var h := Min(|rs|, |ws|);
    GivenByPairs(rs[..h], ws[..h]);
    JoinWriters(ws, h, h);
    GivenByUnsafe(Paired(rs[..h], ws[..h]), rs[h..]);
  }

  lemma ValuesBefore(s: State)
    requires NormalForm(s)
    ensures GivenValues(ReaderJobs(s.log)) + s.queues.buffer + Values(s.queues.writers) + s.dropped
              == Values(LiveWriters(s))
  {
    hide ReaderJobs, WritersResumed, GivenValues, Without, UnsafeResumes, Ids, Limit, LiveReaders, LiveWriters, Values;
    var rs, ws := LiveReaders(s), LiveWriters(s);
    var h, k := Min(|rs|, |ws|), Min(|ws|, |rs| + Limit(s.capacity));
    GivenByPairs(rs[..h], ws[..h]);
    JoinWriters(ws, h, k);
  }

  /**
   Where every accepted value is, in every run: its reader has it; it was handed over and its resume has
   not been made, or not been run; its reader found the channel closed; it is in the buffer, with a
   suspended writer, dropped by the close, or gone with a removed writer. Each is in one place as often
   as it was accepted, and only a close makes a reader refuse or the channel drop anything.
   */
  lemma WhereValuesAre(capacity: int, es: seq<Event>)
    requires Limit(capacity) >= 0
    ensures var s := Exec(Init(capacity), es);
            var n := |s.log|;
            && multiset(Values(s.writersIn))
               == multiset(GivenWith(s, n, Read)) + multiset(GivenWith(s, n, Posted)) + multiset(GivenWith(s, n, Owed))
                + multiset(GivenWith(s, n, Refused)) + multiset(s.queues.buffer) + multiset(Values(s.queues.writers))
                + multiset(s.dropped) + multiset(Values(RemovedWriters(s)))
            && (forall f: Fate :: Subsequence(GivenWith(s, n, f), GivenValues(ReaderJobs(s.log))))
            && (s.phase.Open? ==> s.dropped == [] && GivenWith(s, n, Refused) == [])
  {
    hide Step, GivenValues, GivenWith, ReaderJobs, Values, Without;
    var s := Exec(Init(capacity), es);
    Invariant(capacity, es);
    FatesShareOut(s);
    forall f: Fate ensures Subsequence(GivenWith(s, |s.log|, f), GivenValues(ReaderJobs(s.log[..|s.log|]))) {
      FateInOrder(s, |s.log|, f);
    }
    assert s.log[..|s.log|] == s.log;
    ValuesSplit(s.writersIn, s.goneWriters, (set w | w in s.writersIn) - s.goneWriters);
    ValuesInOrder(s);
    if s.phase.Open? {
      hide Formed, Accepting;
      NoneRefused(s, |s.log|);
    }
  }

  lemma {:induction false} NoneRefused(s: State, n: nat)
    requires Ran(s) && s.phase.Open? && n <= |s.log|
    ensures GivenWith(s, n, Refused) == []
  {
    if n > 0 {
      NoneRefused(s, n - 1);
    }
  }

  // ----- what a close costs

  /**
   What a close leaves for good: the flag, the log so far, and the outcomes so far; every later outcome
   is a refusal.
   */
  ghost predicate ClosedSince(s: State, t: State) {
    && t.capacity == s.capacity && !t.phase.Open? && s.log <= t.log
    && (forall i | i in s.outcomes :: i in t.outcomes && t.outcomes[i] == s.outcomes[i])
    && (forall i | i in t.outcomes && i !in s.outcomes :: t.outcomes[i].ThrewClosed?)
  }

  lemma ClosedStep(s: State, e: Event)
    requires !s.phase.Open?
    ensures ClosedSince(s, Step(s, e))
  {
    hide CleanUpJobs, PushReader, PushWriter, Positions;
  }

  lemma ClosedTwice(r: State, s: State, t: State)
    requires ClosedSince(r, s) && ClosedSince(s, t)
    ensures ClosedSince(r, t)
  {
  }

  lemma {:induction false} AfterFlag(s: State, es: seq<Event>)
    requires Inv(s) && !s.phase.Open?
    ensures Inv(Exec(s, es)) && ClosedSince(s, Exec(s, es))
  {
    if es != [] {
      var front := Exec(s, es[..|es| - 1]);
      AfterFlag(s, es[..|es| - 1]);
      StepKeeps(front, es[|es| - 1]);
      ClosedStep(front, es[|es| - 1]);
      hide Inv, Step, ClosedSince;
      ClosedTwice(s, front, Exec(s, es));
    }
  }

  /**
   Which jobs a close refuses: whatever happens from the moment the flag goes down, of the jobs that have
   run, exactly those that had run before succeed. So a hand-over is received, and a write reports
   success, if and only if its job had run when the channel was closed.
   */
  lemma CloseRefusesExactly(s: State, es: seq<Event>, i: nat)
    requires Inv(s) && s.phase.Open? && i in Exec(Step(s, CloseFlag), es).outcomes
    ensures var t := Exec(Step(s, CloseFlag), es);
            && i < |t.log|
            && (t.log[i].ResumeReader? ==>
                  && (FateOf(t, i).Read? <==> i in s.outcomes)
                  && (FateOf(t, i).Refused? <==> i !in s.outcomes))
            && (t.log[i].ResumeWriter? ==> (t.outcomes[i].Written? <==> i in s.outcomes))
            && (i in s.outcomes ==> i < |s.log| && t.log[i] == s.log[i] && t.outcomes[i] == s.outcomes[i])
  {
    var r := Step(s, CloseFlag);
    StepKeeps(s, CloseFlag);
    AfterFlag(r, es);
    var t := Exec(r, es);
    if i in s.outcomes {
      SucceededWhileOpen(s, i);
    }
    hide Formed, Accepting;
    assert i in r.outcomes <==> i in s.outcomes;
    assert i < |t.log| && i !in t.owed;
  }

  lemma SucceededWhileOpen(s: State, i: nat)
    requires Inv(s) && s.phase.Open? && i in s.outcomes
    ensures i < |s.log| && s.outcomes[i] == Resumed(true, s.log[i]) && !s.outcomes[i].ThrewClosed?
  {
  }

  /** The channel as the close finds it: a push that holds the lock when the flag goes down still takes effect. */
  function AtClose(s: State): State {
    if s.holder.Free? then s else Step(s, Commit)
  }

  /**
   From the flag to the clean-up neither the buffer nor the log changes, once that push is through; and
   what the clean-up adds.
   */
  ghost predicate Closing(s: State, t: State) {
    var u := AtClose(s);
    && t.capacity == s.capacity && !t.phase.Open?
    && (t.phase.Flagged? ==>
          if t.holder.Free? then t.queues.buffer == u.queues.buffer && t.log == u.log
          else t.holder == s.holder && t.queues == s.queues && t.log == s.log)
    && (t.phase.Cleaned? ==>
          && t.holder.Free? && u.log <= t.log && u.queues.buffer <= t.dropped
          && forall i | |u.log| <= i < |t.log| :: !t.log[i].ResumeReader?)
  }

  lemma ClosingStep(s: State, t: State, e: Event)
    requires Closing(s, t)
    ensures Closing(s, Step(t, e))
  {
    if e.CleanUp? && t.phase.Flagged? && t.holder.Free? {
      NoReadersCleanedUp(t.queues);
    }
    hide CleanUpJobs, PushReader, PushWriter, Positions;
  }

  lemma NoReadersCleanedUp(q: Queues)
    ensures forall j | j in CleanUpJobs(q) :: !j.ResumeReader?
  {
  }

  lemma {:induction false} FromFlagOn(s: State, es: seq<Event>)
    requires s.phase.Open?
    ensures Closing(s, Exec(Step(s, CloseFlag), es))
  {
    if es != [] {
      hide Step, Closing;
      FromFlagOn(s, es[..|es| - 1]);
      ClosingStep(s, Exec(Step(s, CloseFlag), es[..|es| - 1]), es[|es| - 1]);
    }
  }

  lemma {:induction false} NoneWith(s: State, n: nat, f: Fate)
    requires n <= |s.log|
    ensures GivenWith(s, n, f) == [] <==> forall i | 0 <= i < n && s.log[i].ResumeReader? :: FateOf(s, i) != f
  {
    if n > 0 {
      hide FateOf;
      NoneWith(s, n - 1, f);
    }
  }

  /** Every value handed to a reader has been received. */
  ghost predicate AllReceived(s: State) {
    forall i | 0 <= i < |s.log| && s.log[i].ResumeReader? :: i in s.outcomes
  }

  /**
   When all jobs have run, nothing was refused exactly if every hand-over had been received when the flag
   went down.
   */
  lemma NothingRefused(s: State, es: seq<Event>)
    requires Inv(s) && s.phase.Open?
    requires var t := Exec(Step(s, CloseFlag), es); t.phase.Cleaned? && forall i | 0 <= i < |t.log| :: i in t.outcomes
    ensures var t := Exec(Step(s, CloseFlag), es);
            GivenWith(t, |t.log|, Refused) == [] <==>
              forall i | 0 <= i < |AtClose(s).log| && AtClose(s).log[i].ResumeReader? :: i in s.outcomes
  {
    hide Inv, FateOf, AtClose, Step;
    var t := Exec(Step(s, CloseFlag), es);
    NoneWith(t, |t.log|, Refused);
    FromFlagOn(s, es);
    forall i | 0 <= i < |t.log| && t.log[i].ResumeReader? ensures FateOf(t, i).Refused? <==> i !in s.outcomes {
      CloseRefusesExactly(s, es, i);
    }
    forall i | 0 <= i < |AtClose(s).log| && AtClose(s).log[i].ResumeReader?
      ensures i < |t.log| && t.log[i] == AtClose(s).log[i] {
    }
  }

  /** How many of the live writers are paired, and how many have been let go on, as lengths. */
  lemma CountsBefore(s: State)
    requires Inv(s) && !s.phase.Cleaned?
    ensures |WritersResumed(s.log)| == |GivenValues(ReaderJobs(s.log))| + |s.queues.buffer|
  {
    hide GivenValues, ReaderJobs, WritersResumed, LiveReaders, LiveWriters, Limit, Accepting, Ran, Delivered, Paired;
    var rs, ws := LiveReaders(s), LiveWriters(s);
    var h, k := Min(|rs|, |ws|), Min(|ws|, |rs| + Limit(s.capacity));
    GivenByPairs(rs[..h], ws[..h]);
    hide Inv, Shape;
    assert |Values(ws[..h])| == h && |Values(ws[h..k])| == k - h && |Ids(ws[..k])| == k;
  }

  lemma CountsCleaned(s: State)
    requires Inv(s) && s.phase.Cleaned?
    ensures var given := |GivenValues(ReaderJobs(s.log))|;
            given <= |LiveWriters(s)| && s.dropped == Values(LiveWriters(s)[given..])
                && WritersResumed(s.log) == Ids(LiveWriters(s))
  {
    hide GivenValues, ReaderJobs, WritersResumed, LiveReaders, LiveWriters, Limit, Accepting, Ran, Delivered, Paired,
        UnsafeResumes;
    var rs, ws := LiveReaders(s), LiveWriters(s);
    var h := Min(|rs|, |ws|);
    GivenByPairs(rs[..h], ws[..h]);
    GivenByUnsafe(Paired(rs[..h], ws[..h]), rs[h..]);
    assert |Values(ws[..h])| == h;
  }

  lemma {:induction false} NothingMoreGiven(log: seq<Job>, more: seq<Job>)
    requires forall j | j in more :: !j.ResumeReader?
    ensures GivenValues(ReaderJobs(log + more)) == GivenValues(ReaderJobs(log))
  {
    if more == [] {
      assert log + more == log;
    } else {
      var n := |more| - 1;
      assert forall j | j in more[..n] :: j in more;
      NothingMoreGiven(log, more[..n]);
      assert log + more == (log + more[..n]) + [more[n]];
      assert more[n] in more;
      NoMoreGiven(log + more[..n], more[n]);
    }
  }

  lemma SameGiven(u: State, t: State)
    requires u.log <= t.log && forall i | |u.log| <= i < |t.log| :: !t.log[i].ResumeReader?
    ensures GivenValues(ReaderJobs(t.log)) == GivenValues(ReaderJobs(u.log))
  {
    hide *;
    var more := t.log[|u.log|..];
    assert t.log == u.log + more;
    NothingMoreGiven(u.log, more);
  }

  lemma NoMoreGiven(log: seq<Job>, j: Job)
    requires !j.ResumeReader?
    ensures GivenValues(ReaderJobs(log + [j])) == GivenValues(ReaderJobs(log))
  {
    assert (log + [j])[..|log|] == log;
    var jobs := ReaderJobs(log);
    assert ReaderJobs(log + [j]) == jobs + if j.ResumeWriter? then [] else [j];
    assert jobs + [] == jobs && (jobs + [j])[..|jobs|] == jobs;
    assert GivenValues(jobs + [j]) == GivenValues(jobs) + [];
  }

  lemma DropCounts(u: State, t: State)
    requires Inv(u) && Inv(t) && u.phase.Open? && t.phase.Cleaned?
    requires u.log <= t.log && forall i | |u.log| <= i < |t.log| :: !t.log[i].ResumeReader?
    ensures var letGo := |WritersResumed(u.log)|;
            && letGo <= |LiveWriters(t)|
            && (t.dropped == Values(LiveWriters(t)[letGo..]) <==> u.queues.buffer == [])
  {
    hide *;
    CountsBefore(u);
    CountsCleaned(t);
    RanksStay(u, t);
    SameGiven(u, t);
    IdsLength(LiveWriters(t));
    DropLength(LiveWriters(t), |GivenValues(ReaderJobs(u.log))|, |u.queues.buffer|);
  }

  lemma IdsLength(ws: seq<Writer>)
    ensures |Ids(ws)| == |ws|
  {
  }

  lemma DropLength(ws: seq<Writer>, given: nat, buffered: nat)
    requires given + buffered <= |ws|
    ensures Values(ws[given..]) == Values(ws[given + buffered..]) <==> buffered == 0
  {
    assert |Values(ws[given..])| == |ws| - given && |Values(ws[given + buffered..])| == |ws| - given - buffered;
  }

  /**
   The clean-up drops only what suspended writers held, whose writes throw, exactly if the close found
   the buffer empty.
   */
  lemma OnlySuspendedDropped(s: State, es: seq<Event>)
    requires Inv(s) && s.phase.Open? && Exec(Step(s, CloseFlag), es).phase.Cleaned?
    ensures var t := Exec(Step(s, CloseFlag), es);
            var letGo := |WritersResumed(AtClose(s).log)|;
            && letGo <= |LiveWriters(t)|
            && (t.dropped == Values(LiveWriters(t)[letGo..]) <==> AtClose(s).queues.buffer == [])
  {
    StepKeeps(s, CloseFlag);
    StepKeeps(s, Commit);
    assert !Step(s, CloseFlag).phase.Open? && AtClose(s).phase.Open?;
    AfterFlag(Step(s, CloseFlag), es);
    FromFlagOn(s, es);
    hide Inv, Step, Exec;
    DropCounts(AtClose(s), Exec(Step(s, CloseFlag), es));
  }

  /**
   When a close costs nothing, exactly: once the channel has been cleaned up and all jobs have run, no
   value handed to a reader was refused and none was dropped but those of suspended writers, if and only
   if, when the flag went down, the buffer was empty and every value handed over had been received. A push
   that held the lock at that moment counts as through.
   */
  lemma LosslessExactly(s: State, es: seq<Event>)
    requires Inv(s) && s.phase.Open?
    requires var t := Exec(Step(s, CloseFlag), es); t.phase.Cleaned? && forall i | 0 <= i < |t.log| :: i in t.outcomes
    ensures var t := Exec(Step(s, CloseFlag), es);
            var u := AtClose(s);
            && |WritersResumed(u.log)| <= |LiveWriters(t)|
            && ((GivenWith(t, |t.log|, Refused) == [] && t.dropped == Values(LiveWriters(t)[|WritersResumed(u.log)|..]))
                <==> (u.queues.buffer == [] && AllReceived(u)))
  {
    NothingRefused(s, es);
    OnlySuspendedDropped(s, es);
    assert AtClose(s).outcomes == s.outcomes;
  }

  // ----- reported writes

  /** The write has reported success. */
  ghost predicate Reported(s: State, w: Writer) {
    exists i :: i in s.outcomes && i < |s.log| && s.log[i] == ResumeWriter(w.id) && s.outcomes[i].Written?
  }

  /** The value of the j-th live writer has been received, by the j-th live reader. */
  ghost predicate Landed(s: State, j: nat) {
    && j < |LiveReaders(s)| && j < |LiveWriters(s)|
    && exists i :: i in s.outcomes && i < |s.log| && s.outcomes[i].Received?
                   && s.log[i] == ResumeReader(LiveReaders(s)[j], LiveWriters(s)[j].value)
  }

  lemma {:induction false} ReadersInOrder(log: seq<Job>, j: Job)
    requires j in log && !j.ResumeWriter?
    ensures j in ReaderJobs(log)
  {
    var n := |log| - 1;
    if j != log[n] {
      assert j in log[..n];
      ReadersInOrder(log[..n], j);
    }
  }

  lemma {:induction false} WritersInOrder(log: seq<Job>, j: Job)
    requires j in log && j.ResumeWriter?
    ensures j.writer in WritersResumed(log)
  {
    var n := |log| - 1;
    if j != log[n] {
      assert j in log[..n];
      WritersInOrder(log[..n], j);
    }
  }

  /** Hand-overs and resumed writers, by their rank in the log. */
  lemma RankForm(s: State, m: nat)
    requires Inv(s)
    ensures m < |ReaderJobs(s.log)| && ReaderJobs(s.log)[m].ResumeReader? ==>
              && m < |LiveReaders(s)| && m < |LiveWriters(s)|
              && ReaderJobs(s.log)[m] == ResumeReader(LiveReaders(s)[m], LiveWriters(s)[m].value)
    ensures m < |WritersResumed(s.log)| ==> m < |LiveWriters(s)| && WritersResumed(s.log)[m] == LiveWriters(s)[m].id
  {
    hide Accepting, Ran, Delivered, LiveReaders, LiveWriters, Limit, ReaderJobs, WritersResumed, Values;
  }

  lemma LiveDistinct(s: State)
    requires Inv(s)
    ensures Distinct(LiveReaders(s)) && Distinct(Ids(LiveWriters(s)))
  {
    WithoutDistinct(s.readersIn, s.goneReaders);
    LiveIdsDistinct(s);
  }

  /** A hand-over is between the same reader and writer, of the same rank, in both states. */
  lemma SameRank(s: State, t: State, i: nat, j: nat)
    requires Inv(s) && Inv(t) && s.log <= t.log && i < |s.log| && s.log[i].ResumeReader?
    ensures (j < |LiveReaders(s)| && j < |LiveWriters(s)|
              && s.log[i] == ResumeReader(LiveReaders(s)[j], LiveWriters(s)[j].value))
            <==> (j < |LiveReaders(t)| && j < |LiveWriters(t)|
                && s.log[i] == ResumeReader(LiveReaders(t)[j], LiveWriters(t)[j].value))
  {
    ReadersInOrder(s.log, s.log[i]);
    RanksStay(s, t);
    var m :| 0 <= m < |ReaderJobs(s.log)| && ReaderJobs(s.log)[m] == s.log[i];
    RankForm(s, m);
    RankForm(t, m);
    LiveDistinct(s);
    LiveDistinct(t);
    hide *;
    OneReaderRank(LiveReaders(s), m, j);
    OneReaderRank(LiveReaders(t), m, j);
  }

  lemma OneReaderRank(rs: seq<nat>, m: nat, j: nat)
    requires Distinct(rs) && m < |rs|
    ensures j < |rs| && rs[j] == rs[m] ==> j == m
  {
  }

  /** A writer let go on keeps its rank among the live ones. */
  lemma SameWriterRank(s: State, t: State, i: nat, w: Writer, j: nat)
    requires Inv(s) && Inv(t) && s.log <= t.log && i < |s.log| && s.log[i] == ResumeWriter(w.id)
    ensures (j < |LiveWriters(s)| && LiveWriters(s)[j].id == w.id)
              <==> (j < |LiveWriters(t)| && LiveWriters(t)[j].id == w.id)
  {
    WritersInOrder(s.log, s.log[i]);
    RanksStay(s, t);
    var m :| 0 <= m < |WritersResumed(s.log)| && WritersResumed(s.log)[m] == w.id;
    RankForm(s, m);
    RankForm(t, m);
    LiveDistinct(s);
    LiveDistinct(t);
    hide *;
    OneRank(LiveWriters(s), m, j);
    OneRank(LiveWriters(t), m, j);
  }

  lemma OneRank(ws: seq<Writer>, m: nat, j: nat)
    requires Distinct(Ids(ws)) && m < |ws|
    ensures j < |ws| && ws[j].id == ws[m].id ==> j == m
  {
    if j < |ws| && ws[j].id == ws[m].id {
      assert Ids(ws)[j] == Ids(ws)[m];
    }
  }

  lemma OneWriterPerId(s: State, t: State, v: Writer, w: Writer)
    requires Inv(t) && s.writersIn <= t.writersIn && v in LiveWriters(s) && w in LiveWriters(t) && v.id == w.id
    ensures v == w
  {
    WithoutMembers(s.writersIn, s.goneWriters);
    WithoutMembers(t.writersIn, t.goneWriters);
    hide Formed, Ran, Delivered, Without;
    assert v in t.writersIn && w in t.writersIn;
    var i :| 0 <= i < |t.writersIn| && t.writersIn[i] == v;
    var j :| 0 <= j < |t.writersIn| && t.writersIn[j] == w;
    assert Ids(t.writersIn)[i] == Ids(t.writersIn)[j];
  }

  lemma {:induction false} ArrivalsStay(s: State, es: seq<Event>)
    ensures s.writersIn <= Exec(s, es).writersIn
  {
    if es != [] {
      ArrivalsStay(s, es[..|es| - 1]);
    }
  }

  /**
   After the flag, a value has landed exactly if it had before, and a write has reported success exactly
   if it had before.
   */
  lemma NothingLandsLater(s: State, t: State, j: nat)
    requires Inv(s) && Inv(t) && s.log <= t.log && s.writersIn <= t.writersIn
    requires forall i | i in s.outcomes :: i in t.outcomes && t.outcomes[i] == s.outcomes[i]
    requires forall i | i in t.outcomes && i !in s.outcomes :: t.outcomes[i].ThrewClosed?
    ensures SameFate(s, t, j)
  {
    RanInLog(s);
    hide Inv, LiveReaders, LiveWriters;
    forall i | i in s.outcomes && s.log[i].ResumeReader?
      ensures (j < |LiveReaders(s)| && j < |LiveWriters(s)|
                && s.log[i] == ResumeReader(LiveReaders(s)[j], LiveWriters(s)[j].value))
              <==> (j < |LiveReaders(t)| && j < |LiveWriters(t)|
                  && t.log[i] == ResumeReader(LiveReaders(t)[j], LiveWriters(t)[j].value))
    {
      SameRank(s, t, i, j);
    }
    LandedBefore(s, t, j);
    ReportedBefore(s, t, j);
  }

  lemma RanInLog(s: State)
    requires Inv(s)
    ensures forall i | i in s.outcomes :: i < |s.log|
  {
  }

  lemma LandedBefore(s: State, t: State, j: nat)
    requires s.log <= t.log
    requires forall i | i in s.outcomes :: i < |s.log| && i in t.outcomes && t.outcomes[i] == s.outcomes[i]
    requires forall i | i in t.outcomes && i !in s.outcomes :: t.outcomes[i].ThrewClosed?
    requires forall i | i in s.outcomes && s.log[i].ResumeReader? ::
               (j < |LiveReaders(s)| && j < |LiveWriters(s)|
                   && s.log[i] == ResumeReader(LiveReaders(s)[j], LiveWriters(s)[j].value))
               <==> (j < |LiveReaders(t)| && j < |LiveWriters(t)|
                   && t.log[i] == ResumeReader(LiveReaders(t)[j], LiveWriters(t)[j].value))
    ensures Landed(s, j) <==> Landed(t, j)
  {
    hide LiveReaders, LiveWriters;
    if Landed(s, j) {
      var i :| i in s.outcomes && i < |s.log| && s.outcomes[i].Received?
               && s.log[i] == ResumeReader(LiveReaders(s)[j], LiveWriters(s)[j].value);
      assert i in t.outcomes && t.log[i] == s.log[i];
    }
    if Landed(t, j) {
      var i :| i in t.outcomes && i < |t.log| && t.outcomes[i].Received?
               && t.log[i] == ResumeReader(LiveReaders(t)[j], LiveWriters(t)[j].value);
      assert i in s.outcomes && t.log[i] == s.log[i];
    }
  }

  lemma ReportedBefore(s: State, t: State, j: nat)
    requires Inv(s) && Inv(t) && s.log <= t.log && s.writersIn <= t.writersIn
    requires forall i | i in s.outcomes :: i < |s.log| && i in t.outcomes && t.outcomes[i] == s.outcomes[i]
    requires forall i | i in t.outcomes && i !in s.outcomes :: t.outcomes[i].ThrewClosed?
    ensures (j < |LiveWriters(s)| && Reported(s, LiveWriters(s)[j]))
              <==> (j < |LiveWriters(t)| && Reported(t, LiveWriters(t)[j]))
  {
    hide Inv, LiveReaders, LiveWriters;
    if j < |LiveWriters(s)| && Reported(s, LiveWriters(s)[j]) {
      var w := LiveWriters(s)[j];
      var i :| i in s.outcomes && i < |s.log| && s.log[i] == ResumeWriter(w.id) && s.outcomes[i].Written?;
      SameWriterRank(s, t, i, w, j);
      OneWriterPerId(s, t, w, LiveWriters(t)[j]);
      assert i in t.outcomes && t.log[i] == s.log[i];
    }
    if j < |LiveWriters(t)| && Reported(t, LiveWriters(t)[j]) {
      var w := LiveWriters(t)[j];
      var i :| i in t.outcomes && i < |t.log| && t.log[i] == ResumeWriter(w.id) && t.outcomes[i].Written?;
      assert i in s.outcomes && t.log[i] == s.log[i];
      SameWriterRank(s, t, i, w, j);
      OneWriterPerId(s, t, LiveWriters(s)[j], w);
    }
  }

  /** Every write that has reported success has had its value received. */
  ghost predicate ReportsTrue(s: State) {
    forall j: nat | j < |LiveWriters(s)| && Reported(s, LiveWriters(s)[j]) :: Landed(s, j)
  }

  /**
   The fate of reported writes at a close, exactly: in any state from the flag on, the writes that have
   reported success and the values that have been received are those that had when the flag went down,
   writer by writer. So the reports come true if and only if they had by then; one that had not never will.
   */
  lemma ReportsAtClose(s: State, es: seq<Event>)
    requires Inv(s) && s.phase.Open?
    ensures var t := Exec(Step(s, CloseFlag), es);
            && (forall j: nat :: SameFate(s, t, j))
            && (ReportsTrue(t) <==> ReportsTrue(s))
  {
    var t := Exec(Step(s, CloseFlag), es);
    SinceFlag(s, es);
    hide *;
    forall j: nat ensures SameFate(s, t, j) {
      NothingLandsLater(s, t, j);
    }
    FatesAgree(s, t);
  }

  lemma SinceFlag(s: State, es: seq<Event>)
    requires Inv(s) && s.phase.Open?
    ensures var t := Exec(Step(s, CloseFlag), es);
            && Inv(t) && s.log <= t.log && s.writersIn <= t.writersIn
            && (forall i | i in s.outcomes :: i in t.outcomes && t.outcomes[i] == s.outcomes[i])
            && (forall i | i in t.outcomes && i !in s.outcomes :: t.outcomes[i].ThrewClosed?)
  {
    var r := Step(s, CloseFlag);
    StepKeeps(s, CloseFlag);
    AfterFlag(r, es);
    ArrivalsStay(r, es);
    assert r == s.(phase := Flagged);
  }

  /** Whether the j-th value has landed, and whether its write has reported success, is the same in both states. */
  ghost predicate SameFate(s: State, t: State, j: nat) {
    && (Landed(t, j) <==> Landed(s, j))
    && ((j < |LiveWriters(t)| && Reported(t, LiveWriters(t)[j]))
          <==> (j < |LiveWriters(s)| && Reported(s, LiveWriters(s)[j])))
  }

  lemma FatesAgree(s: State, t: State)
    requires forall j: nat :: SameFate(s, t, j)
    ensures ReportsTrue(t) <==> ReportsTrue(s)
  {
    hide Landed, Reported, LiveWriters;
    forall j: nat | ReportsTrue(s) && j < |LiveWriters(t)| && Reported(t, LiveWriters(t)[j]) ensures Landed(t, j) {
      assert SameFate(s, t, j);
    }
    forall j: nat | ReportsTrue(t) && j < |LiveWriters(s)| && Reported(s, LiveWriters(s)[j]) ensures Landed(s, j) {
      assert SameFate(s, t, j);
    }
  }

  // ----- removals

  lemma GoneGrow(s: State, e: Event)
    ensures s.goneReaders <= Step(s, e).goneReaders && s.goneWriters <= Step(s, e).goneWriters
  {
  }

  lemma {:induction false} InvOnward(s: State, es: seq<Event>)
    requires Inv(s)
    ensures Inv(Exec(s, es)) && s.goneReaders <= Exec(s, es).goneReaders && s.goneWriters <= Exec(s, es).goneWriters
  {
    if es != [] {
      hide Inv, Step;
      InvOnward(s, es[..|es| - 1]);
      StepKeeps(Exec(s, es[..|es| - 1]), es[|es| - 1]);
      GoneGrow(Exec(s, es[..|es| - 1]), es[|es| - 1]);
    }
  }

  lemma RemovalIsNoted(s: State, r: nat, w: Writer)
    requires s.holder.Free?
    ensures r in s.queues.readers ==> r in Step(s, RemoveReader(r)).goneReaders
    ensures w in s.queues.writers ==> w in Step(s, RemoveWriter(w)).goneWriters
  {
  }

  lemma GoneReader(s: State, r: nat)
    requires Inv(s) && r in s.goneReaders
    ensures r !in s.queues.readers && forall j | j in s.log :: j.ResumeWriter? || j.reader != r
  {
    ReaderJobsAreReaders(s.log);
    ResumedArePrefix(s);
    WithoutMembers(s.readersIn, s.goneReaders);
    if r in s.queues.readers {
      SuspendedReaderIsLive(s, r);
    }
    hide Inv, Without, ReaderJobs;
    forall j | j in s.log && !j.ResumeWriter? ensures j.reader != r {
      ReadersInOrder(s.log, j);
      var m :| 0 <= m < |ReaderJobs(s.log)| && ReaderJobs(s.log)[m] == j;
      assert ReadersResumed(ReaderJobs(s.log))[m] == j.reader;
      assert LiveReaders(s)[m] == j.reader;
    }
  }

  lemma GoneWriter(s: State, w: Writer)
    requires Inv(s) && w in s.goneWriters
    ensures w !in s.queues.writers && ResumeWriter(w.id) !in s.log
  {
    ReaderJobsAreReaders(s.log);
    ResumedArePrefix(s);
    WithoutMembers(s.writersIn, s.goneWriters);
    GoneWasAccepted(s, w);
    if w in s.queues.writers {
      SuspendedIsLive(s, w);
    }
    if ResumeWriter(w.id) in s.log {
      WritersInOrder(s.log, ResumeWriter(w.id));
      OnlyWriterOfId(s, w);
    }
  }

  lemma GoneWasAccepted(s: State, w: Writer)
    requires Inv(s) && w in s.goneWriters
    ensures w in s.writersIn
  {
  }

  lemma OnlyWriterOfId(s: State, w: Writer)
    requires Inv(s) && w in s.writersIn && w in s.goneWriters
    ensures w.id !in Ids(LiveWriters(s))
  {
    WithoutMembers(s.writersIn, s.goneWriters);
    hide Formed, Ran, Delivered, Without;
    var ws := LiveWriters(s);
    var j :| 0 <= j < |s.writersIn| && s.writersIn[j] == w;
    forall m | 0 <= m < |ws| ensures Ids(ws)[m] != w.id {
      assert ws[m] in s.writersIn && ws[m] != w;
      var i :| 0 <= i < |s.writersIn| && s.writersIn[i] == ws[m];
      assert Ids(s.writersIn)[i] != Ids(s.writersIn)[j];
    }
  }

  /**
   A suspended awaiter that removes itself is gone: whatever follows, it is not suspended again and
   nothing ever resumes it, so that a removed reader gets no value and a removed writer is not let go on.
   */
  lemma RemovedForGood(s: State, r: nat, w: Writer, es: seq<Event>)
    requires Inv(s) && s.holder.Free?
    ensures r in s.queues.readers ==>
              var t := Exec(Step(s, RemoveReader(r)), es);
              r !in t.queues.readers && forall j | j in t.log :: j.ResumeWriter? || j.reader != r
    ensures w in s.queues.writers ==>
              var t := Exec(Step(s, RemoveWriter(w)), es);
              w !in t.queues.writers && ResumeWriter(w.id) !in t.log
  {
    hide *;
    StepKeeps(s, RemoveReader(r));
    StepKeeps(s, RemoveWriter(w));
    RemovalIsNoted(s, r, w);
    if r in s.queues.readers {
      InvOnward(Step(s, RemoveReader(r)), es);
      GoneReader(Exec(Step(s, RemoveReader(r)), es), r);
    }
    if w in s.queues.writers {
      InvOnward(Step(s, RemoveWriter(w)), es);
      GoneWriter(Exec(Step(s, RemoveWriter(w)), es), w);
    }
  }

  // ----- runs in which something goes wrong

  ghost predicate Reachable(capacity: int, s: State) {
    exists es :: Exec(Init(capacity), es) == s
  }

  lemma Then(capacity: int, s: State, e: Event) returns (t: State)
    requires Reachable(capacity, s)
    ensures t == Step(s, e) && Reachable(capacity, t)
  {
    var es :| Exec(Init(capacity), es) == s;
    assert (es + [e])[..|es|] == es;
    t := Exec(Init(capacity), es + [e]);
  }

  lemma ReaderWaiting(r: nat) returns (s: State)
    ensures Reachable(0, s) && s == Init(0).(queues := Queues([], [], [r]), readersIn := [r])
  {
    assert Exec(Init(0), []) == Init(0);
    assert Reachable(0, Init(0));
    hide Exec, Reachable;
    s := Then(0, Init(0), LockReader(r));
    s := Then(0, s, Commit);
  }

  /** A reader waits and a writer comes: the value changes hands, and both resumes are owed. */
  lemma HandedOver(r: nat, w: Writer) returns (s: State)
    ensures Reachable(0, s)
    ensures s == Init(0).(log := [ResumeReader(r, w.value), ResumeWriter(w.id)], owed := {0, 1}, second := {1},
                          readersIn := [r], writersIn := [w])
  {
    hide Exec, Reachable;
    s := ReaderWaiting(r);
    s := Then(0, s, LockWriter(w));
    s := Then(0, s, Commit);
    assert Positions(0, 2) == {0, 1} && Positions(1, 1) == {1};
  }

  /**
   A write reports success and its value reaches nobody: the value is handed to a waiting reader, whose
   job is with the executor when the channel is closed. Nothing counts as dropped by the close.
   */
  lemma WrittenButRefused(r: nat, w: Writer)
    ensures exists s :: Reachable(0, s) && s.phase.Cleaned? && s.dropped == [] && s.owed == {}
                        && s.log == [ResumeReader(r, w.value), ResumeWriter(w.id)]
                        && s.outcomes == map[1 := Written, 0 := ThrewClosed]
                        && GivenWith(s, 2, Refused) == [w.value] && GivenWith(s, 2, Read) == []
  {
    hide Exec, Reachable;
    var s := HandedOver(r, w);
    s := Then(0, s, Dispatch(0));
    s := Then(0, s, Dispatch(1));
    s := Then(0, s, RunJob(1));
    assert s.outcomes == map[1 := Written] && s.owed == {};
    s := Then(0, s, CloseFlag);
    s := Then(0, s, CleanUp);
    assert s.phase.Cleaned? && s.dropped == [] && s.log == [ResumeReader(r, w.value), ResumeWriter(w.id)];
    s := Then(0, s, RunJob(0));
    assert s.outcomes == map[1 := Written, 0 := ThrewClosed];
    assert GivenWith(s, 0, Refused) == [] && GivenWith(s, 0, Read) == [];
    assert GivenWith(s, 1, Refused) == [w.value] && GivenWith(s, 1, Read) == [];
  }

  lemma HandedTwice(r: nat, q: nat, v: Writer, w: Writer) returns (s: State)
    requires r != q && v.id != w.id
    ensures Reachable(0, s) && s.phase.Open? && s.holder.Free? && s.readersIn == [r, q] && s.sent == []
    ensures s.log == [ResumeReader(r, v.value), ResumeWriter(v.id), ResumeReader(q, w.value), ResumeWriter(w.id)]
    ensures s.owed == {0, 1, 2, 3} && s.second == {1, 3} && s.queues == Queues([], [], [])
  {
    hide Exec, Reachable;
    s := HandedOver(r, v);
    s := Then(0, s, LockReader(q));
    s := Then(0, s, Commit);
    s := Then(0, s, LockWriter(w));
    s := Then(0, s, Commit);
    assert Positions(2, 2) == {2, 3} && Positions(3, 1) == {3};
  }

  /**
   Resumes are not made in the order in which they were decided on, and the clean-up does not wait for
   them: a second reader is resumed while the first, which came to its value earlier, is still owed its
   resume when the channel has been cleaned up.
   */
  lemma Overtaken(r: nat, q: nat, v: Writer, w: Writer)
    requires r != q && v.id != w.id
    ensures exists s :: Reachable(0, s) && s.phase.Cleaned? && s.readersIn == [r, q]
                        && s.log == [ResumeReader(r, v.value), ResumeWriter(v.id),
                                     ResumeReader(q, w.value), ResumeWriter(w.id)]
                        && s.sent == [2, 3] && s.owed == {0, 1}
  {
    hide Exec, Reachable;
    var s := HandedTwice(r, q, v, w);
    s := Then(0, s, Dispatch(2));
    s := Then(0, s, Dispatch(3));
    assert s.sent == [2, 3] && s.owed == {0, 1};
    s := Then(0, s, CloseFlag);
    s := Then(0, s, CleanUp);
  }
}
