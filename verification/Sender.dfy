/**
 The sending half of src/network/NetworkManager.cpp: the table of targets with their cached sockets, the
 rank report that opens a connection, and the retry loop of sendMessage, first as one call alone and
 then as any number of calls whose steps interleave. A step is one look at the table, which locks the
 entry, or one write. What the operating system does is a parameter, Luck for a whole attempt. Sockets
 are numbered by the order in which they are opened.
 */
module Sender {
  import opened Sequences
  import opened Frames

  type Rank = x: int | -0x8000_0000 <= x < 0x8000_0000
  type Port = x: int | 0 <= x < 0x1_0000

  datatype Target = Target(ip: nat, port: nat, sock: int)

  /** How the calls of one attempt turn out: socket, connect, and the results of the two writes. */
  datatype Luck = Luck(socketOk: bool, connectOk: bool, reportWritten: int, frameWritten: int)

  /** A write of part or all of a frame that did not fail. */
  datatype Write = Write(sock: int, payload: Bytes, count: nat)

  datatype Net = Net(
    myRank: Rank,
    listenPort: Port,
    targets: map<int, Target>,
    wires: map<int, Bytes>,   // all bytes written to the sockets in use
    nextSock: nat,
    ours: set<int>,         // history: the sockets opened by getSendSocket
    log: seq<Write>           // history: the writes of frames, in order
  )

  datatype Result = Sent | Partial | Again

  datatype Ending = Returned | Threw

  /** What a write of bytes with this result has put on the wire. */
  function Put(bytes: Bytes, written: int): Bytes {
    if written < 0 then [] else bytes[..Min(written, |bytes|)]
  }

  function MyReport(n: Net): Bytes
  {
    ReportFrame(n.myRank, n.listenPort)
  }

  function GetSendSocket(n: Net, rank: int, luck: Luck): (Net, int)
  {
    if rank !in n.targets then (n, -1)
    else if n.targets[rank].sock > 0 then (n, n.targets[rank].sock)
    else if !luck.socketOk then (n, -1)
    else
      var sock := n.nextSock;
      var m := n.(nextSock := sock + 1);
      if !luck.connectOk || luck.reportWritten < |MyReport(n)| then (m, -1)
      else (m.(targets := n.targets[rank := n.targets[rank].(sock := sock)], wires := n.wires[sock := MyReport(n)],
               ours := n.ours + {sock}), sock)
  }

  function ClearSendSocket(n: Net, rank: int): Net {
    if rank !in n.targets then n else n.(targets := n.targets[rank := n.targets[rank].(sock := -1)])
  }

  /** The write of a frame, when it did not fail. */
  function WriteFrame(n: Net, sock: int, payload: Bytes, written: nat): (r: (Net, Result))
    ensures !r.1.Again?
  {
    var put := Put(Frame(payload), written);
    var before := if sock in n.wires then n.wires[sock] else [];
    (n.(wires := n.wires[sock := before + put], log := n.log + [Write(sock, payload, |put|)]),
     if written < |Frame(payload)| then Partial else Sent)
  }

  /** One turn of the loop of sendMessage. */
  function Attempt(n: Net, rank: int, payload: Bytes, luck: Luck): (Net, Result)
  {
    var (m, sock) := GetSendSocket(n, rank, luck);
    if sock < 0 then (m, Again)
    else if luck.frameWritten < 0 then (ClearSendSocket(m, rank), Again)
    else WriteFrame(m, sock, payload, luck.frameWritten)
  }

  /** The whole loop. Its k-th turn has the luck of turn k; with a negative retry there is no turn. */
  function Send(n: Net, rank: int, payload: Bytes, retry: int, lucks: nat -> Luck, k: nat): (Net, Ending)
    decreases retry + 1
  {
    if retry < 0 then (n, Returned)
    else
      var (m, result) := Attempt(n, rank, payload, lucks(k));
      match result
      case Sent => (m, Returned)
      case Partial => (m, Threw)
      case Again => if retry == 0 then (m, Threw) else Send(m, rank, payload, retry - 1, lucks, k + 1)
  }

  /** registerTarget: any cached socket is forgotten. */
  function Register(n: Net, rank: int, ip: nat, port: nat): Net {
    n.(targets := n.targets[rank := Target(ip, port, -1)])
  }

  /** A rank report that comes in on a connection accepted from a peer: it is not entered over an existing one. */
  function Incoming(n: Net, rank: int, ip: nat, port: nat): Net {
    if rank in n.targets then n.(nextSock := n.nextSock + 1)
    else n.(targets := n.targets[rank := Target(ip, port, n.nextSock)], nextSock := n.nextSock + 1)
  }

  function Init(myRank: Rank, listenPort: Port): Net {
    Net(myRank, listenPort, map[], map[], 1, {}, [])
  }

  // ----- what is on the wires

  function Spelled(w: Write): Bytes {
    Frame(w.payload)[..Min(w.count, |Frame(w.payload)|)]
  }

  /** What the log says was written to a socket after its opening. */
  function Logged(log: seq<Write>, sock: int): Bytes {
    if log == [] then []
    else
      var w := log[|log| - 1];
      Logged(log[..|log| - 1], sock) + if w.sock == sock then Spelled(w) else []
  }

  ghost predicate WiresOk(n: Net)
  {
    && (forall s | s in n.ours :: s in n.wires)
    && (forall s | s in n.wires :: n.wires[s] == (if s in n.ours then MyReport(n) else []) + Logged(n.log, s))
    && (forall w | w in n.log :: w.sock in n.wires && w.count <= |Frame(w.payload)|)
  }

  ghost predicate SocksOk(n: Net) {
    && n.nextSock > 0
    && (forall s | s in n.wires :: 0 < s < n.nextSock)
    && (forall r | r in n.targets :: n.targets[r].sock < n.nextSock && n.targets[r].sock != 0)
  }

  ghost predicate Inv(n: Net) {
    WiresOk(n) && SocksOk(n)
  }

  lemma {:induction false} NothingLogged(log: seq<Write>, sock: int)
    requires forall w | w in log :: w.sock != sock
    ensures Logged(log, sock) == []
  {
    if log != [] {
      assert forall w | w in log[..|log| - 1] :: w in log;
      assert log[|log| - 1] in log;
      NothingLogged(log[..|log| - 1], sock);
    }
  }

  lemma OpenKeeps(n: Net, rank: int, luck: Luck)
    requires Inv(n)
    ensures var (m, sock) := GetSendSocket(n, rank, luck);
            && Inv(m) && m.log == n.log && m.myRank == n.myRank && m.listenPort == n.listenPort
            && sock != 0 && (sock > 0 ==> rank in m.targets && m.targets[rank].sock == sock && sock < m.nextSock)
            && n.ours <= m.ours
  {
    var (m, sock) := GetSendSocket(n, rank, luck);
    if sock == n.nextSock {
      NothingLogged(n.log, sock);
    }
  }

  lemma LoggedMore(log: seq<Write>, w: Write, s: int)
    ensures Logged(log + [w], s) == Logged(log, s) + if w.sock == s then Spelled(w) else []
  {
    assert (log + [w])[..|log|] == log;
  }

  /** Writing part or all of a frame to a cached socket. */
  lemma WriteKeeps(m: Net, t: Net, w: Write)
    requires Inv(m) && 0 < w.sock < m.nextSock && w.count <= |Frame(w.payload)|
    requires t == m.(wires := m.wires[w.sock := (if w.sock in m.wires then m.wires[w.sock] else []) + Spelled(w)],
              log := m.log + [w])
    ensures Inv(t)
  {
    hide Spelled, Logged, ReportFrame, Frame;
    if w.sock !in m.wires {
      NothingLogged(m.log, w.sock);
    }
    forall s | s in t.wires
      ensures t.wires[s] == (if s in t.ours then MyReport(t) else []) + Logged(t.log, s)
    {
      LoggedMore(m.log, w, s);
      var start := if s in m.ours then MyReport(m) else [];
      assert start + Logged(m.log, s) + Spelled(w) == start + (Logged(m.log, s) + Spelled(w));
      assert start + Logged(m.log, s) == start + (Logged(m.log, s) + []);
      assert s !in m.wires ==> [] + Spelled(w) == start + (Logged(m.log, s) + Spelled(w));
    }
  }

  /** One write of the payload's frame was made, on the socket cached for the rank. */
  ghost predicate WroteOnce(n: Net, m: Net, rank: int, payload: Bytes) {
    && |m.log| == |n.log| + 1 && rank in m.targets
    && m.log == n.log + [Write(m.targets[rank].sock, payload, m.log[|n.log|].count)]
  }

  /** That write was of the whole frame. */
  ghost predicate WroteAll(n: Net, m: Net, rank: int, payload: Bytes) {
    WroteOnce(n, m, rank, payload) && m.log[|n.log|].count == |Frame(payload)|
  }

  ghost predicate SameSelf(n: Net, m: Net) {
    m.myRank == n.myRank && m.listenPort == n.listenPort && n.ours <= m.ours
  }

  lemma WriteFrameKeeps(n: Net, sock: int, payload: Bytes, written: nat)
    requires Inv(n) && 0 < sock < n.nextSock
    ensures var (m, result) := WriteFrame(n, sock, payload, written);
            var count := |Put(Frame(payload), written)|;
            && Inv(m) && m == n.(wires := m.wires, log := n.log + [Write(sock, payload, count)])
            && (result.Sent? <==> count == |Frame(payload)|) && !result.Again?
  {
    hide WiresOk, SocksOk, MyReport;
    var m := WriteFrame(n, sock, payload, written).0;
    var count := |Put(Frame(payload), written)|;
    assert Put(Frame(payload), written) == Spelled(Write(sock, payload, count));
    WriteKeeps(n, m, Write(sock, payload, count));
  }

  lemma AttemptKeeps(n: Net, rank: int, payload: Bytes, luck: Luck)
    requires Inv(n)
    ensures var (m, result) := Attempt(n, rank, payload, luck);
            && Inv(m) && SameSelf(n, m)
            && (result.Again? ==> m.log == n.log)
            && (!result.Again? ==> WroteOnce(n, m, rank, payload))
            && (result.Sent? <==> WroteAll(n, m, rank, payload))
  {
    hide Inv, MyReport, WriteFrame;
    OpenKeeps(n, rank, luck);
    var (o, sock) := GetSendSocket(n, rank, luck);
    hide GetSendSocket;
    if sock > 0 && luck.frameWritten >= 0 {
      WriteFrameKeeps(o, sock, payload, luck.frameWritten);
    } else if sock > 0 {
      ClearKeeps(o, rank);
    }
  }

  lemma ClearKeeps(n: Net, rank: int)
    requires Inv(n)
    ensures Inv(ClearSendSocket(n, rank))
  {
  }

  /**
   At most one frame per call: a call that is given at least one attempt returns exactly when it has
   written one whole frame, on the socket cached for the rank; and whether it returns or throws it has
   made no more than one write of a frame. In particular a partial write is never followed by another
   attempt, and leaves the socket cached.
   */
  lemma {:induction false} SendOnce(n: Net, rank: int, payload: Bytes, retry: int, lucks: nat -> Luck, k: nat)
    requires Inv(n)
    ensures var (m, ending) := Send(n, rank, payload, retry, lucks, k);
            && Inv(m) && SameSelf(n, m)
            && (m.log == n.log || WroteOnce(n, m, rank, payload))
            && (retry >= 0 ==> (ending.Returned? <==> WroteAll(n, m, rank, payload)))
            && (retry < 0 ==> ending.Returned? && m == n)
    decreases retry + 1
  {
    hide WiresOk, SocksOk, Attempt;
    if retry >= 0 {
      AttemptKeeps(n, rank, payload, lucks(k));
      var (m, result) := Attempt(n, rank, payload, lucks(k));
      if result.Again? && retry > 0 {
        SendOnce(m, rank, payload, retry - 1, lucks, k + 1);
      }
    }
  }

  // ----- a socket that failed is not used again

  /** What was written to the sockets numbered so far is untouched. */
  ghost predicate OldWiresStay(n: Net, m: Net) {
    forall s | s < n.nextSock :: (s in m.wires <==> s in n.wires) && (s in n.wires ==> m.wires[s] == n.wires[s])
  }

  lemma OldWiresTwice(a: Net, b: Net, c: Net)
    requires OldWiresStay(a, b) && OldWiresStay(b, c) && a.nextSock <= b.nextSock
    ensures OldWiresStay(a, c)
  {
    forall s | s < a.nextSock ensures (s in c.wires <==> s in a.wires) && (s in a.wires ==> c.wires[s] == a.wires[s]) {
      assert s in b.wires <==> s in a.wires;
    }
  }

  ghost predicate NoSocket(n: Net, rank: int) {
    rank in n.targets ==> n.targets[rank].sock <= 0
  }

  /** The call wrote nothing, or its one write went to a socket opened since n, after a whole rank report. */
  ghost predicate WroteAnew(n: Net, m: Net) {
    || m.log == n.log
    || (&& |m.log| == |n.log| + 1 && n.log <= m.log
        && var sock := m.log[|n.log|].sock;
           && sock >= n.nextSock && sock in m.ours && sock in m.wires
           && ReportFrame(n.myRank, n.listenPort) <= m.wires[sock])
  }

  /** One attempt for a rank with no socket: it opens a new one or none, and when it must go on there is none again. */
  lemma AttemptAnew(n: Net, rank: int, payload: Bytes, luck: Luck)
    requires Inv(n) && NoSocket(n, rank)
    ensures var (m, result) := Attempt(n, rank, payload, luck);
            && n.nextSock <= m.nextSock && WroteAnew(n, m) && OldWiresStay(n, m)
            && (result.Again? ==> NoSocket(m, rank) && m.log == n.log)
  {
    hide WiresOk, ReportFrame, Frame;
  }

  /** A call for a rank with no socket writes its frame, if it does, to a new connection. */
  lemma {:induction false} SendsAnew(n: Net, rank: int, payload: Bytes, retry: int, lucks: nat -> Luck, k: nat)
    requires Inv(n) && NoSocket(n, rank)
    ensures var m := Send(n, rank, payload, retry, lucks, k).0;
            n.nextSock <= m.nextSock && WroteAnew(n, m) && OldWiresStay(n, m)
    decreases retry + 1
  {
    hide Inv, Attempt, ReportFrame, NoSocket;
    if retry >= 0 {
      AttemptKeeps(n, rank, payload, lucks(k));
      AttemptAnew(n, rank, payload, lucks(k));
      var (m, result) := Attempt(n, rank, payload, lucks(k));
      if result.Again? && retry > 0 {
        SendsAnew(m, rank, payload, retry - 1, lucks, k + 1);
        OldWiresTwice(n, m, Send(m, rank, payload, retry - 1, lucks, k + 1).0);
      }
    }
  }

  /** A write that failed: the rank has no socket any more. */
  lemma FailedAttempt(n: Net, rank: int, payload: Bytes, luck: Luck)
    requires Inv(n) && GetSendSocket(n, rank, luck).1 > 0 && luck.frameWritten < 0
    ensures var (m, result) := Attempt(n, rank, payload, luck);
            && result.Again? && rank in m.targets && m.targets[rank].sock == -1
            && GetSendSocket(n, rank, luck).1 < m.nextSock && m.wires == GetSendSocket(n, rank, luck).0.wires
            && m.log == n.log && n.nextSock <= m.nextSock && m.myRank == n.myRank && m.listenPort == n.listenPort
  {
    hide WiresOk;
    OpenKeeps(n, rank, luck);
  }

  /**
   A retry reconnects: when an attempt has got a socket and its write fails, the rest of the call never
   writes to that socket, or to any other there was; if it writes its frame, it does so on a connection
   opened after the failure, behind a whole rank report.
   */
  lemma RetryReconnects(n: Net, rank: int, payload: Bytes, retry: int, lucks: nat -> Luck, k: nat)
    requires Inv(n) && retry >= 0 && GetSendSocket(n, rank, lucks(k)).1 > 0 && lucks(k).frameWritten < 0
    ensures var failed := GetSendSocket(n, rank, lucks(k)).1;
            var there := GetSendSocket(n, rank, lucks(k)).0;
            var m := Send(n, rank, payload, retry, lucks, k).0;
            && OldWiresStay(there, m) && failed < there.nextSock
            && (m.log == n.log
                || (&& |m.log| == |n.log| + 1 && n.log <= m.log
                    && var sock := m.log[|n.log|].sock;
                       && sock >= there.nextSock && sock != failed && sock in m.wires
                       && ReportFrame(n.myRank, n.listenPort) <= m.wires[sock]))
  {
    FailedAttempt(n, rank, payload, lucks(k));
    AttemptKeeps(n, rank, payload, lucks(k));
    FailedSocks(n, rank, payload, lucks(k));
    hide Inv, Attempt, ReportFrame, GetSendSocket;
    var m := Attempt(n, rank, payload, lucks(k)).0;
    if retry > 0 {
      SendsAnew(m, rank, payload, retry - 1, lucks, k + 1);
    }
  }

  lemma FailedSocks(n: Net, rank: int, payload: Bytes, luck: Luck)
    requires Inv(n) && GetSendSocket(n, rank, luck).1 > 0 && luck.frameWritten < 0
    ensures Attempt(n, rank, payload, luck).0.nextSock == GetSendSocket(n, rank, luck).0.nextSock
    ensures Attempt(n, rank, payload, luck).0.log == n.log
  {
  }

  /** A target registered anew is connected to anew. */
  lemma RegisteredAnew(n: Net, rank: int, ip: nat, port: nat, payload: Bytes, retry: int, lucks: nat -> Luck)
    requires Inv(n)
    ensures var r := Register(n, rank, ip, port);
            var m := Send(r, rank, payload, retry, lucks, 0).0;
            WroteAnew(r, m) && OldWiresStay(r, m) && r.log == n.log && r.nextSock == n.nextSock && r.wires == n.wires
  {
    TableKeeps(n, rank, ip, port);
    var r := Register(n, rank, ip, port);
    assert r.targets[rank].sock == -1;
    hide Inv, Send, WroteAnew, OldWiresStay;
    SendsAnew(r, rank, payload, retry, lucks, 0);
  }

  // ----- calls that interleave

  /**
   Where a call is: at the head of its loop; with a socket, about to write; about to forget the socket it
   could not write to; or over.
   */
  datatype Pc = Trying(left: nat) | Holding(left: nat, sock: int) | Forgetting(left: nat) | Over(ending: Ending)

  datatype Caller = Caller(rank: int, payload: Bytes, retry: int, pc: Pc)

  /** The authors are a history: who made each write of the log. */
  datatype State = State(net: Net, callers: map<nat, Caller>, authors: seq<nat>)

  datatype Op =
    | RegisterTarget(rank: int, ip: nat, port: nat)
    | ReportCameIn(rank: int, ip: nat, port: nat)
    | Call(id: nat, rank: int, payload: Bytes, retry: int)
    | Open(id: nat, luck: Luck)
    | WriteTo(id: nat, written: int)
    | Forget(id: nat)

  /** After an attempt that came to nothing. */
  function After(left: nat): Pc {
    if left == 0 then Over(Threw) else Trying(left - 1)
  }

  function Moved(s: State, id: nat, net: Net, pc: Pc): State
    requires id in s.callers
  {
    s.(net := net, callers := s.callers[id := s.callers[id].(pc := pc)])
  }

  /** One step. An operation that cannot happen in s leaves s as it is. */
  function Do(s: State, op: Op): State
  {
    match op
    case RegisterTarget(rank, ip, port) => s.(net := Register(s.net, rank, ip, port))
    case ReportCameIn(rank, ip, port) => s.(net := Incoming(s.net, rank, ip, port))
    case Call(id, rank, payload, retry) =>
      if id in s.callers then s
      else
        var pc := if retry < 0 then Over(Returned) else Trying(retry);
        s.(callers := s.callers[id := Caller(rank, payload, retry, pc)])
    case Open(id, luck) =>
      if id in s.callers && s.callers[id].pc.Trying? then
        var (m, sock) := GetSendSocket(s.net, s.callers[id].rank, luck);
        Moved(s, id, m, if sock < 0 then After(s.callers[id].pc.left) else Holding(s.callers[id].pc.left, sock))
      else s
    case WriteTo(id, written) =>
      if id in s.callers && s.callers[id].pc.Holding? then
        var pc := s.callers[id].pc;
        if written < 0 then Moved(s, id, s.net, Forgetting(pc.left))
        else
          var (m, result) := WriteFrame(s.net, pc.sock, s.callers[id].payload, written);
          Moved(s, id, m, Over(if result.Sent? then Returned else Threw)).(authors := s.authors + [id])
      else s
    case Forget(id) =>
      if id in s.callers && s.callers[id].pc.Forgetting? then
        Moved(s, id, ClearSendSocket(s.net, s.callers[id].rank), After(s.callers[id].pc.left))
      else s
  }

  function Run(s: State, ops: seq<Op>): State {
    if ops == [] then s else Do(Run(s, ops[..|ops| - 1]), ops[|ops| - 1])
  }

  function Start(myRank: Rank, listenPort: Port): State {
    State(Init(myRank, listenPort), map[], [])
  }

  ghost predicate Wrote(s: State, id: nat, i: nat) {
    i < |s.authors| && s.authors[i] == id
  }

  /** What a call has to do with the log: at most one write, of its own payload, which decides how it ends. */
  ghost predicate CallerOk(s: State, id: nat)
    requires id in s.callers && |s.authors| == |s.net.log|
  {
    var c := s.callers[id];
    && (forall i: nat, j: nat | Wrote(s, id, i) && Wrote(s, id, j) :: i == j)
    && (forall i: nat | Wrote(s, id, i) ::
          && s.net.log[i].payload == c.payload
          && c.pc == Over(if s.net.log[i].count == |Frame(c.payload)| then Returned else Threw))
    && (c.pc.Holding? ==> 0 < c.pc.sock < s.net.nextSock)
    && (!c.pc.Over? ==> c.pc.left <= c.retry)
    && (c.retry >= 0 && c.pc == Over(Returned) ==> exists i: nat :: Wrote(s, id, i))
    && (c.retry < 0 ==> c.pc == Over(Returned) && forall i: nat :: !Wrote(s, id, i))
  }

  ghost predicate AllOk(s: State) {
    && Inv(s.net)
    && |s.authors| == |s.net.log|
    && (forall a | a in s.authors :: a in s.callers)
    && (forall id | id in s.callers :: CallerOk(s, id))
  }

  /** A call that a step leaves alone. */
  lemma OtherCaller(s: State, t: State, a: nat)
    requires |s.authors| == |s.net.log| && |t.authors| == |t.net.log| && a in s.callers && CallerOk(s, a)
    requires a in t.callers && t.callers[a] == s.callers[a] && t.net.nextSock >= s.net.nextSock
    requires s.authors <= t.authors && s.net.log <= t.net.log
    requires forall i | |s.authors| <= i < |t.authors| :: t.authors[i] != a
    ensures CallerOk(t, a)
  {
    hide Frame;
    assert forall i: nat :: Wrote(t, a, i) == Wrote(s, a, i);
  }

  /** A step that writes nothing: the table may change, and one call may move on. */
  lemma NoWriteKeeps(s: State, t: State, id: nat)
    requires AllOk(s) && Inv(t.net) && t.net.log == s.net.log && t.net.nextSock >= s.net.nextSock
              && t.authors == s.authors
    requires t.callers == s.callers || (id in s.callers && !s.callers[id].pc.Over? && id in t.callers
                                        && t.callers == s.callers[id := s.callers[id].(pc := t.callers[id].pc)])
    requires t.callers != s.callers ==>
               var pc := t.callers[id].pc;
               && (pc.Holding? ==> 0 < pc.sock < t.net.nextSock)
               && (if pc.Over? then pc.ending.Threw? else pc.left <= s.callers[id].pc.left)
    ensures AllOk(t)
  {
    hide Inv, Frame;
    forall a | a in t.callers ensures CallerOk(t, a) {
      assert CallerOk(s, a);
      if t.callers[a] == s.callers[a] {
        OtherCaller(s, t, a);
      } else {
        assert forall i: nat :: Wrote(t, a, i) == Wrote(s, a, i);
      }
    }
  }

  /** A step that writes: the call is over, and its write is the last in the log. */
  lemma OneWriteKeeps(s: State, id: nat, written: nat)
    requires AllOk(s) && id in s.callers && s.callers[id].pc.Holding?
    ensures AllOk(Do(s, WriteTo(id, written)))
  {
    var t := Do(s, WriteTo(id, written));
    assert CallerOk(s, id);
    WriteFrameKeeps(s.net, s.callers[id].pc.sock, s.callers[id].payload, written);
    hide Inv, Frame, WriteFrame, Put;
    forall a | a in t.callers && a != id ensures CallerOk(t, a) {
      assert CallerOk(s, a);
      OtherCaller(s, t, a);
    }
    AuthorOver(s, t, id);
  }

  lemma AuthorOver(s: State, t: State, id: nat)
    requires |s.authors| == |s.net.log| && id in s.callers && CallerOk(s, id) && !s.callers[id].pc.Over?
    requires t.authors == s.authors + [id] && |t.net.log| == |t.authors|
    requires id in t.callers && t.net.log[|s.authors|].payload == s.callers[id].payload
    requires t.callers[id]
          == s.callers[id].(pc := Over(if t.net.log[|s.authors|].count == |Frame(s.callers[id].payload)|
                                       then Returned else Threw))
    ensures CallerOk(t, id)
  {
    hide Frame;
    forall i: nat | i < |s.authors| ensures !Wrote(t, id, i) {
      assert Wrote(t, id, i) ==> Wrote(s, id, i);
    }
    assert Wrote(t, id, |s.authors|);
  }

  lemma DoKeeps(s: State, op: Op)
    requires AllOk(s)
    ensures AllOk(Do(s, op)) && SameSelf(s.net, Do(s, op).net)
  {
    match op
    case RegisterTarget(rank, ip, port) =>
      TableKeeps(s.net, rank, ip, port);
      hide Inv, Register;
      NoWriteKeeps(s, Do(s, op), 0);
    case ReportCameIn(rank, ip, port) =>
      TableKeeps(s.net, rank, ip, port);
      hide Inv, Incoming;
      NoWriteKeeps(s, Do(s, op), 0);
    case Call(id, rank, payload, retry) => CallKeeps(s, op);
    case Open(id, luck) =>
      if id in s.callers && s.callers[id].pc.Trying? {
        OpenKeeps(s.net, s.callers[id].rank, luck);
        hide Inv, GetSendSocket;
        NoWriteKeeps(s, Do(s, op), id);
      }
    case WriteTo(id, written) =>
      if id in s.callers && s.callers[id].pc.Holding? {
        assert CallerOk(s, id);
        if written < 0 {
          hide Inv;
          NoWriteKeeps(s, Do(s, op), id);
        } else {
          OneWriteKeeps(s, id, written);
        }
      }
    case Forget(id) =>
      if id in s.callers && s.callers[id].pc.Forgetting? {
        ClearKeeps(s.net, s.callers[id].rank);
        hide Inv;
        NoWriteKeeps(s, Do(s, op), id);
      }
  }

  lemma TableKeeps(n: Net, rank: int, ip: nat, port: nat)
    requires Inv(n)
    ensures Inv(Register(n, rank, ip, port)) && Inv(Incoming(n, rank, ip, port))
    ensures forall m | m in [Register(n, rank, ip, port), Incoming(n, rank, ip, port)] ::
              m.log == n.log && m.nextSock >= n.nextSock && SameSelf(n, m)
  {
  }

  lemma CallKeeps(s: State, op: Op)
    requires AllOk(s) && op.Call?
    ensures AllOk(Do(s, op))
  {
    hide Inv, Frame;
    var t := Do(s, op);
    forall a | a in t.callers ensures CallerOk(t, a) {
      if a in s.callers {
        OtherCaller(s, t, a);
      } else {
        assert forall i: nat :: !Wrote(t, a, i);
      }
    }
  }

  lemma {:induction false} RunKeeps(myRank: Rank, listenPort: Port, ops: seq<Op>)
    ensures var s := Run(Start(myRank, listenPort), ops);
            AllOk(s) && s.net.myRank == myRank && s.net.listenPort == listenPort
  {
    hide AllOk, Do;
    if ops == [] {
      StartKeeps(myRank, listenPort);
    } else {
      RunKeeps(myRank, listenPort, ops[..|ops| - 1]);
      DoKeeps(Run(Start(myRank, listenPort), ops[..|ops| - 1]), ops[|ops| - 1]);
    }
  }

  lemma StartKeeps(myRank: Rank, listenPort: Port)
    ensures AllOk(Start(myRank, listenPort))
  {
    InitKeeps(myRank, listenPort);
  }

  lemma InitKeeps(myRank: Rank, listenPort: Port)
    ensures Inv(Init(myRank, listenPort))
  {
  }

  /**
   At most one write of a frame per call, however the calls interleave: a call has written at most once,
   its own payload; it is over then, and has returned if it wrote the whole frame and thrown otherwise. A
   call that is given at least one attempt returns only after such a write.
   */
  lemma OneWritePerCall(myRank: Rank, listenPort: Port, ops: seq<Op>, id: nat)
    requires id in Run(Start(myRank, listenPort), ops).callers
    ensures var s := Run(Start(myRank, listenPort), ops);
            var c := s.callers[id];
            && |s.authors| == |s.net.log|
            && (forall i: nat, j: nat | Wrote(s, id, i) && Wrote(s, id, j) :: i == j)
            && (forall i: nat | Wrote(s, id, i) ::
                  && s.net.log[i].payload == c.payload
                  && c.pc == Over(if s.net.log[i].count == |Frame(c.payload)| then Returned else Threw))
            && (c.retry >= 0 && c.pc == Over(Returned) ==> exists i: nat :: Wrote(s, id, i))
            && (c.retry < 0 ==> c.pc == Over(Returned) && forall i: nat :: !Wrote(s, id, i))
  {
    hide Run, Do, Frame;
    RunKeeps(myRank, listenPort, ops);
    assert CallerOk(Run(Start(myRank, listenPort), ops), id);
  }

  function StepsLeft(pc: Pc): nat {
    match pc
    case Trying(left) => 3 * left + 3
    case Holding(left, _) => 3 * left + 2
    case Forgetting(left) => 3 * left + 1
    case Over(_) => 0
  }

  /**
   A call that is not over has a step, whatever the operating system does; and every step it takes brings
   it nearer to its end.
   */
  lemma CallsEnd(s: State, id: nat, luck: Luck)
    requires id in s.callers && !s.callers[id].pc.Over?
    ensures var pc := s.callers[id].pc;
            var op := if pc.Trying? then Open(id, luck)
                      else if pc.Holding? then WriteTo(id, luck.frameWritten)
                      else Forget(id);
            var t := Do(s, op);
            && t.callers.Keys == s.callers.Keys && StepsLeft(t.callers[id].pc) < StepsLeft(pc)
            && forall other | other in s.callers && other != id :: t.callers[other] == s.callers[other]
  {
    hide GetSendSocket, WriteFrame, ClearSendSocket;
  }

  /** A step in which this call fails to get a socket, or to write to the one it has. */
  predicate Fails(s: State, op: Op, id: nat) {
    && id in s.callers
    && (|| (op.Open? && op.id == id && s.callers[id].pc.Trying?
            && GetSendSocket(s.net, s.callers[id].rank, op.luck).1 < 0)
        || (op.WriteTo? && op.id == id && s.callers[id].pc.Holding? && op.written < 0))
  }

  function Failures(s: State, ops: seq<Op>, id: nat): nat {
    if ops == [] then 0
    else
      var front := ops[..|ops| - 1];
      Failures(s, front, id) + if Fails(Run(s, front), ops[|ops| - 1], id) then 1 else 0
  }

  /** How often a call has failed, by where it is. */
  ghost predicate Counted(s: State, id: nat, failures: nat) {
    && (id !in s.callers ==> failures == 0)
    && (id in s.callers ==>
          var c := s.callers[id];
          && (c.pc.Trying? || c.pc.Holding? ==> failures == c.retry - c.pc.left)
          && (c.pc.Forgetting? ==> failures == c.retry - c.pc.left + 1)
          && (c.pc.Over? && (exists i: nat :: Wrote(s, id, i)) ==> failures <= c.retry)
          && (c.pc.Over? && c.retry >= 0 && !(exists i: nat :: Wrote(s, id, i)) ==>
                c.pc.ending.Threw? && failures == c.retry + 1))
  }

  lemma CountStep(s: State, op: Op, id: nat, failures: nat)
    requires AllOk(s) && Counted(s, id, failures)
    ensures Counted(Do(s, op), id, failures + if Fails(s, op, id) then 1 else 0)
  {
    if id in s.callers {
      assert CallerOk(s, id);
    }
    hide Inv, Frame, Put, ReportFrame, GetSendSocket, ClearSendSocket, Register, Incoming;
    var t := Do(s, op);
    if op.WriteTo? && op.id in s.callers && s.callers[op.id].pc.Holding? && op.written >= 0 {
      assert t.authors == s.authors + [op.id];
      assert Wrote(t, op.id, |s.authors|);
      assert forall i: nat | i < |s.authors| :: Wrote(t, id, i) == Wrote(s, id, i);
      assert id != op.id ==> !Wrote(t, id, |s.authors|);
    } else {
      assert t.authors == s.authors;
      assert forall i: nat :: Wrote(t, id, i) == Wrote(s, id, i);
      assert id !in s.callers ==> id !in s.authors;
    }
  }

  lemma {:induction false} CountRun(myRank: Rank, listenPort: Port, ops: seq<Op>, id: nat)
    ensures Counted(Run(Start(myRank, listenPort), ops), id, Failures(Start(myRank, listenPort), ops, id))
  {
    if ops != [] {
      hide Do, Fails, Counted, AllOk;
      var front := ops[..|ops| - 1];
      CountRun(myRank, listenPort, front, id);
      RunKeeps(myRank, listenPort, front);
      var start := Start(myRank, listenPort);
      CountStep(Run(start, front), ops[|ops| - 1], id, Failures(start, front, id));
    }
  }

  /**
   No call gives up early, however calls interleave: one that is over without having written its frame has
   thrown, after it failed retry + 1 times to get a socket or to write; and one that has written had failed
   no more than retry times.
   */
  lemma GivesUpLate(myRank: Rank, listenPort: Port, ops: seq<Op>, id: nat)
    requires var s := Run(Start(myRank, listenPort), ops);
             id in s.callers && s.callers[id].retry >= 0 && s.callers[id].pc.Over?
    ensures var s := Run(Start(myRank, listenPort), ops);
            var failures := Failures(Start(myRank, listenPort), ops, id);
            if exists i: nat :: Wrote(s, id, i) then failures <= s.callers[id].retry
            else s.callers[id].pc.ending.Threw? && failures == s.callers[id].retry + 1
  {
    hide Run, Failures, Wrote;
    CountRun(myRank, listenPort, ops, id);
  }

  /** A call that is through with the socket dead: it is about to forget it, or its rank has another one or none. */
  ghost predicate Shuns(s: State, id: nat, dead: int) {
    && id in s.callers && dead < s.net.nextSock
    && (s.callers[id].pc.Forgetting?
        || (&& (s.callers[id].rank in s.net.targets ==> s.net.targets[s.callers[id].rank].sock != dead)
            && (s.callers[id].pc.Holding? ==> s.callers[id].pc.sock != dead)))
  }

  lemma ShunsStep(s: State, op: Op, id: nat, dead: int)
    requires Shuns(s, id, dead) && dead > 0 && |s.authors| == |s.net.log|
    ensures var t := Do(s, op);
            && Shuns(t, id, dead) && |t.authors| == |t.net.log| && s.authors <= t.authors && s.net.log <= t.net.log
            && forall i | |s.authors| <= i < |t.authors| && t.authors[i] == id :: t.net.log[i].sock != dead
  {
    hide Frame, ReportFrame, Put;
  }

  lemma {:induction false} ShunsForGood(s: State, ops: seq<Op>, id: nat, dead: int)
    requires Shuns(s, id, dead) && dead > 0 && |s.authors| == |s.net.log|
    ensures var t := Run(s, ops);
            && Shuns(t, id, dead) && |t.authors| == |t.net.log| && s.authors <= t.authors && s.net.log <= t.net.log
            && forall i | |s.authors| <= i < |t.authors| && t.authors[i] == id :: t.net.log[i].sock != dead
  {
    if ops != [] {
      hide Do, Shuns;
      ShunsForGood(s, ops[..|ops| - 1], id, dead);
      ShunsStep(Run(s, ops[..|ops| - 1]), ops[|ops| - 1], id, dead);
    }
  }

  /** However calls interleave, a call whose write on a socket has failed never writes to that socket again. */
  lemma NeverSameSocket(s: State, id: nat, written: int, ops: seq<Op>)
    requires AllOk(s) && id in s.callers && s.callers[id].pc.Holding? && written < 0
    ensures var t := Run(Do(s, WriteTo(id, written)), ops);
            && s.authors <= t.authors && |t.authors| == |t.net.log|
            && forall i | |s.authors| <= i < |t.authors| && t.authors[i] == id ::
                 t.net.log[i].sock != s.callers[id].pc.sock
  {
    assert CallerOk(s, id);
    hide Inv, Run, Wrote;
    ShunsForGood(Do(s, WriteTo(id, written)), ops, id, s.callers[id].pc.sock);
  }

  /** When a socket has been forgotten, the next to open one for that rank gets a new one, or none. */
  lemma ForgottenIsReopened(s: State, id: nat, next: nat, luck: Luck)
    requires AllOk(s) && id in s.callers && s.callers[id].pc.Forgetting? && next in s.callers
    requires next == id || s.callers[next].pc.Trying?
    requires s.callers[next].rank == s.callers[id].rank
    ensures var t := Do(s, Forget(id));
            var u := Do(t, Open(next, luck));
            && (s.callers[id].rank in t.net.targets ==> t.net.targets[s.callers[id].rank].sock == -1)
            && t.net.wires == s.net.wires
            && (u.callers[next].pc.Holding? && !t.callers[next].pc.Holding? ==>
                  var sock := u.callers[next].pc.sock;
                  && sock == s.net.nextSock && sock !in s.net.wires && sock in u.net.ours
                  && u.net.wires == s.net.wires[sock := ReportFrame(s.net.myRank, s.net.listenPort)])
  {
    hide CallerOk, Logged, ReportFrame;
  }

  lemma {:induction false} RunConcat(s: State, a: seq<Op>, b: seq<Op>)
    ensures Run(s, a + b) == Run(Run(s, a), b)
  {
    hide Do;
    if b == [] {
      assert a + b == a;
    } else {
      assert (a + b)[..|a + b| - 1] == a + b[..|b| - 1];
      RunConcat(s, a, b[..|b| - 1]);
    }
  }

  /** The three steps of an attempt that nothing comes between are one turn of the loop. */
  lemma TurnAlone(s: State, id: nat, luck: Luck)
    requires id in s.callers && s.callers[id].pc.Trying?
    ensures var c := s.callers[id];
            var t := Do(Do(Do(s, Open(id, luck)), WriteTo(id, luck.frameWritten)), Forget(id));
            var (m, result) := Attempt(s.net, c.rank, c.payload, luck);
            && t.net == m && id in t.callers
            && t.callers[id] == c.(pc := match result
                                         case Sent => Over(Returned)
                                         case Partial => Over(Threw)
                                         case Again => After(c.pc.left))
  {
    hide GetSendSocket, WriteFrame, ClearSendSocket;
    var c := s.callers[id];
    var (m, sock) := GetSendSocket(s.net, c.rank, luck);
    var one := Do(s, Open(id, luck));
    assert one.net == m && one.callers[id] == c.(pc := if sock < 0 then After(c.pc.left) else Holding(c.pc.left, sock));
    var two := Do(one, WriteTo(id, luck.frameWritten));
    if sock >= 0 && luck.frameWritten < 0 {
      assert two.net == m && two.callers[id] == c.(pc := Forgetting(c.pc.left));
    }
  }

  /** A call that runs alone does what the loop of one call says. */
  lemma {:induction false} AloneIsSend(s: State, id: nat, lucks: nat -> Luck, k: nat) returns (ops: seq<Op>)
    requires id in s.callers && s.callers[id].pc.Trying?
    ensures var c := s.callers[id];
            var (m, ending) := Send(s.net, c.rank, c.payload, c.pc.left, lucks, k);
            var t := Run(s, ops);
            t.net == m && id in t.callers && t.callers[id] == c.(pc := Over(ending))
    decreases s.callers[id].pc.left
  {
    var turn := [Open(id, lucks(k)), WriteTo(id, lucks(k).frameWritten), Forget(id)];
    var t := Run(s, turn);
    assert turn[..2][..1] == turn[..1] && turn[..1][..0] == [];
    TurnAlone(s, id, lucks(k));
    hide Do, Attempt;
    assert Run(s, turn[..0]) == s && Run(s, turn[..1]) == Do(s, turn[0])
           && Run(s, turn[..2]) == Do(Do(s, turn[0]), turn[1]);
    assert t == Do(Do(Do(s, turn[0]), turn[1]), turn[2]);
    ops := turn;
    if t.callers[id].pc.Trying? {
      var more := AloneIsSend(t, id, lucks, k + 1);
      RunConcat(s, turn, more);
      ops := turn + more;
    }
  }

  // ----- what the connections carry

  /** The messages written to a socket in full, in order. */
  function Wholes(log: seq<Write>, sock: int): seq<Bytes> {
    if log == [] then []
    else
      var w := log[|log| - 1];
      Wholes(log[..|log| - 1], sock) + if w.sock == sock && w.count == |Frame(w.payload)| then [w.payload] else []
  }

  function AllFrames(payloads: seq<Bytes>): Bytes {
    if payloads == [] then []
    else AllFrames(payloads[..|payloads| - 1]) + Frame(payloads[|payloads| - 1])
  }

  /** Some write to the socket put a beginning of a frame on the wire and not the rest. */
  ghost predicate Spoiled(log: seq<Write>, sock: int) {
    exists i :: 0 <= i < |log| && log[i].sock == sock && 0 < log[i].count < |Frame(log[i].payload)|
  }

  lemma {:induction false} LoggedFrames(log: seq<Write>, sock: int)
    requires forall w | w in log :: w.count <= |Frame(w.payload)|
    ensures |Logged(log, sock)| >= |AllFrames(Wholes(log, sock))|
    ensures Spoiled(log, sock) ==> |Logged(log, sock)| > |AllFrames(Wholes(log, sock))|
    ensures !Spoiled(log, sock) ==> Logged(log, sock) == AllFrames(Wholes(log, sock))
  {
    hide Frame;
    if log != [] {
      var front, w := log[..|log| - 1], log[|log| - 1];
      assert forall v | v in front :: v in log;
      assert w in log;
      LoggedFrames(front, sock);
      SpoiledByLast(log, sock);
      var ps := Wholes(front, sock);
      if w.sock == sock && w.count == |Frame(w.payload)| {
        assert (ps + [w.payload])[..|ps|] == ps;
        assert Spelled(w) == Frame(w.payload);
      } else {
        assert ps + [] == ps;
        assert w.sock == sock ==> |Spelled(w)| == w.count;
      }
    }
  }

  lemma SpoiledByLast(log: seq<Write>, sock: int)
    requires log != []
    ensures var w := log[|log| - 1];
            Spoiled(log, sock) <==>
              Spoiled(log[..|log| - 1], sock) || (w.sock == sock && 0 < w.count < |Frame(w.payload)|)
  {
    hide Frame;
    var front := log[..|log| - 1];
    if Spoiled(front, sock) {
      var i :| 0 <= i < |front| && front[i].sock == sock && 0 < front[i].count < |Frame(front[i].payload)|;
      assert log[i] == front[i];
    }
    if Spoiled(log, sock) {
      var i :| 0 <= i < |log| && log[i].sock == sock && 0 < log[i].count < |Frame(log[i].payload)|;
      assert i < |front| ==> front[i] == log[i];
    }
  }

  /**
   What a connection carries, exactly: after any operations, in any interleaving, what was written to a
   connection this side has opened is its rank report and then the frames of the messages sent in full,
   in the order of their writes, if and only if no partial write went to it. A connection that has had
   one stays in use.
   */
  lemma WireExactly(myRank: Rank, listenPort: Port, ops: seq<Op>, sock: int)
    requires sock in Run(Start(myRank, listenPort), ops).net.ours
    ensures var n := Run(Start(myRank, listenPort), ops).net;
            && sock in n.wires
            && ReportFrame(myRank, listenPort) <= n.wires[sock]
            && (n.wires[sock] == ReportFrame(myRank, listenPort) + AllFrames(Wholes(n.log, sock)) <==>
                  !Spoiled(n.log, sock))
            && (Spoiled(n.log, sock) ==>
                  |n.wires[sock]| > |ReportFrame(myRank, listenPort)| + |AllFrames(Wholes(n.log, sock))|)
  {
    hide Run, ReportFrame, Spoiled, AllFrames, Wholes, Frame, CallerOk;
    RunKeeps(myRank, listenPort, ops);
    var n := Run(Start(myRank, listenPort), ops).net;
    LoggedFrames(n.log, sock);
    assert n.wires[sock] == ReportFrame(myRank, listenPort) + Logged(n.log, sock);
    assert n.wires[sock][|ReportFrame(myRank, listenPort)|..] == Logged(n.log, sock);
  }

  /** On a connection accepted from a peer this side sends no rank report; otherwise the same holds. */
  lemma AcceptedWireExactly(myRank: Rank, listenPort: Port, ops: seq<Op>, sock: int)
    requires var n := Run(Start(myRank, listenPort), ops).net; sock in n.wires && sock !in n.ours
    ensures var n := Run(Start(myRank, listenPort), ops).net;
            && (n.wires[sock] == AllFrames(Wholes(n.log, sock)) <==> !Spoiled(n.log, sock))
            && (Spoiled(n.log, sock) ==> |n.wires[sock]| > |AllFrames(Wholes(n.log, sock))|)
  {
    hide Run, Spoiled, AllFrames, Wholes, Frame, CallerOk;
    RunKeeps(myRank, listenPort, ops);
    var n := Run(Start(myRank, listenPort), ops).net;
    LoggedFrames(n.log, sock);
    assert n.wires[sock] == [] + Logged(n.log, sock);
  }

  function AsItems(payloads: seq<Bytes>): seq<Item> {
    seq(|payloads|, i requires 0 <= i < |payloads| => Payload(payloads[i]))
  }

  function AsMessages(payloads: seq<Bytes>): seq<Event> {
    seq(|payloads|, i requires 0 <= i < |payloads| => Message(payloads[i]))
  }

  lemma {:induction false} EncodeOneMore(items: seq<Item>, item: Item)
    requires forall i | i in items + [item] :: Carried(i)
    ensures Encode(items + [item]) == Encode(items) + EncodeItem(item)
  {
    hide EncodeItem;
    if items == [] {
      assert items + [item] == [item] && [item][1..] == [];
      assert Encode([item]) == EncodeItem(item) + Encode([]);
    } else {
      assert (items + [item])[1..] == items[1..] + [item];
      assert forall i | i in items[1..] + [item] :: i in items + [item];
      EncodeOneMore(items[1..], item);
      assert Encode(items + [item]) == EncodeItem(items[0]) + Encode(items[1..] + [item]);
    }
  }

  lemma PayloadItem(p: Bytes)
    requires Carried(Payload(p))
    ensures EncodeItem(Payload(p)) == Frame(p)
  {
  }

  lemma {:induction false} EncodeAll(first: Item, payloads: seq<Bytes>)
    requires Carried(first) && forall p | p in payloads :: Carried(Payload(p))
    ensures forall i | i in [first] + AsItems(payloads) :: Carried(i)
    ensures Encode([first] + AsItems(payloads)) == EncodeItem(first) + AllFrames(payloads)
  {
    hide Frame, ReportFrame, EncodeItem;
    if payloads == [] {
      assert [first] + AsItems(payloads) == [first] && [first][1..] == [];
      assert Encode([first]) == EncodeItem(first) + Encode([]);
    } else {
      var front, p := payloads[..|payloads| - 1], payloads[|payloads| - 1];
      assert forall q | q in front :: q in payloads;
      assert p in payloads;
      EncodeAll(first, front);
      assert [first] + AsItems(payloads) == [first] + AsItems(front) + [Payload(p)];
      hide Encode, AsItems;
      EncodeOneMore([first] + AsItems(front), Payload(p));
      PayloadItem(p);
    }
  }

  lemma ReportIsTwelve(rank: int, port: nat)
    requires port < 0x1_0000
    ensures |ReportFrame(rank, port)| == 12
  {
  }

  lemma {:induction false} SizesAdd(events: seq<Event>, event: Event)
    ensures SizeOfAll(events + [event]) == SizeOfAll(events) + SizeOf(event)
  {
    hide SizeOf;
    if events == [] {
      assert events + [event] == [event] && [event][1..] == [];
    } else {
      assert (events + [event])[1..] == events[1..] + [event];
      SizesAdd(events[1..], event);
    }
  }

  lemma {:induction false} SizeOnWire(first: Event, payloads: seq<Bytes>)
    ensures SizeOfAll([first] + AsMessages(payloads)) == SizeOf(first) + |AllFrames(payloads)|
  {
    if payloads == [] {
      assert [first] + AsMessages(payloads) == [] + [first];
      SizesAdd([], first);
    } else {
      var front, p := payloads[..|payloads| - 1], payloads[|payloads| - 1];
      SizeOnWire(first, front);
      SizesAdd([first] + AsMessages(front), Message(p));
      assert [first] + AsMessages(payloads) == [first] + AsMessages(front) + [Message(p)];
    }
  }

  /** What the peer is meant to get: the rank report, the messages, and then the end of the stream. */
  function Meant(myRank: Rank, listenPort: Port, payloads: seq<Bytes>): (seq<Event>, End) {
    ([RankReport(myRank, Htons(listenPort))] + AsMessages(payloads), Closed)
  }

  /**
   End to end, exactly: after any operations, in any interleaving, on a connection this side has opened,
   the peer's parser hands on the rank report and then exactly the messages sent in full, in order, if
   and only if no partial write has gone to it and the format can carry each of those messages; however
   the peer's reads are cut.
   */
  lemma EndToEnd(myRank: Rank, listenPort: Port, ops: seq<Op>, sock: int, plan: Plan)
    requires sock in Run(Start(myRank, listenPort), ops).net.ours
    requires Positive(plan)
    ensures var n := Run(Start(myRank, listenPort), ops).net;
            && sock in n.wires
            && (Parse(Conn(n.wires[sock], 0), plan) == Meant(myRank, listenPort, Wholes(n.log, sock))
                <==> !Spoiled(n.log, sock) && forall p | p in Wholes(n.log, sock) :: Carried(Payload(p)))
  {
    hide Run, Parse, Spoiled, Wholes, ReportFrame, AllFrames;
    WireExactly(myRank, listenPort, ops, sock);
    var n := Run(Start(myRank, listenPort), ops).net;
    var ps := Wholes(n.log, sock);
    if !Spoiled(n.log, sock) && forall p | p in ps :: Carried(Payload(p)) {
      ArrivesWhole(myRank, listenPort, ps, plan);
    } else if Parse(Conn(n.wires[sock], 0), plan) == Meant(myRank, listenPort, ps) {
      OnlyIfWhole(myRank, listenPort, ps, n.wires[sock], plan);
    }
  }

  lemma ArrivesWhole(myRank: Rank, listenPort: Port, ps: seq<Bytes>, plan: Plan)
    requires Positive(plan) && forall p | p in ps :: Carried(Payload(p))
    ensures Parse(Conn(ReportFrame(myRank, listenPort) + AllFrames(ps), 0), plan) == Meant(myRank, listenPort, ps)
  {
    hide Parse, ReportFrame, AllFrames, Encode, EncodeItem, AsItems, AsMessages, Arrivals, Frame;
    var first := Report(myRank, listenPort);
    EncodeAll(first, ps);
    StreamRoundTrip([first] + AsItems(ps), 0, plan);
    ArrivalsOfAll(myRank, listenPort, ps);
  }

  lemma ArrivalsOfAll(myRank: Rank, listenPort: Port, ps: seq<Bytes>)
    ensures Arrivals([Report(myRank, listenPort)] + AsItems(ps))
            == [RankReport(myRank, Htons(listenPort))] + AsMessages(ps)
    ensures EncodeItem(Report(myRank, listenPort)) == ReportFrame(myRank, listenPort)
  {
    hide ReportFrame;
  }

  /**
   A stream that is parsed into a rank report and these messages is as long as their frames, and the
   messages can be carried.
   */
  lemma OnlyIfWhole(myRank: Rank, listenPort: Port, ps: seq<Bytes>, wire: Bytes, plan: Plan)
    requires Parse(Conn(wire, 0), plan) == Meant(myRank, listenPort, ps)
    ensures |wire| == |ReportFrame(myRank, listenPort)| + |AllFrames(ps)|
    ensures forall p | p in ps :: Carried(Payload(p))
  {
    hide Parse, ReportFrame, AllFrames, SizeOfAll;
    var first := RankReport(myRank, Htons(listenPort));
    var events := [first] + AsMessages(ps);
    AllTaken(Conn(wire, 0), plan);
    assert forall e | e in events :: !e.UnknownKind?;
    SizeOnWire(first, ps);
    ReportIsTwelve(myRank, listenPort);
    forall p | p in ps ensures Carried(Payload(p)) {
      var i :| 0 <= i < |ps| && ps[i] == p;
      assert events[i + 1] == Message(p);
    }
  }

  /** The same on a connection accepted from the peer, where nothing comes before the messages. */
  lemma AcceptedEndToEnd(myRank: Rank, listenPort: Port, ops: seq<Op>, sock: int, plan: Plan)
    requires var n := Run(Start(myRank, listenPort), ops).net; sock in n.wires && sock !in n.ours
    requires Positive(plan)
    ensures var n := Run(Start(myRank, listenPort), ops).net;
            (Parse(Conn(n.wires[sock], 0), plan) == (AsMessages(Wholes(n.log, sock)), Closed))
            <==> !Spoiled(n.log, sock) && forall p | p in Wholes(n.log, sock) :: Carried(Payload(p))
  {
    hide Run, Parse, Spoiled, Wholes, AllFrames, AsMessages;
    AcceptedWireExactly(myRank, listenPort, ops, sock);
    var n := Run(Start(myRank, listenPort), ops).net;
    var ps := Wholes(n.log, sock);
    if !Spoiled(n.log, sock) && forall p | p in ps :: Carried(Payload(p)) {
      MessagesArrive(ps, plan);
    } else if Parse(Conn(n.wires[sock], 0), plan) == (AsMessages(ps), Closed) {
      OnlyIfWholeMessages(ps, n.wires[sock], plan);
    }
  }

  lemma {:induction false} EncodeMessages(ps: seq<Bytes>)
    requires forall p | p in ps :: Carried(Payload(p))
    ensures (forall i | i in AsItems(ps) :: Carried(i)) && Encode(AsItems(ps)) == AllFrames(ps)
  {
    hide Frame, EncodeItem;
    if ps != [] {
      var front, p := ps[..|ps| - 1], ps[|ps| - 1];
      assert forall q | q in front :: q in ps;
      assert p in ps;
      EncodeMessages(front);
      assert AsItems(ps) == AsItems(front) + [Payload(p)];
      hide Encode, AsItems;
      EncodeOneMore(AsItems(front), Payload(p));
      PayloadItem(p);
    }
  }

  lemma MessagesArrive(ps: seq<Bytes>, plan: Plan)
    requires Positive(plan) && forall p | p in ps :: Carried(Payload(p))
    ensures Parse(Conn(AllFrames(ps), 0), plan) == (AsMessages(ps), Closed)
  {
    hide Parse, AllFrames, Encode, EncodeItem, Frame;
    EncodeMessages(ps);
    StreamRoundTrip(AsItems(ps), 0, plan);
    assert Arrivals(AsItems(ps)) == AsMessages(ps);
  }

  lemma OnlyIfWholeMessages(ps: seq<Bytes>, wire: Bytes, plan: Plan)
    requires Parse(Conn(wire, 0), plan) == (AsMessages(ps), Closed)
    ensures |wire| == |AllFrames(ps)| && forall p | p in ps :: Carried(Payload(p))
  {
    hide Parse, AllFrames, SizeOfAll;
    var events := AsMessages(ps);
    AllTaken(Conn(wire, 0), plan);
    assert forall e | e in events :: !e.UnknownKind?;
    MessagesOnWire(ps);
    forall p | p in ps ensures Carried(Payload(p)) {
      var i :| 0 <= i < |ps| && ps[i] == p;
      assert events[i] == Message(p);
    }
  }

  lemma {:induction false} MessagesOnWire(ps: seq<Bytes>)
    ensures SizeOfAll(AsMessages(ps)) == |AllFrames(ps)|
  {
    if ps != [] {
      var front, p := ps[..|ps| - 1], ps[|ps| - 1];
      MessagesOnWire(front);
      assert AsMessages(ps) == AsMessages(front) + [Message(p)];
      SizesAdd(AsMessages(front), Message(p));
    }
  }

  // ----- a run in which a connection is spoiled

  ghost predicate Reachable(myRank: Rank, listenPort: Port, s: State) {
    exists ops :: Run(Start(myRank, listenPort), ops) == s
  }

  lemma Then(myRank: Rank, listenPort: Port, s: State, op: Op) returns (t: State)
    requires Reachable(myRank, listenPort, s)
    ensures t == Do(s, op) && Reachable(myRank, listenPort, t)
  {
    var ops :| Run(Start(myRank, listenPort), ops) == s;
    assert (ops + [op])[..|ops|] == ops;
    t := Run(Start(myRank, listenPort), ops + [op]);
  }

  /** A target is registered, and a first call has got a connection to it. */
  lemma Connected(myRank: Rank, listenPort: Port, payload: Bytes) returns (s: State)
    ensures Reachable(myRank, listenPort, s)
    ensures s.net.targets == map[7 := Target(1, 2, 1)] && s.net.ours == {1} && s.net.nextSock == 2
    ensures s.net.wires == map[1 := ReportFrame(myRank, listenPort)] && s.net.log == [] && s.authors == []
    ensures s.callers == map[0 := Caller(7, payload, 0, Holding(0, 1))]
  {
    ReportIsTwelve(myRank, listenPort);
    assert Run(Start(myRank, listenPort), []) == Start(myRank, listenPort);
    assert Reachable(myRank, listenPort, Start(myRank, listenPort));
    hide Run, Reachable, Frame, ReportFrame;
    s := Then(myRank, listenPort, Start(myRank, listenPort), RegisterTarget(7, 1, 2));
    s := Then(myRank, listenPort, s, Call(0, 7, payload, 0));
    assert s.net.targets == map[7 := Target(1, 2, -1)];
    s := Then(myRank, listenPort, s, Open(0, Luck(true, true, 12, 1)));
  }

  /** One byte of its message is written: the call throws. */
  lemma OneByteWritten(myRank: Rank, listenPort: Port, payload: Bytes) returns (s: State)
    ensures Reachable(myRank, listenPort, s)
    ensures s.net.targets == map[7 := Target(1, 2, 1)] && s.net.ours == {1} && s.net.nextSock == 2
    ensures s.net.wires == map[1 := ReportFrame(myRank, listenPort) + Frame(payload)[..1]]
    ensures s.net.log == [Write(1, payload, 1)] && s.authors == [0]
    ensures s.callers == map[0 := Caller(7, payload, 0, Over(Threw))]
  {
    hide Run, Reachable, Frame, ReportFrame;
    s := Connected(myRank, listenPort, payload);
    s := Then(myRank, listenPort, s, WriteTo(0, 1));
  }

  /**
   A partial write is followed by a whole frame on the same connection: the second call returns
   normally, but what the peer finds after the rank report begins with a fragment of the first frame.
   */
  lemma SpoiledConnection(myRank: Rank, listenPort: Port, first: Bytes, second: Bytes)
    ensures exists s :: Reachable(myRank, listenPort, s) && s.net.ours == {1} && Spoiled(s.net.log, 1)
                        && s.callers == map[0 := Caller(7, first, 0, Over(Threw)),
                              1 := Caller(7, second, 0, Over(Returned))]
                        && s.net.wires == map[1 := ReportFrame(myRank, listenPort) + Frame(first)[..1] + Frame(second)]
  {
    var s := OneByteWritten(myRank, listenPort, first);
    hide Run, Reachable, ReportFrame, Spelled;
    s := Then(myRank, listenPort, s, Call(1, 7, second, 0));
    s := Then(myRank, listenPort, s, Open(1, Luck(true, true, 12, 0)));
    assert s.callers[1] == Caller(7, second, 0, Holding(0, 1));
    s := Then(myRank, listenPort, s, WriteTo(1, |Frame(second)|));
    assert Frame(second)[..|Frame(second)|] == Frame(second);
    assert s.net.log[0] == Write(1, first, 1);
  }
}
