/**
 The receiving half of src/network/NetworkManager.cpp with the byte array of src/basic/Bytes.cpp, as
 objects and loops, proved to do what the parser of Frames says.
 */
module Receiver {
  import opened Sequences
  import opened Frames

  /** One end of a connection. */
  class Socket {
    const plan: Plan
    var unread: Bytes
    var turn: nat
    var open: bool

    ghost function Here(): Conn
      reads this
    {
      Conn(unread, turn)
    }

    constructor (plan: Plan, incoming: Bytes)
      ensures this.plan == plan && Here() == Conn(incoming, 0) && open
    {
      this.plan, unread, turn, open := plan, incoming, 0, true;
    }

    /** A read of at most n bytes; 0 stands for every result that is not positive. */
    method Read(buffer: array<Byte>, n: nat) returns (count: nat)
      requires n <= buffer.Length
      modifies this`unread, this`turn, buffer
      ensures count == Grant(old(Here()), plan, n) && count <= n && count <= |old(unread)|
      ensures Here() == Skip(old(Here()), count)
      ensures buffer[..count] == old(unread)[..count]
    {
      count := if plan(turn) <= 0 then 0 else Min(Min(plan(turn), n), |unread|);
      forall i | 0 <= i < count {
        buffer[i] := unread[i];
      }
      unread, turn := unread[count..], turn + 1;
    }

    /** A read that returns what there is, up to n. */
    method ReadAvailable(n: nat) returns (bytes: Bytes)
      modifies this`unread, this`turn
      ensures bytes == old(unread)[..Min(n, |old(unread)|)]
      ensures Here() == Skip(old(Here()), |bytes|)
    {
      bytes := unread[..Min(n, |unread|)];
      unread, turn := unread[|bytes|..], turn + 1;
    }

    method Close()
      modifies this`open
      ensures !open
    {
      open := false;
    }
  }

  /** The class Bytes: an owned array that set copies into. */
  class ByteArray {
    const data: array<Byte>

    /** An assertion demands that there be at least one byte. */
    constructor (size: nat)
      requires size > 0
      ensures fresh(data) && data.Length == size
    {
      data := new Byte[size];
    }

    /** Throws when the bytes do not fit, and then changes nothing. */
    method Set(size: nat, source: array<Byte>, start: nat) returns (threw: bool)
      requires size <= source.Length && source != data
      modifies data
      ensures threw <==> start + size > data.Length
      ensures threw ==> data[..] == old(data[..])
      ensures !threw ==> data[..] == old(data[..])[..start] + source[..size] + old(data[..])[start + size..]
    {
      threw := start + size > data.Length;
      if !threw {
        forall i | 0 <= i < size {
          data[start + i] := source[i];
        }
      }
    }
  }

  /** A step of the payload loop: what has been stored, and what the rest of the loop will add to it. */
  lemma OneMoreRead(c: Conn, plan: Plan, remain: nat, n: nat)
    requires remain > 0 && n == Grant(c, plan, Min(BUFFER_SIZE, remain)) && n > 0
    ensures n <= remain && n <= |c.unread|
    ensures ReadPayload(c, plan, remain).0 == c.unread[..n] + ReadPayload(Skip(c, n), plan, remain - n).0
    ensures ReadPayload(c, plan, remain).1 == ReadPayload(Skip(c, n), plan, remain - n).1
  {
  }

  lemma NoMoreRead(c: Conn, plan: Plan, remain: nat)
    requires remain == 0 || Grant(c, plan, Min(BUFFER_SIZE, remain)) == 0
    ensures ReadPayload(c, plan, remain) == ([], c)
  {
  }

  /**
   The payload loop of readNormalMessage: the range check of the array never throws, the loop ends, and
   what it has stored is what it has consumed. If it breaks off the connection is closed.
   */
  method FillPayload(socket: Socket, data: ByteArray) returns (stored: nat)
    requires socket.open && 0 < data.data.Length < TWO_TO_THE_32
    modifies socket, data.data
    ensures stored <= data.data.Length
    ensures data.data[..stored] == ReadPayload(old(socket.Here()), socket.plan, data.data.Length).0
    ensures stored == data.data.Length ==>
              socket.open && socket.Here() == ReadPayload(old(socket.Here()), socket.plan, data.data.Length).1
    ensures stored < data.data.Length ==> !socket.open
  {
    hide ReadPayload, Grant;
    ghost var plan := socket.plan;
    ghost var whole := ReadPayload(socket.Here(), plan, data.data.Length);
    var buffer := new Byte[BUFFER_SIZE];
    var remain: nat := data.data.Length;
    stored := 0;
    while remain > 0
      invariant stored <= data.data.Length && stored + remain == data.data.Length && socket.open
      invariant whole.0 == data.data[..stored] + ReadPayload(socket.Here(), plan, remain).0
      invariant whole.1 == ReadPayload(socket.Here(), plan, remain).1
      decreases remain
    {
      ghost var here := socket.Here();
      ghost var before := data.data[..stored];
      var count := socket.Read(buffer, Min(BUFFER_SIZE, remain));
      if count == 0 {
        NoMoreRead(here, plan, remain);
        socket.Close();
        return;
      }
      OneMoreRead(here, plan, remain, count);
      var threw := data.Set(count, buffer, stored);
      assert !threw;
      stored, remain := stored + count, remain - count;
      assert data.data[..stored] == before + here.unread[..count];
    }
    NoMoreRead(socket.Here(), plan, 0);
  }

  method ReadNormalMessage(socket: Socket, head: Head) returns (one: One)
    requires socket.open && head.kind == 0 && head.size < TWO_TO_THE_32
    modifies socket
    ensures one == ParseBody(old(socket.Here()), socket.plan, head)
    ensures one.Go? ==> socket.Here() == one.rest && socket.open
    ensures one == Stop(Incomplete) ==> !socket.open
    ensures one != Stop(Closed)
  {
    hide ReadPayload;
    if head.size == 0 {
      return Stop(Aborted);
    }
    ghost var here := socket.Here();
    var data := new ByteArray(head.size);
    var stored := FillPayload(socket, data);
    if stored < head.size {
      return Stop(Incomplete);
    }
    assert data.data[..stored] == data.data[..];
    one := ReadVerify(socket, Message(data.data[..]));
  }

  /** readVerify, and the assertion on its result. */
  method ReadVerify(socket: Socket, event: Event) returns (one: One)
    requires socket.open
    modifies socket
    ensures one == Verified(old(socket.Here()), event)
    ensures one.Stop? ==> one.end in {Undefined, Aborted}
    ensures one.Go? ==> socket.Here() == one.rest && socket.open
  {
    var code := socket.ReadAvailable(4);
    if |code| < 4 {
      if code == [] {
        socket.Close();
      }
      return Stop(Undefined);
    }
    if FromU32(code) != VERIFY_CODE {
      return Stop(Aborted);
    }
    one := Go(event, Conn(socket.unread, socket.turn));
  }

  method ReadRankReportMessage(socket: Socket, head: Head) returns (one: One)
    requires socket.open && head.kind == 1
    modifies socket
    ensures one == ParseBody(old(socket.Here()), socket.plan, head)
    ensures one.Stop? ==> one.end in {Undefined, Aborted}
    ensures one.Go? ==> socket.Here() == one.rest && socket.open
  {
    one := ReadVerify(socket, RankReport(Signed(head.size), head.reserved));
  }

  method ReadHeader(socket: Socket) returns (head: Head)
    requires socket.unread != []
    modifies socket`unread, socket`turn
    ensures head == ReadHead(old(socket.Here())) && HeadOk(head)
    ensures socket.Here() == Skip(old(socket.Here()), Min(8, |old(socket.unread)|))
  {
    var bytes := socket.ReadAvailable(8);
    var zeroed := bytes + Zeros(8 - |bytes|);
    HeadIsOnto(zeroed);
    head := DecodeHead(zeroed);
  }

  /** What run does with one connection for as long as it is open: the events handed on, and how it ended. */
  method Serve(socket: Socket) returns (events: seq<Event>, end: End)
    requires socket.open
    modifies socket
    ensures (events, end) == Parse(old(socket.Here()), socket.plan)
    ensures end.Closed? || end.Incomplete? ==> !socket.open
  {
    hide ReadHead, ReadPayload, Verified;
    events := [];
    ghost var plan := socket.plan;
    ghost var whole := Parse(socket.Here(), plan);
    while socket.unread != []
      invariant socket.open
      invariant whole.0 == events + Parse(socket.Here(), plan).0
      invariant whole.1 == Parse(socket.Here(), plan).1
      decreases |socket.unread|
    {
      ghost var here := socket.Here();
      var head := ReadHeader(socket);
      var one := Go(UnknownKind(head.kind), Conn(socket.unread, socket.turn));
      if head.kind == 0 {
        one := ReadNormalMessage(socket, head);
      } else if head.kind == 1 {
        one := ReadRankReportMessage(socket, head);
      }
      assert one == ParseOne(here, plan);
      if one.Stop? {
        assert events + [] == events;
        return events, one.end;
      }
      events := events + [one.event];
    }
    assert events + [] == events;
    socket.Close();
    end := Closed;
  }
}
