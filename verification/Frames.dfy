/**
 The wire format of src/network/NetworkManager.h and its printer and parser in
 src/network/NetworkManager.cpp, on a little-endian machine, as those files lay it out in memory.

 A connection is the bytes not yet read. How many bytes each read of a payload returns is up to a plan,
 one number per call of read; a number that is not positive is an error or the end of the stream. The
 reads of a header and of a verify code are single calls that return what is there.
 */
module Frames {
  import opened Sequences

  type Byte = x: int | 0 <= x < 256
  type Bytes = seq<Byte>

  const TWO_TO_THE_32: nat := 0x1_0000_0000
  const VERIFY_CODE: nat := 0xDEADFACE
  const BUFFER_SIZE: nat := 4096

  datatype Head = Head(compress: bool, verify: bool, res1: nat, kind: nat, res2: nat, reserved: nat, size: nat)

  /** The fields fit their widths in bits: 6, 3, 5, 16 and 32. */
  predicate HeadOk(h: Head) {
    h.res1 < 64 && h.kind < 8 && h.res2 < 32 && h.reserved < 0x1_0000 && h.size < TWO_TO_THE_32
  }

  function U16(x: nat): (b: Bytes)
    requires x < 0x1_0000
    ensures |b| == 2
  {
    [x % 256, x / 256]
  }

  function FromU16(b: Bytes): nat
    requires |b| == 2
  {
    b[0] as int + 256 * (b[1] as int)
  }

  function U32(x: nat): (b: Bytes)
    requires x < TWO_TO_THE_32
    ensures |b| == 4
  {
    U16(x % 0x1_0000) + U16(x / 0x1_0000)
  }

  function FromU32(b: Bytes): nat
    requires |b| == 4
  {
    FromU16(b[..2]) + 0x1_0000 * FromU16(b[2..])
  }

  function Bit(b: bool): nat { if b then 1 else 0 }

  /** Bit fields are laid out from the low end. */
  function Control(h: Head): nat {
    Bit(h.compress) + 2 * Bit(h.verify) + 4 * h.res1 + 256 * (h.kind + 8 * h.res2)
  }

  function EncodeHead(h: Head): (b: Bytes)
    requires HeadOk(h)
    ensures |b| == 8
  {
    U16(Control(h)) + U16(h.reserved) + U32(h.size)
  }

  function DecodeHead(b: Bytes): Head
    requires |b| == 8
  {
    var c := FromU16(b[..2]);
    Head(c % 2 == 1, c / 2 % 2 == 1, c / 4 % 64, c / 256 % 8, c / 2048, FromU16(b[2..4]), FromU32(b[4..]))
  }

  /** htons on this machine. */
  function Htons(x: nat): nat {
    x % 256 * 256 + x / 256
  }

  /** htonl. */
  function Htonl(x: nat): nat {
    x % 256 * 0x100_0000 + x / 256 % 256 * 0x1_0000 + x / 0x1_0000 % 256 * 256 + x / 0x100_0000
  }

  /** An int as the uint32_t it is converted to, and back. */
  function Unsigned(x: int): nat { x % TWO_TO_THE_32 }

  function Signed(x: nat): int {
    if x < 0x8000_0000 then x else x - TWO_TO_THE_32
  }

  // ----- the printer

  /** sendMessage: the size is cut to 32 bits. */
  function Frame(payload: Bytes): (b: Bytes)
    ensures |b| == |payload| + 12
  {
    EncodeHead(Head(false, false, 0, 0, 0, 0, |payload| % TWO_TO_THE_32)) + payload + U32(VERIFY_CODE)
  }

  /** sendRankReportMessage. */
  function ReportFrame(rank: int, port: nat): Bytes
    requires port < 0x1_0000
  {
    EncodeHead(Head(false, false, 0, 1, 0, Htons(port), Unsigned(rank))) + U32(VERIFY_CODE)
  }

  datatype Item = Payload(bytes: Bytes) | Report(rank: int, port: nat)

  /** What the format can carry. */
  predicate Carried(i: Item) {
    match i
    case Payload(b) => 0 < |b| < TWO_TO_THE_32
    case Report(rank, port) => -0x8000_0000 <= rank < 0x8000_0000 && port < 0x1_0000
  }

  function EncodeItem(i: Item): Bytes
    requires Carried(i)
  {
    match i
    case Payload(b) => Frame(b)
    case Report(rank, port) => ReportFrame(rank, port)
  }

  function Encode(items: seq<Item>): Bytes
    requires forall i | i in items :: Carried(i)
  {
    if items == [] then [] else EncodeItem(items[0]) + Encode(items[1..])
  }

  // ----- the parser

  datatype Conn = Conn(unread: Bytes, turn: nat)

  type Plan = nat -> int

  /** The port stays in network order, as it came. */
  datatype Event = Message(payload: Bytes) | RankReport(rank: int, port: nat) | UnknownKind(kind: nat)

  /**
   Why the parser stops: end of stream; a message that did not come to its end; a failed assertion; a
   verify code that was never read.
   */
  datatype End = Closed | Incomplete | Aborted | Undefined

  datatype One = Stop(end: End) | Go(event: Event, rest: Conn)

  /** How many bytes one read of at most n returns. */
  function Grant(c: Conn, plan: Plan, n: nat): nat {
    if plan(c.turn) <= 0 then 0 else Min(Min(plan(c.turn), n), |c.unread|)
  }

  function Skip(c: Conn, n: nat): Conn
    requires n <= |c.unread|
  {
    Conn(c.unread[n..], c.turn + 1)
  }

  /** What the loop has stored when it ends, and what is left; it has all of it unless it broke off. */
  function ReadPayload(c: Conn, plan: Plan, remain: nat): (r: (Bytes, Conn))
    ensures r.0 + r.1.unread == c.unread && |r.0| <= remain
    decreases remain
  {
    if remain == 0 then ([], c)
    else
      var n := Grant(c, plan, Min(BUFFER_SIZE, remain));
      if n == 0 then ([], c)
      else
        var (more, rest) := ReadPayload(Skip(c, n), plan, remain - n);
        assert c.unread[..n] + more + rest.unread == c.unread[..n] + (more + rest.unread);
        (c.unread[..n] + more, rest)
  }

  /** The verify code, if it is there in full and right. */
  function Verified(c: Conn, event: Event): One {
    if |c.unread| < 4 then Stop(Undefined)
    else if FromU32(c.unread[..4]) != VERIFY_CODE then Stop(Aborted)
    else Go(event, Skip(c, 4))
  }

  function Zeros(n: nat): Bytes { seq(n, _ => 0) }

  /** The header is zeroed first; a short read fills only its front. */
  function ReadHead(c: Conn): Head {
    var n := Min(8, |c.unread|);
    DecodeHead(c.unread[..n] + Zeros(8 - n))
  }

  function ParseBody(c: Conn, plan: Plan, h: Head): One {
    if h.kind == 0 then
      if h.size == 0 then Stop(Aborted)
      else
        var (stored, rest) := ReadPayload(c, plan, h.size);
        if |stored| < h.size then Stop(Incomplete) else Verified(rest, Message(stored))
    else if h.kind == 1 then Verified(c, RankReport(Signed(h.size), h.reserved))
    else Go(UnknownKind(h.kind), c)
  }

  function ParseOne(c: Conn, plan: Plan): (one: One)
    ensures one.Go? ==> |one.rest.unread| < |c.unread|
  {
    if c.unread == [] then Stop(Closed)
    else ParseBody(Skip(c, Min(8, |c.unread|)), plan, ReadHead(c))
  }

  /** Everything handed on before the parser stops, and why it stopped. */
  function Parse(c: Conn, plan: Plan): (seq<Event>, End)
    decreases |c.unread|
  {
    match ParseOne(c, plan)
    case Stop(end) => ([], end)
    case Go(event, rest) =>
      var (events, end) := Parse(rest, plan);
      ([event] + events, end)
  }

  // ----- the header

  lemma NumbersRoundTrip(x: nat)
    ensures x < 0x1_0000 ==> FromU16(U16(x)) == x
    ensures x < TWO_TO_THE_32 ==> FromU32(U32(x)) == x
  {
    if x < TWO_TO_THE_32 {
      assert U32(x)[..2] == U16(x % 0x1_0000) && U32(x)[2..] == U16(x / 0x1_0000);
    }
  }

  lemma ControlFields(a: nat, b: nat, r1: nat, k: nat, r2: nat)
    requires a < 2 && b < 2 && r1 < 64 && k < 8 && r2 < 32
    ensures var c := a + 2 * b + 4 * r1 + 256 * (k + 8 * r2);
            c < 0x1_0000 && c % 2 == a && c / 2 % 2 == b && c / 4 % 64 == r1 && c / 256 % 8 == k && c / 2048 == r2
  {
    var c := a + 2 * b + 4 * r1 + 256 * (k + 8 * r2);
    assert c / 2 == b + 2 * (r1 + 64 * (k + 8 * r2));
    assert c / 4 == r1 + 64 * (k + 8 * r2);
    assert c / 256 == k + 8 * r2;
  }

  /** Every header survives the wire. */
  lemma HeadRoundTrip(h: Head)
    requires HeadOk(h)
    ensures |EncodeHead(h)| == 8 && DecodeHead(EncodeHead(h)) == h
  {
    ControlFields(Bit(h.compress), Bit(h.verify), h.res1, h.kind, h.res2);
    var b := EncodeHead(h);
    assert b[..2] == U16(Control(h)) && b[2..4] == U16(h.reserved) && b[4..] == U32(h.size);
    NumbersRoundTrip(Control(h));
    NumbersRoundTrip(h.reserved);
    NumbersRoundTrip(h.size);
  }

  lemma FieldsControl(c: nat)
    requires c < 0x1_0000
    ensures c % 2 + 2 * (c / 2 % 2) + 4 * (c / 4 % 64) + 256 * (c / 256 % 8 + 8 * (c / 2048)) == c
    ensures c / 2048 < 32
  {
    assert c / 256 == c / 256 % 8 + 8 * (c / 2048);
    assert c / 4 == c / 4 % 64 + 64 * (c / 256);
    assert c / 2 == c / 2 % 2 + 2 * (c / 4);
  }

  lemma BytesRoundTrip(b: Bytes)
    ensures |b| == 2 ==> FromU16(b) < 0x1_0000 && U16(FromU16(b)) == b
    ensures |b| == 4 ==> FromU32(b) < TWO_TO_THE_32 && U32(FromU32(b)) == b
  {
    if |b| == 4 {
      assert U16(FromU16(b[..2])) == b[..2] && U16(FromU16(b[2..])) == b[2..];
    }
  }

  /** And every eight bytes are the header of exactly one: the layout leaves no bit unused. */
  lemma HeadIsOnto(b: Bytes)
    requires |b| == 8
    ensures HeadOk(DecodeHead(b)) && EncodeHead(DecodeHead(b)) == b
  {
    BytesRoundTrip(b[..2]);
    BytesRoundTrip(b[2..4]);
    BytesRoundTrip(b[4..]);
    var c := FromU16(b[..2]);
    hide FromU16, FromU32, U16, U32;
    FieldsControl(c);
    assert Control(DecodeHead(b)) == c;
    assert b == b[..2] + b[2..4] + b[4..];
  }

  // ----- short reads

  ghost predicate Positive(plan: Plan) {
    forall k: nat :: plan(k) > 0
  }

  /** However the payload is cut into reads, the loop stores the first remain bytes, or all there are. */
  lemma {:induction false} AnySplit(c: Conn, plan: Plan, remain: nat)
    requires Positive(plan)
    ensures var n := Min(remain, |c.unread|);
            ReadPayload(c, plan, remain).0 == c.unread[..n] && ReadPayload(c, plan, remain).1.unread == c.unread[n..]
    decreases remain
  {
    if remain > 0 && c.unread != [] {
      var n := Grant(c, plan, Min(BUFFER_SIZE, remain));
      AnySplit(Skip(c, n), plan, remain - n);
    }
  }

  lemma VerifyCodeReadBack(tail: Bytes, turn: nat, event: Event)
    ensures Verified(Conn(U32(VERIFY_CODE) + tail, turn), event) == Go(event, Conn(tail, turn + 1))
  {
    NumbersRoundTrip(VERIFY_CODE);
    assert (U32(VERIFY_CODE) + tail)[..4] == U32(VERIFY_CODE);
    assert (U32(VERIFY_CODE) + tail)[4..] == tail;
  }

  lemma HeadReadBack(h: Head, tail: Bytes, turn: nat)
    requires HeadOk(h)
    ensures var c := Conn(EncodeHead(h) + tail, turn);
            ReadHead(c) == h && Min(8, |c.unread|) == 8 && Skip(c, 8) == Conn(tail, turn + 1)
  {
    HeadRoundTrip(h);
    var b := EncodeHead(h) + tail;
    assert b[..8] + Zeros(0) == EncodeHead(h) && b[8..] == tail;
  }

  lemma MessageReadBack(payload: Bytes, tail: Bytes, turn: nat, plan: Plan)
    requires Carried(Payload(payload)) && Positive(plan)
    ensures var one := ParseOne(Conn(Frame(payload) + tail, turn), plan);
            one.Go? && one.event == Message(payload) && one.rest.unread == tail
  {
    hide EncodeHead, DecodeHead, ReadHead, U32, Verified, ReadPayload;
    var h := Head(false, false, 0, 0, 0, 0, |payload|);
    var rest := payload + (U32(VERIFY_CODE) + tail);
    assert Frame(payload) + tail == EncodeHead(h) + rest;
    HeadReadBack(h, rest, turn);
    AnySplit(Conn(rest, turn + 1), plan, |payload|);
    assert rest[..|payload|] == payload && rest[|payload|..] == U32(VERIFY_CODE) + tail;
    VerifyCodeReadBack(tail, ReadPayload(Conn(rest, turn + 1), plan, |payload|).1.turn, Message(payload));
  }

  lemma SignedBack(x: int)
    requires -0x8000_0000 <= x < 0x8000_0000
    ensures Unsigned(x) < TWO_TO_THE_32 && Signed(Unsigned(x)) == x
  {
  }

  lemma ReportReadBack(rank: int, port: nat, tail: Bytes, turn: nat, plan: Plan)
    requires Carried(Report(rank, port))
    ensures var one := ParseOne(Conn(ReportFrame(rank, port) + tail, turn), plan);
            one.Go? && one.event == RankReport(rank, Htons(port)) && one.rest.unread == tail
  {
    hide EncodeHead, DecodeHead, ReadHead, U32, Verified;
    var h := Head(false, false, 0, 1, 0, Htons(port), Unsigned(rank));
    assert ReportFrame(rank, port) + tail == EncodeHead(h) + (U32(VERIFY_CODE) + tail);
    HeadReadBack(h, U32(VERIFY_CODE) + tail, turn);
    VerifyCodeReadBack(tail, turn + 1, RankReport(rank, Htons(port)));
    SignedBack(rank);
  }

  function Arrival(i: Item): Event {
    match i
    case Payload(b) => Message(b)
    case Report(rank, port) => RankReport(rank, Htons(port))
  }

  function Arrivals(items: seq<Item>): seq<Event> {
    seq(|items|, k requires 0 <= k < |items| => Arrival(items[k]))
  }

  lemma ItemReadBack(i: Item, tail: Bytes, turn: nat, plan: Plan)
    requires Carried(i) && Positive(plan)
    ensures var one := ParseOne(Conn(EncodeItem(i) + tail, turn), plan);
            one.Go? && one.event == Arrival(i) && one.rest.unread == tail
  {
    hide ParseOne, Frame, ReportFrame;
    match i {
      case Payload(b) => MessageReadBack(b, tail, turn, plan);
      case Report(rank, port) => ReportReadBack(rank, port, tail, turn, plan);
    }
  }

  /**
   The stream round trip: any list of messages and rank reports that the format can carry, printed one
   after the other, is parsed into exactly these messages and reports, in order, however the reads of
   the payloads are cut; and the parser then stops at the end of the stream.
   */
  lemma StreamRoundTrip(items: seq<Item>, turn: nat, plan: Plan)
    requires (forall i | i in items :: Carried(i)) && Positive(plan)
    ensures Parse(Conn(Encode(items), turn), plan) == (Arrivals(items), Closed)
  {
    var t := PrefixParsed(items, [], turn, plan);
    assert Encode(items) + [] == Encode(items);
    assert Arrivals(items) + [] == Arrivals(items);
  }

  /** Network order is its own inverse, and puts the high byte of the port first on the wire. */
  lemma PortOrder(port: nat)
    requires port < 0x1_0000
    ensures Htons(port) < 0x1_0000 && Htons(Htons(port)) == port && U16(Htons(port)) == [port / 256, port % 256]
  {
  }

  /**
   A message of any length arrives as it was sent, before whatever follows it, exactly when it is not
   empty and shorter than 2^32 bytes.
   */
  lemma MessageArrivesExactly(payload: Bytes, tail: Bytes, turn: nat, plan: Plan)
    requires Positive(plan)
    ensures var one := ParseOne(Conn(Frame(payload) + tail, turn), plan);
            (one.Go? && one.event == Message(payload) && one.rest.unread == tail) <==> 0 < |payload| < TWO_TO_THE_32
  {
    hide EncodeHead, DecodeHead, ReadHead, U32, Verified;
    if 0 < |payload| < TWO_TO_THE_32 {
      hide ParseOne;
      MessageReadBack(payload, tail, turn, plan);
    } else {
      var h := Head(false, false, 0, 0, 0, 0, |payload| % TWO_TO_THE_32);
      var rest := payload + U32(VERIFY_CODE) + tail;
      assert Frame(payload) + tail == EncodeHead(h) + rest;
      HeadReadBack(h, rest, turn);
      var (stored, left) := ReadPayload(Conn(rest, turn + 1), plan, h.size);
      assert |stored| < |payload| || h.size == 0;
      EventOfVerified(left, Message(stored));
    }
  }

  lemma EventOfVerified(c: Conn, event: Event)
    ensures Verified(c, event).Go? ==> Verified(c, event).event == event
  {
  }

  /** A stream cut inside a payload hands on what came before, and never the message that was cut. */
  lemma CutInsidePayload(items: seq<Item>, payload: Bytes, n: nat, turn: nat, plan: Plan)
    requires (forall i | i in items :: Carried(i)) && Carried(Payload(payload)) && Positive(plan)
    requires n < |payload|
    ensures Parse(Conn(Encode(items) + Frame(payload)[..8 + n], turn), plan) == (Arrivals(items), Incomplete)
  {
    var t := PrefixParsed(items, Frame(payload)[..8 + n], turn, plan);
    CutAlone(payload, n, t, plan);
    assert Arrivals(items) + [] == Arrivals(items);
  }

  lemma CutAlone(payload: Bytes, n: nat, turn: nat, plan: Plan)
    requires Carried(Payload(payload)) && Positive(plan) && n < |payload|
    ensures Parse(Conn(Frame(payload)[..8 + n], turn), plan) == ([], Incomplete)
  {
    hide EncodeHead, DecodeHead, ReadHead, U32, Verified, ReadPayload;
    var h := Head(false, false, 0, 0, 0, 0, |payload|);
    HeadRoundTrip(h);
    assert Frame(payload)[..8 + n] == EncodeHead(h) + payload[..n];
    HeadReadBack(h, payload[..n], turn);
    AnySplit(Conn(payload[..n], turn + 1), plan, |payload|);
  }

  /** The items of a stream are parsed one after the other, whatever comes after them. */
  lemma {:induction false} PrefixParsed(items: seq<Item>, tail: Bytes, turn: nat, plan: Plan) returns (t: nat)
    requires (forall i | i in items :: Carried(i)) && Positive(plan)
    ensures Parse(Conn(Encode(items) + tail, turn), plan)
            == (Arrivals(items) + Parse(Conn(tail, t), plan).0, Parse(Conn(tail, t), plan).1)
  {
    hide ParseOne, EncodeItem;
    if items == [] {
      t := turn;
      assert Encode(items) + tail == tail;
      assert Arrivals(items) + Parse(Conn(tail, t), plan).0 == Parse(Conn(tail, t), plan).0;
    } else {
      var i, later := items[0], items[1..];
      assert Encode(items) + tail == EncodeItem(i) + (Encode(later) + tail);
      ItemReadBack(i, Encode(later) + tail, turn, plan);
      var one := ParseOne(Conn(EncodeItem(i) + (Encode(later) + tail), turn), plan);
      t := PrefixParsed(later, tail, one.rest.turn, plan);
      var rest := Parse(Conn(tail, t), plan).0;
      assert one.rest == Conn(Encode(later) + tail, one.rest.turn);
      assert Arrivals(items) + rest == [Arrival(i)] + (Arrivals(later) + rest);
    }
  }

  // ----- what the parser takes

  /** The length of what a message or a rank report is parsed from. */
  function SizeOf(event: Event): nat {
    match event
    case Message(payload) => |payload| + 12
    case RankReport(_, _) => 12
    case UnknownKind(_) => 8
  }

  function SizeOfAll(events: seq<Event>): nat {
    if events == [] then 0 else SizeOf(events[0]) + SizeOfAll(events[1..])
  }

  lemma OneTaken(c: Conn, plan: Plan)
    ensures var one := ParseOne(c, plan);
            one.Go? && !one.event.UnknownKind? ==> |c.unread| == SizeOf(one.event) + |one.rest.unread|
    ensures var one := ParseOne(c, plan);
            one.Go? && one.event.Message? ==> 0 < |one.event.payload| < TWO_TO_THE_32
  {
    var n := Min(8, |c.unread|);
    HeadIsOnto(c.unread[..n] + Zeros(8 - n));
    hide DecodeHead, FromU32, ReadPayload, Grant;
    if c.unread != [] {
      var h := ReadHead(c);
      var (stored, rest) := ReadPayload(Skip(c, n), plan, h.size);
      assert |stored| + |rest.unread| == |c.unread| - n;
    }
  }

  /**
   A stream parsed to its end into messages and rank reports is exactly as long as they are; and no
   message is empty or too long.
   */
  lemma {:induction false} AllTaken(c: Conn, plan: Plan)
    ensures var (events, end) := Parse(c, plan);
            && (end == Closed && (forall e | e in events :: !e.UnknownKind?) ==> |c.unread| == SizeOfAll(events))
            && (forall e | e in events && e.Message? :: 0 < |e.payload| < TWO_TO_THE_32)
    decreases |c.unread|
  {
    OneTaken(c, plan);
    var one := ParseOne(c, plan);
    if one.Stop? {
      StopsClosed(c, plan);
    } else {
      hide ParseOne;
      AllTaken(one.rest, plan);
      var later := Parse(one.rest, plan).0;
      assert ([one.event] + later)[1..] == later;
      assert forall e | e in later :: e in [one.event] + later;
    }
  }

  lemma StopsClosed(c: Conn, plan: Plan)
    ensures ParseOne(c, plan) == Stop(Closed) ==> c.unread == []
  {
  }

  // ----- the format, byte by byte

  /** Four bytes, low end first. */
  function Little(x: nat): Bytes
    requires x < TWO_TO_THE_32
  {
    [x % 256, x / 256 % 256, x / 0x1_0000 % 256, x / 0x100_0000]
  }

  lemma Digits(a: nat, b: nat, c: nat, d: nat)
    requires a < 256 && b < 256 && c < 256
    ensures var x := a + 256 * (b + 256 * (c + 256 * d));
            x % 256 == a && x / 256 % 256 == b && x / 0x1_0000 % 256 == c && x / 0x100_0000 == d
  {
    var x := a + 256 * (b + 256 * (c + 256 * d));
    assert x / 256 == b + 256 * (c + 256 * d);
    assert x / 0x1_0000 == c + 256 * d;
    assert x / 0x100_0000 == d;
  }

  lemma U32IsLittle(x: nat)
    requires x < TWO_TO_THE_32
    ensures U32(x) == Little(x)
  {
    var lo, hi := x % 0x1_0000, x / 0x1_0000;
    Digits(lo % 256, lo / 256, hi % 256, hi / 256);
    assert x == lo % 256 + 256 * (lo / 256 + 256 * (hi % 256 + 256 * (hi / 256)));
  }

  /** Every byte of a message: no flags, the type 0, the size, the payload, and the code 0xDEADFACE. */
  lemma FrameBytes(payload: Bytes)
    ensures var n := |payload| % TWO_TO_THE_32;
            Frame(payload)
            == [0, 0, 0, 0]
             + [n % 256, n / 256 % 256, n / 0x1_0000 % 256, n / 0x100_0000]
             + payload + [0xCE, 0xFA, 0xAD, 0xDE]
  {
    U32IsLittle(|payload| % TWO_TO_THE_32);
    U32IsLittle(VERIFY_CODE);
    assert U32(VERIFY_CODE) == [0xCE, 0xFA, 0xAD, 0xDE];
    hide U32;
  }

  /** Every byte of a rank report: the type 1, the port in network order, the rank in two's complement, and the code. */
  lemma ReportBytes(rank: int, port: nat)
    requires -0x8000_0000 <= rank < 0x8000_0000 && port < 0x1_0000
    ensures var u := if rank < 0 then rank + 0x1_0000_0000 else rank;
            ReportFrame(rank, port)
            == [0, 1, port / 256, port % 256]
             + [u % 256, u / 256 % 256, u / 0x1_0000 % 256, u / 0x100_0000]
             + [0xCE, 0xFA, 0xAD, 0xDE]
  {
    var u := Unsigned(rank);
    assert u == if rank < 0 then rank + 0x1_0000_0000 else rank;
    PortOrder(port);
    U32IsLittle(u);
    U32IsLittle(VERIFY_CODE);
    assert U32(VERIFY_CODE) == [0xCE, 0xFA, 0xAD, 0xDE];
    hide U32, Htons, Unsigned;
    assert U16(256) == [0, 1];
  }

  lemma CodeIsVerify(b: Bytes)
    requires |b| == 4
    ensures FromU32(b) == VERIFY_CODE <==> b == [0xCE, 0xFA, 0xAD, 0xDE]
  {
    U32IsLittle(VERIFY_CODE);
    assert U32(VERIFY_CODE) == [0xCE, 0xFA, 0xAD, 0xDE];
    BytesRoundTrip(b);
    NumbersRoundTrip(VERIFY_CODE);
  }

  lemma FieldsOfHead(b: Bytes)
    requires |b| == 8
    ensures var h := DecodeHead(b);
            && h.kind == b[1] % 8
            && h.reserved == b[2] as int + 256 * b[3] as int
            && h.size == b[4] as int + 256 * b[5] as int + 0x1_0000 * b[6] as int + 0x100_0000 * b[7] as int
  {
    var c := FromU16(b[..2]);
    assert c / 256 == b[1];
  }

  /**
   The parser, byte by byte: what it makes of a stream that holds at least a header. The type is the low
   three bits of the second byte. A message is handed on exactly when it has a size, its payload is there
   in full, and the four bytes after it are the code; a rank report exactly when the code follows.
   */
  lemma ParsesExactly(c: Conn, plan: Plan)
    requires |c.unread| >= 8 && Positive(plan)
    ensures var b, one := c.unread, ParseOne(c, plan);
            var kind := b[1] % 8;
            var size := b[4] as int + 256 * b[5] as int + 0x1_0000 * b[6] as int + 0x100_0000 * b[7] as int;
            var body := b[8..];
            && (kind == 0 && size == 0 ==> one == Stop(Aborted))
            && (kind == 0 && |body| < size ==> one == Stop(Incomplete))
            && (kind == 0 && 0 < size <= |body| ==>
                  var after := body[size..];
                  && (|after| < 4 ==> one == Stop(Undefined))
                  && (|after| >= 4 && after[..4] != [0xCE, 0xFA, 0xAD, 0xDE] ==> one == Stop(Aborted))
                  && (|after| >= 4 && after[..4] == [0xCE, 0xFA, 0xAD, 0xDE] ==>
                        one.Go? && one.event == Message(body[..size]) && one.rest.unread == after[4..]))
            && (kind == 1 ==>
                  && (|body| < 4 ==> one == Stop(Undefined))
                  && (|body| >= 4 && body[..4] != [0xCE, 0xFA, 0xAD, 0xDE] ==> one == Stop(Aborted))
                  && (|body| >= 4 && body[..4] == [0xCE, 0xFA, 0xAD, 0xDE] ==>
                        && one.Go? && one.rest.unread == body[4..]
                        && one.event == RankReport(if size < 0x8000_0000 then size else size - 0x1_0000_0000,
                                                   b[2] as int + 256 * b[3] as int)))
            && (kind > 1 ==> one.Go? && one.event == UnknownKind(kind) && one.rest.unread == body)
  {
    var b, body := c.unread, c.unread[8..];
    assert b[..8] + Zeros(0) == b[..8];
    FieldsOfHead(b[..8]);
    var h := ReadHead(c);
    var after := Skip(c, 8);
    AnySplit(after, plan, h.size);
    if |body| >= 4 {
      CodeIsVerify(body[..4]);
    }
    if |body| >= h.size + 4 {
      CodeIsVerify(body[h.size..][..4]);
    }
    hide ReadHead, DecodeHead, FromU32, ReadPayload, Grant;
  }

  lemma ZeroSize(b: Bytes)
    requires |b| == 8
    ensures DecodeHead(b).size == 0 <==> b[4] == 0 && b[5] == 0 && b[6] == 0 && b[7] == 0
  {
    FieldsOfHead(b);
  }

  /** And of a stream that ends inside a header: the part that is there is taken for the whole, with zeros after it. */
  lemma ParsesShort(c: Conn, plan: Plan)
    requires 0 < |c.unread| < 8
    ensures var b, one := c.unread, ParseOne(c, plan);
            var kind := if |b| > 1 then b[1] % 8 else 0;
            var noSize := forall i | 4 <= i < |b| :: b[i] == 0;
            && (kind == 0 ==> one == Stop(if noSize then Aborted else Incomplete))
            && (kind == 1 ==> one == Stop(Undefined))
            && (kind > 1 ==> one.Go? && one.event == UnknownKind(kind) && one.rest.unread == [])
  {
    var b := c.unread;
    var padded := b + Zeros(8 - |b|);
    assert b[..|b|] == b;
    FieldsOfHead(padded);
    ZeroSize(padded);
    assert (forall i | 4 <= i < |b| :: b[i] == 0) <==>
      padded[4] == 0 && padded[5] == 0 && padded[6] == 0 && padded[7] == 0;
    var h := ReadHead(c);
    assert h == DecodeHead(padded);
    var rest := Skip(c, |b|);
    assert rest.unread == [];
    assert h.size > 0 ==> |ReadPayload(rest, plan, h.size).0| == 0;
    hide ReadHead, DecodeHead, FromU32, ReadPayload, Grant;
  }
}
