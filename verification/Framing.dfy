/** Packet framing and stream reassembly. A packet is a little-endian 16-bit total length, a
    16-bit type and a payload. */
module Framing {
  import opened Prelude

  type Byte = b: int | 0 <= b < 256
  type Bytes = seq<Byte>
  type UInt16 = n: int | 0 <= n < 0x1_0000

  const HEADER_SIZE := 4
  const BUFFER_SIZE := 1024

  datatype Packet = Packet(kind: UInt16, payload: Bytes)

  function Low(n: UInt16): Byte { n % 256 }

  function High(n: UInt16): Byte { n / 256 }

  function Word(low: Byte, high: Byte): UInt16 { low + 256 * high }

  function LengthOf(buf: Bytes): UInt16
    requires |buf| >= HEADER_SIZE
  {
    Word(buf[0], buf[1])
  }

  datatype ParseResult = NeedMoreData | InvalidPacket | Complete(packet: Packet, rest: Bytes)

  function Parse(buf: Bytes): (r: ParseResult)
    ensures r.Complete? ==> |r.rest| < |buf| && |r.packet.payload| <= BUFFER_SIZE - HEADER_SIZE
    ensures r.NeedMoreData? ==> |buf| < BUFFER_SIZE
  {
    if |buf| < HEADER_SIZE then NeedMoreData
    else
      var len := LengthOf(buf);
      if len < HEADER_SIZE then InvalidPacket
      else if len > BUFFER_SIZE then InvalidPacket
      else if |buf| < len then NeedMoreData
      else Complete(Packet(Word(buf[2], buf[3]), buf[HEADER_SIZE..len]), buf[len..])
  }

  /** The OnBytes loop: parse until more data is needed or the stream is found invalid. */
  datatype Drained = Drained(packets: seq<Packet>, rest: Bytes, valid: bool)

  function Drain(buf: Bytes): (r: Drained)
    ensures r.valid ==> |r.rest| < BUFFER_SIZE && Parse(r.rest).NeedMoreData?
    decreases |buf|
  {
    match Parse(buf)
    case NeedMoreData => Drained([], buf, true)
    case InvalidPacket => Drained([], buf, false)
    case Complete(packet, rest) =>
      var more := Drain(rest);
      Drained([packet] + more.packets, more.rest, more.valid)
  }

  /** A session's receiving side; once invalid the server closes it and reads no more. */
  datatype Receiver = Receiver(buffer: Bytes, dispatched: seq<Packet>, alive: bool)

  function OnBytes(r: Receiver, data: Bytes): Receiver {
    if !r.alive then r
    else
      var d := Drain(r.buffer + data);
      Receiver(d.rest, r.dispatched + d.packets, d.valid)
  }

  function Feed(r: Receiver, chunks: seq<Bytes>): Receiver
    decreases |chunks|
  {
    if chunks == [] then r else Feed(OnBytes(r, chunks[0]), chunks[1..])
  }

  function Concat(chunks: seq<Bytes>): Bytes {
    if chunks == [] then [] else chunks[0] + Concat(chunks[1..])
  }

  // ------------------------------------------------------------------ chunking invariance

  /** A verdict other than NeedMoreData does not change when more bytes arrive. */
  lemma ParseStable(a: Bytes, b: Bytes)
    ensures Parse(a).InvalidPacket? ==> Parse(a + b).InvalidPacket?
    ensures Parse(a).Complete? ==> Parse(a + b) == Complete(Parse(a).packet, Parse(a).rest + b)
  {
    if |a| >= HEADER_SIZE {
      assert LengthOf(a + b) == LengthOf(a);
      var len := LengthOf(a);
      if HEADER_SIZE <= len <= |a| {
        assert (a + b)[HEADER_SIZE..len] == a[HEADER_SIZE..len];
        assert (a + b)[len..] == a[len..] + b;
      }
    }
  }

  lemma {:induction false} DrainSplit(a: Bytes, b: Bytes)
    ensures var d := Drain(a);
      if d.valid then
        var e := Drain(d.rest + b);
        Drain(a + b) == Drained(d.packets + e.packets, e.rest, e.valid)
      else
        Drain(a + b).packets == d.packets && !Drain(a + b).valid
    decreases |a|
  {
    ParseStable(a, b);
    hide Parse;
    if Parse(a).Complete? {
      var p, rest := Parse(a).packet, Parse(a).rest;
      DrainSplit(rest, b);
      var d := Drain(rest);
      if d.valid {
        var e := Drain(d.rest + b);
        Regroup([p], d.packets, e.packets);
      }
    }
  }

  /** However a byte stream is cut into chunks, the same packets are dispatched with the same
      verdict as if it had come at once; while valid, the same bytes are left over, fewer than
      1024 of them. */
  lemma {:induction false} ChunkingInvariant(r: Receiver, chunks: seq<Bytes>)
    requires r.alive && Parse(r.buffer).NeedMoreData?
    ensures var whole := Drain(r.buffer + Concat(chunks)); var out := Feed(r, chunks);
      && out.dispatched == r.dispatched + whole.packets
      && out.alive == whole.valid
      && (out.alive ==> out.buffer == whole.rest && |out.buffer| < BUFFER_SIZE)
    decreases |chunks|
  {
    if chunks == [] {
      assert r.buffer + Concat(chunks) == r.buffer;
    } else {
      var r1 := OnBytes(r, chunks[0]);
      FirstChunk(r, chunks);
      if r1.alive {
        ChunkingInvariant(r1, chunks[1..]);
      } else {
        DeadStaysDead(r1, chunks[1..]);
      }
    }
  }

  /** The whole stream is drained by draining the first chunk and then what it leaves. */
  lemma FirstChunk(r: Receiver, chunks: seq<Bytes>)
    requires r.alive && chunks != []
    ensures var r1 := OnBytes(r, chunks[0]); var whole := Drain(r.buffer + Concat(chunks));
      if r1.alive then
        var later := Drain(r1.buffer + Concat(chunks[1..]));
        && r.dispatched + whole.packets == r1.dispatched + later.packets
        && whole.valid == later.valid && whole.rest == later.rest
      else
        r.dispatched + whole.packets == r1.dispatched && !whole.valid
  {
    var now, later := r.buffer + chunks[0], Concat(chunks[1..]);
    Regroup(r.buffer, chunks[0], later);
    DrainSplit(now, later);
    var d := Drain(now);
    if d.valid {
      Regroup(r.dispatched, d.packets, Drain(d.rest + later).packets);
    }
  }

  lemma {:induction false} DeadStaysDead(r: Receiver, chunks: seq<Bytes>)
    requires !r.alive
    ensures Feed(r, chunks) == r
    decreases |chunks|
  {
    if chunks != [] { DeadStaysDead(r, chunks[1..]); }
  }

  // ------------------------------------------------------------------ sending

  /** MakePacket; hdr.length is 16 bits wide and wraps around. */
  function MakePacket(kind: UInt16, body: Bytes): Bytes {
    var len: UInt16 := (HEADER_SIZE + |body|) % 0x1_0000;
    Header(len, kind) + body
  }

  function Stream(packets: seq<Packet>): Bytes {
    if packets == [] then [] else MakePacket(packets[0].kind, packets[0].payload) + Stream(packets[1..])
  }

  lemma WordRoundTrip(n: UInt16)
    ensures Word(Low(n), High(n)) == n
  {
  }

  function Header(len: UInt16, kind: UInt16): Bytes {
    [Low(len), High(len), Low(kind), High(kind)]
  }

  /** On the wire: the total length, little-endian and modulo 2^16, the type, little-endian, and the
      body. */
  lemma PacketLayout(kind: UInt16, body: Bytes)
    ensures var p := MakePacket(kind, body);
      && |p| == 4 + |body| && p[4..] == body
      && (p[0] as int) + 256 * (p[1] as int) == |p| % 65536 && (p[2] as int) + 256 * (p[3] as int) == kind
  {
  }

  lemma ParseFramed(len: UInt16, kind: UInt16, body: Bytes, more: Bytes)
    requires HEADER_SIZE <= len <= BUFFER_SIZE && |body| == len - HEADER_SIZE
    ensures Parse(Header(len, kind) + body + more) == Complete(Packet(kind, body), more)
  {
    WordRoundTrip(len);
    WordRoundTrip(kind);
    Middle(Header(len, kind), body, more);
    var buf := Header(len, kind) + body + more;
    assert LengthOf(buf) == len;
    assert Word(buf[2], buf[3]) == kind;
  }

  lemma ParseMade(p: Packet, more: Bytes)
    requires |p.payload| <= BUFFER_SIZE - HEADER_SIZE
    ensures Parse(MakePacket(p.kind, p.payload) + more) == Complete(p, more)
  {
    MadeIsFramed(p.kind, p.payload);
    ParseFramed(HEADER_SIZE + |p.payload|, p.kind, p.payload, more);
  }

  lemma MadeIsFramed(kind: UInt16, body: Bytes)
    requires |body| <= BUFFER_SIZE - HEADER_SIZE
    ensures MakePacket(kind, body) == Header(HEADER_SIZE + |body|, kind) + body
  {
  }

  lemma {:induction false} DispatchedAreShort(buf: Bytes)
    ensures forall p :: p in Drain(buf).packets ==> |p.payload| <= BUFFER_SIZE - HEADER_SIZE
    decreases |buf|
  {
    if Parse(buf).Complete? { DispatchedAreShort(Parse(buf).rest); }
  }

  lemma DrainFirst(p: Packet, more: Bytes)
    requires |p.payload| <= BUFFER_SIZE - HEADER_SIZE
    ensures var d := Drain(more);
      Drain(MakePacket(p.kind, p.payload) + more) == Drained([p] + d.packets, d.rest, d.valid)
  {
    ParseMade(p, more);
    hide Parse, MakePacket;
  }

  lemma {:induction false} DrainStream(packets: seq<Packet>)
    requires forall p :: p in packets ==> |p.payload| <= BUFFER_SIZE - HEADER_SIZE
    ensures Drain(Stream(packets)) == Drained(packets, [], true)
    decreases |packets|
  {
    if packets != [] {
      DrainFirst(packets[0], Stream(packets[1..]));
      DrainStream(packets[1..]);
      hide Drain, MakePacket;
      assert packets == [packets[0]] + packets[1..];
    }
  }

  /** Packets arrive exactly as sent, over any chunking, if and only if every body fits into
      1020 bytes: an oversized packet is refused, or its wrapped length cuts it short. */
  lemma PacketsRoundTripIff(packets: seq<Packet>, chunks: seq<Bytes>)
    requires Concat(chunks) == Stream(packets)
    ensures Feed(Receiver([], [], true), chunks) == Receiver([], packets, true)
       <==> forall p :: p in packets ==> |p.payload| <= 1020
  {
    ChunkingInvariant(Receiver([], [], true), chunks);
    assert [] + Concat(chunks) == Stream(packets);
    if forall p :: p in packets ==> |p.payload| <= BUFFER_SIZE - HEADER_SIZE {
      DrainStream(packets);
      assert [] + packets == packets;
    } else {
      DispatchedAreShort(Stream(packets));
    }
  }

  /** One byte too many: a packet with a body of 1021 zero bytes does not arrive. */
  lemma LongPacketIsLost(kind: UInt16)
    ensures var p := Packet(kind, seq(1021, _ => 0));
      Feed(Receiver([], [], true), [MakePacket(p.kind, p.payload)]) != Receiver([], [p], true)
  {
    var p := Packet(kind, seq(1021, _ => 0));
    var packets, chunks := [p], [MakePacket(p.kind, p.payload)];
    assert Concat(chunks) == chunks[0] + Concat(chunks[1..]) && Stream(packets) == chunks[0] + Stream(packets[1..]);
    assert p in packets;
    PacketsRoundTripIff(packets, chunks);
  }
}

/** Length-prefixed fields inside a packet body. */
module Fields {
  import opened Prelude
  import opened Framing

  /** Result of ParseLengthPrefixedString; the offset moves even when it fails. */
  datatype Parsed = Parsed(ok: bool, value: Bytes, offset: nat)

  function ParseField(payload: Bytes, offset: nat): (r: Parsed)
    ensures r.ok ==> offset < r.offset <= |payload|
    ensures r.ok ==> |r.value| <= 255
  {
    if |payload| == 0 || offset >= |payload| then Parsed(false, [], offset)
    else
      var len := payload[offset];
      var start := if offset + 1 < |payload| && payload[offset + 1] == 0 then offset + 2 else offset + 1;
      if start + len > |payload| then Parsed(false, [], start)
      else Parsed(true, payload[start..start + len], start + len)
  }

  /** The bytes from offset on begin with a field that holds v: its length, in one byte, or in two if
      the second one is zero, and then v itself. */
  ghost predicate ReadsAs(payload: Bytes, offset: nat, v: Bytes)
    requires offset < |payload|
  {
    && |v| <= 255
    && if offset + 1 < |payload| && payload[offset + 1] == 0 then [|v|, 0] + v <= payload[offset..]
       else [|v|] + v <= payload[offset..]
  }

  /** Reading a field succeeds exactly if there is one, and gives what it holds. */
  lemma ParseFieldIff(payload: Bytes, offset: nat)
    ensures var r := ParseField(payload, offset);
      && offset <= r.offset <= offset + 2 + |r.value|
      && (r.ok <==> offset < |payload| && exists v :: ReadsAs(payload, offset, v))
      && (r.ok ==> ReadsAs(payload, offset, r.value)
                   && r.offset == offset + |r.value| + if offset + 1 < |payload| && payload[offset + 1] == 0 then 2 else 1)
  {
    var r := ParseField(payload, offset);
    if offset < |payload| {
      var rest, two := payload[offset..], offset + 1 < |payload| && payload[offset + 1] == 0;
      if r.ok {
        assert rest[if two then 2 else 1..][..|r.value|] == r.value;
        assert ReadsAs(payload, offset, r.value);
      }
      forall v | ReadsAs(payload, offset, v) ensures r.ok {
        assert rest[0] == (if two then [|v|, 0] + v else [|v|] + v)[0];
      }
    }
  }

  /** What a handler reads that takes fields until the parser fails. */
  function ParseFields(payload: Bytes, offset: nat): seq<Bytes>
    decreases |payload| - offset
  {
    var r := ParseField(payload, offset);
    if !r.ok then [] else [r.value] + ParseFields(payload, r.offset)
  }

  function MakeField(f: Bytes): Bytes {
    var len: UInt16 := |f| % 0x1_0000;
    [Low(len), High(len)] + f
  }

  function MakeBody(fields: seq<Bytes>): Bytes {
    if fields == [] then [] else MakeField(fields[0]) + MakeBody(fields[1..])
  }

  /** A made field: its length, little-endian and modulo 2^16, and its bytes. */
  lemma FieldLayout(f: Bytes)
    ensures var b := MakeField(f); |b| == 2 + |f| && b[2..] == f && (b[0] as int) + 256 * (b[1] as int) == |f| % 65536
  {
  }

  /** The two length forms the parser understands. */
  datatype Wire = Long(v: Bytes) | Short(v: Bytes)

  predicate Decodable(w: Wire) {
    |w.v| <= 255 && (w.Short? ==> w.v != [] && w.v[0] != 0)
  }

  function Encode(w: Wire): Bytes
    requires Decodable(w)
  {
    match w
    case Long(v) => MakeField(v)
    case Short(v) => [|v|] + v
  }

  function EncodeAll(ws: seq<Wire>): Bytes
    requires forall w :: w in ws ==> Decodable(w)
  {
    if ws == [] then [] else Encode(ws[0]) + EncodeAll(ws[1..])
  }

  function Values(ws: seq<Wire>): (r: seq<Bytes>)
    ensures |r| == |ws| && forall k :: 0 <= k < |ws| ==> r[k] == ws[k].v
  {
    if ws == [] then [] else [ws[0].v] + Values(ws[1..])
  }

  /** What precedes the value of a field. */
  function Prefix(w: Wire): Bytes
    requires Decodable(w)
  {
    match w
    case Long(v) => [|v|, 0]
    case Short(v) => [|v|]
  }

  lemma EncodeIsPrefixed(w: Wire)
    requires Decodable(w)
    ensures Encode(w) == Prefix(w) + w.v
  {
  }

  /** Fields are parsed relative to their offset. */
  lemma ParseFieldAt(before: Bytes, w: Wire, after: Bytes)
    requires Decodable(w)
    ensures ParseField(before + Encode(w) + after, |before|) == Parsed(true, w.v, |before| + |Encode(w)|)
  {
    var payload := before + Encode(w) + after;
    EncodeIsPrefixed(w);
    Regroup(before, Prefix(w), w.v);
    Middle(before, Encode(w), after);
    Middle(before + Prefix(w), w.v, after);
    assert payload[|before|] == Encode(w)[0];
    if |Encode(w)| > 1 {
      assert payload[|before| + 1] == Encode(w)[1];
    }
  }

  lemma {:induction false} ParseEncoded(before: Bytes, ws: seq<Wire>)
    requires forall w :: w in ws ==> Decodable(w)
    ensures ParseFields(before + EncodeAll(ws), |before|) == Values(ws)
    decreases |ws|
  {
    if ws == [] {
      assert before + EncodeAll(ws) == before;
    } else {
      var tail, passed := ws[1..], before + Encode(ws[0]);
      ParseEncoded(passed, tail);
      ParseFirst(before, ws[0], EncodeAll(tail));
    }
  }

  lemma ParseFirst(before: Bytes, w: Wire, after: Bytes)
    requires Decodable(w)
    ensures ParseFields(before + (Encode(w) + after), |before|)
         == [w.v] + ParseFields(before + Encode(w) + after, |before + Encode(w)|)
  {
    Regroup(before, Encode(w), after);
    ParseFieldAt(before, w, after);
    ParseFieldsStep(before + Encode(w) + after, |before|, w.v, |before + Encode(w)|);
  }

  lemma ParseFieldsStep(payload: Bytes, offset: nat, v: Bytes, next: nat)
    requires ParseField(payload, offset) == Parsed(true, v, next)
    ensures ParseFields(payload, offset) == [v] + ParseFields(payload, next)
  {
  }

  /** The parser reads both length forms, mixed freely: short for values that start with a
      nonzero byte, long for every value of at most 255 bytes. */
  lemma MixedFormsDecode(ws: seq<Wire>)
    requires forall w :: w in ws ==> Decodable(w)
    ensures ParseFields(EncodeAll(ws), 0) == Values(ws)
  {
    ParseEncoded([], ws);
    assert [] + EncodeAll(ws) == EncodeAll(ws);
  }

  /** The one-byte form in any surroundings: it is read back, with nothing else consumed, if and
      only if the byte behind the length is not zero or does not exist. */
  lemma ShortFormExact(before: Bytes, v: Bytes, after: Bytes)
    requires |v| <= 255
    ensures ParseField(before + ([|v|] + v) + after, |before|) == Parsed(true, v, |before| + 1 + |v|)
       <==> v + after == [] || (v + after)[0] != 0
  {
    var payload := before + ([|v|] + v) + after;
    Regroup(before, [|v|], v);
    Middle(before + [|v|], v, after);
    assert payload == before + [|v|] + (v + after);
    assert payload[|before|] == |v|;
    if v + after != [] {
      assert payload[|before| + 1] == (v + after)[0];
    }
  }

  function AsLong(fields: seq<Bytes>): (r: seq<Wire>)
    ensures |r| == |fields| && forall k :: 0 <= k < |r| ==> r[k] == Long(fields[k])
  {
    if fields == [] then [] else [Long(fields[0])] + AsLong(fields[1..])
  }

  lemma {:induction false} MakeBodyIsLong(fields: seq<Bytes>)
    requires forall f :: f in fields ==> |f| <= 255
    ensures forall w :: w in AsLong(fields) ==> Decodable(w)
    ensures MakeBody(fields) == EncodeAll(AsLong(fields))
    decreases |fields|
  {
    if fields != [] {
      MakeBodyIsLong(fields[1..]);
      assert AsLong(fields)[1..] == AsLong(fields[1..]);
    }
  }

  lemma {:induction false} ParsedAreShort(payload: Bytes, offset: nat)
    ensures forall f :: f in ParseFields(payload, offset) ==> |f| <= 255
    decreases |payload| - offset
  {
    var r := ParseField(payload, offset);
    if r.ok { ParsedAreShort(payload, r.offset); }
  }

  /** MakeBody writes a 16-bit length but the parser reads 8 bits of it, so the fields come back
      if and only if none is longer than 255 bytes. */
  lemma FieldsRoundTripIff(fields: seq<Bytes>)
    ensures ParseFields(MakeBody(fields), 0) == fields <==> forall f :: f in fields ==> |f| <= 255
  {
    if forall f :: f in fields ==> |f| <= 255 {
      MakeBodyIsLong(fields);
      MixedFormsDecode(AsLong(fields));
      assert Values(AsLong(fields)) == fields;
    } else {
      ParsedAreShort(MakeBody(fields), 0);
    }
  }

  /** A field of 256 zero bytes does not come back: its length is read as 0. */
  lemma LongFieldIsLost()
    ensures var field: Bytes := seq(256, _ => 0); ParseFields(MakeBody([field]), 0) != [field]
  {
    var field: Bytes := seq(256, _ => 0);
    var fields := [field];
    assert field in fields;
    FieldsRoundTripIff(fields);
  }

  datatype Message = Message(kind: UInt16, fields: seq<Bytes>)

  function ToPackets(ms: seq<Message>): (r: seq<Packet>)
    ensures |r| == |ms|
    ensures forall k :: 0 <= k < |ms| ==> r[k] == Packet(ms[k].kind, MakeBody(ms[k].fields))
  {
    if ms == [] then [] else [Packet(ms[0].kind, MakeBody(ms[0].fields))] + ToPackets(ms[1..])
  }

  /** The receiver got exactly these messages and can read all their fields. */
  ghost predicate Arrived(r: Receiver, ms: seq<Message>) {
    && r == Receiver([], ToPackets(ms), true)
    && forall k :: 0 <= k < |ms| ==> ParseFields(r.dispatched[k].payload, 0) == ms[k].fields
  }

  /** End to end, over any chunking of the stream: the messages arrive with all their fields if
      and only if every body fits into 1020 bytes and every field into 255. */
  lemma MessagesRoundTripIff(ms: seq<Message>, chunks: seq<Bytes>)
    requires Concat(chunks) == Stream(ToPackets(ms))
    ensures Arrived(Feed(Receiver([], [], true), chunks), ms) <==>
      forall k :: 0 <= k < |ms| ==>
        |MakeBody(ms[k].fields)| <= 1020 && forall f :: f in ms[k].fields ==> |f| <= 255
  {
    PacketsRoundTripIff(ToPackets(ms), chunks);
    forall k | 0 <= k < |ms|
      ensures ParseFields(MakeBody(ms[k].fields), 0) == ms[k].fields <==> forall f :: f in ms[k].fields ==> |f| <= 255
    {
      FieldsRoundTripIff(ms[k].fields);
    }
  }
}

/** The receiving side of ChannelSession and the loops of PacketParser. */
module Receiving {
  import opened Prelude
  import opened Framing
  import opened Fields

  /** What a loop that has dispatched done will end with, if its buffer gives rest. */
  ghost function After(done: seq<Packet>, rest: Drained): Drained {
    rest.(packets := done + rest.packets)
  }

  lemma DrainStep(done: seq<Packet>, buf: Bytes)
    ensures match Parse(buf)
      case NeedMoreData => After(done, Drain(buf)) == Drained(done, buf, true)
      case InvalidPacket => After(done, Drain(buf)) == Drained(done, buf, false)
      case Complete(packet, rest) => After(done, Drain(buf)) == After(done + [packet], Drain(rest))
  {
    if Parse(buf).Complete? {
      Regroup(done, [Parse(buf).packet], Drain(Parse(buf).rest).packets);
    }
  }

  class ChannelSession {
    var recvBuf: Bytes
    var dispatched: seq<Packet>

    constructor ()
      ensures recvBuf == [] && dispatched == []
    {
      recvBuf, dispatched := [], [];
    }

    /** TryParse erases a complete packet from the front of the buffer. */
    method TryParse() returns (r: ParseResult)
      modifies `recvBuf
      ensures r == Parse(old(recvBuf))
      ensures recvBuf == if r.Complete? then r.rest else old(recvBuf)
    {
      if |recvBuf| < HEADER_SIZE { return NeedMoreData; }
      var pktLen := Word(recvBuf[0], recvBuf[1]);
      if pktLen < HEADER_SIZE { return InvalidPacket; }
      if pktLen > BUFFER_SIZE { return InvalidPacket; }
      if |recvBuf| < pktLen { return NeedMoreData; }
      var kind := Word(recvBuf[2], recvBuf[3]);
      var payload := recvBuf[HEADER_SIZE..][..pktLen - HEADER_SIZE];
      assert payload == recvBuf[HEADER_SIZE..pktLen];
      recvBuf := recvBuf[pktLen..];
      r := Complete(Packet(kind, payload), recvBuf);
    }

    method OnBytes(data: Bytes) returns (ok: bool)
      modifies this
      ensures Receiver(recvBuf, dispatched, ok) == Framing.OnBytes(Receiver(old(recvBuf), old(dispatched), true), data)
    {
      recvBuf := recvBuf + data;
      ghost var all := Drain(recvBuf);
      ghost var done := [];
      while true
        invariant dispatched == old(dispatched) + done
        invariant After(done, Drain(recvBuf)) == all
        decreases |recvBuf|
      {
        DrainStep(done, recvBuf);
        var r := TryParse();
        match r {
          case NeedMoreData => return true;
          case InvalidPacket => return false;
          case Complete(packet, _) =>
            dispatched := dispatched + [packet];
            done := done + [packet];
        }
      }
    }
  }

  method ParseLengthPrefixedString(payload: Bytes, offset: nat) returns (ok: bool, value: Bytes, offset': nat)
    ensures Parsed(ok, if ok then value else [], offset') == ParseField(payload, offset)
  {
    value, offset' := [], offset;
    if |payload| == 0 || offset' >= |payload| { return false, value, offset'; }
    var len := payload[offset'];
    offset' := offset' + 1;
    if offset' < |payload| && payload[offset'] == 0 {
      offset' := offset' + 1;
    }
    if offset' + len > |payload| { return false, value, offset'; }
    value := payload[offset'..offset' + len];
    offset' := offset' + len;
    ok := true;
  }

  method BuildBody(datas: seq<Bytes>) returns (body: Bytes)
    ensures body == MakeBody(datas)
  {
    body := [];
    for n := 0 to |datas|
      invariant body + MakeBody(datas[n..]) == MakeBody(datas)
    {
      assert datas[n..][1..] == datas[n + 1..];
      var dataLen: UInt16 := |datas[n]| % 0x1_0000;
      ghost var before := body;
      body := body + [Low(dataLen), High(dataLen)];
      body := body + datas[n];
      assert body == before + MakeField(datas[n]);
    }
  }
}
