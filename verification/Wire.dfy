/**
 The GrowRPC wire format: length-prefixed protobuf frames (apps/pkg/GrowRPC/codec/protobuf.go)
 behind a one-line JSON handshake, and the server's read loop (apps/pkg/GrowRPC/server.go).
 Protobuf itself is an arbitrary pair of partial functions.
 */
module Wire {
  import opened Options

  type Byte = b: int | 0 <= b < 256
  type Bytes = seq<Byte>

  datatype Header = Header(serviceMethod: string, seqNo: nat, error: string, metadata: map<string, string>)

  datatype Message = Message(typeName: string, content: seq<int>)

  /** What callers hand to Write as a body. */
  datatype Body = Nil | EmptyStruct | NotProto | Proto(m: Message)

  /** Marshal may refuse; Unmarshal needs the type it decodes into. */
  datatype Schema = Schema(
    marshalHeader: Header -> Option<Bytes>, unmarshalHeader: Bytes -> Option<Header>,
    marshal: Message -> Option<Bytes>, unmarshal: (string, Bytes) -> Option<Message>)

  // ----- frames -----

  const LIMIT: nat := 0x1_0000_0000

  /** Big-endian uint32, with the conversion's truncation. */
  function BigEndian(n: nat): Bytes {
    [(n / 0x100_0000) % 256, (n / 0x1_0000) % 256, (n / 0x100) % 256, n % 256]
  }

  function FromBigEndian(b: Bytes): nat
    requires |b| == 4
  {
    var b0: int, b1: int, b2: int, b3: int := b[0], b[1], b[2], b[3];
    ((b0 * 256 + b1) * 256 + b2) * 256 + b3
  }

  function Frame(data: Bytes): Bytes { BigEndian(|data|) + data }

  /** The outcome of reading one frame: its data and the rest of the stream, or a failure, which
      has swallowed the rest. */
  datatype FrameRead = Failed | Got(data: Bytes, rest: Bytes)

  function ReadFrame(s: Bytes): FrameRead {
    if |s| < 4 then Failed
    else
      var n := FromBigEndian(s[..4]);
      if |s| - 4 < n then Failed else Got(s[4..4 + n], s[4 + n..])
  }

  function RestOf(r: FrameRead): Bytes { if r.Got? then r.rest else [] }

  lemma BigEndianRoundTrip(n: nat)
    requires n < LIMIT
    ensures FromBigEndian(BigEndian(n)) == n
  {
  }

  /** The length comes first, in four bytes with the most significant one in front. */
  lemma FrameLayout(data: Bytes)
    requires |data| < LIMIT
    ensures |Frame(data)| == 4 + |data| && Frame(data)[4..] == data
    ensures var b0: int, b1: int, b2: int, b3: int := Frame(data)[0], Frame(data)[1], Frame(data)[2], Frame(data)[3];
            |data| == b0 * 0x100_0000 + b1 * 0x1_0000 + b2 * 0x100 + b3
  {
    BigEndianRoundTrip(|data|);
    assert Frame(data)[..4] == BigEndian(|data|);
  }

  lemma FrameRoundTrip(data: Bytes, rest: Bytes)
    requires |data| < LIMIT
    ensures ReadFrame(Frame(data) + rest) == Got(data, rest)
  {
    var s := Frame(data) + rest;
    assert s[..4] == BigEndian(|data|);
    BigEndianRoundTrip(|data|);
  }

  // ----- writing -----

  /** What Write hands to its buffer, and whether it succeeds. A body that cannot be written
      leaves the header behind in the buffer. */
  function Encoded(sc: Schema, h: Header, b: Body): (Bytes, bool) {
    match sc.marshalHeader(h)
    case None => ([], false)
    case Some(hd) =>
      match b
      case Nil => (Frame(hd) + Frame([]), true)
      case EmptyStruct => (Frame(hd) + Frame([]), true)
      case NotProto => (Frame(hd), false)
      case Proto(m) =>
        match sc.marshal(m)
        case None => (Frame(hd), false)
        case Some(d) => (Frame(hd) + Frame(d), true)
  }

  const BUFFER_SIZE: nat := 4096

  class ProtobufCodec {
    const sc: Schema
    /** Everything handed to the buffered writer, and how much of it has reached the connection. */
    var out: Bytes
    var flushed: nat

    predicate Valid()
      reads this
    {
      flushed <= |out| <= flushed + BUFFER_SIZE
    }

    constructor (sc: Schema)
      ensures Valid() && this.sc == sc && out == [] && flushed == 0
    {
      this.sc := sc;
      out, flushed := [], 0;
    }

    /** bufio.Writer: full buffers are sent on, and large writes bypass an empty buffer. */
    method BufWrite(p: Bytes)
      requires Valid()
      modifies this
      ensures Valid() && out == old(out) + p && old(flushed) <= flushed
    {
      var buffered := |out| - flushed;
      out := out + p;
      if buffered + |p| > BUFFER_SIZE {
        if buffered > 0 {
          flushed := flushed + BUFFER_SIZE;
        }
        if |out| - flushed > BUFFER_SIZE {
          flushed := |out|;
        }
      }
    }

    method WriteMessage(data: Bytes)
      requires Valid()
      modifies this
      ensures Valid() && out == old(out) + Frame(data) && old(flushed) <= flushed
    {
      BufWrite(BigEndian(|data|));
      BufWrite(data);
      assert out == old(out) + (BigEndian(|data|) + data);
    }

    method Write(h: Header, b: Body) returns (ok: bool)
      requires Valid()
      modifies this
      ensures Valid() && old(flushed) <= flushed
      ensures out == old(out) + Encoded(sc, h, b).0 && ok == Encoded(sc, h, b).1
      ensures ok ==> flushed == |out|
    {
      var hd := sc.marshalHeader(h);
      if hd.None? {
        return false;
      }
      WriteMessage(hd.value);
      match b {
        case Nil =>
          WriteMessage([]);
        case EmptyStruct =>
          WriteMessage([]);
        case NotProto =>
          return false;
        case Proto(m) =>
          var d := sc.marshal(m);
          if d.None? {
            return false;
          }
          WriteMessage(d.value);
      }
      flushed := |out|;
      return true;
    }
  }

  // ----- reading from a connection that delivers bytes in arbitrary pieces -----

  class Conn {
    /** The bytes that have not been read yet. */
    var rest: Bytes

    constructor (bytes: Bytes)
      ensures rest == bytes
    {
      rest := bytes;
    }

    /** Any non-empty piece that fits; the empty piece is the end of the stream. */
    method Read(n: nat) returns (piece: Bytes)
      requires n > 0
      modifies this
      ensures piece + rest == old(rest) && |piece| <= n && (piece == [] <==> old(rest) == [])
    {
      if rest == [] {
        return [];
      }
      var k: nat :| 1 <= k <= n && k <= |rest|;
      piece, rest := rest[..k], rest[k..];
    }
  }

  const NEWLINE: Byte := 10

  /** One line: its only newline is its last byte. */
  predicate IsLine(l: Bytes) {
    l != [] && l[|l| - 1] == NEWLINE && NEWLINE !in l[..|l| - 1]
  }

  lemma LineSplitsStream(acc: Bytes, buf: Bytes, rest: Bytes, k: nat)
    requires k < |buf| && buf[k] == NEWLINE && NEWLINE !in acc && NEWLINE !in buf[..k]
    ensures IsLine(acc + buf[..k + 1])
    ensures (acc + buf[..k + 1]) + (buf[k + 1..] + rest) == acc + (buf + rest)
  {
    var l := acc + buf[..k + 1];
    assert l[..|l| - 1] == acc + buf[..k];
  }

  /** The one reader that serves both the handshake and the frames after it. */
  class BufReader {
    const conn: Conn
    var buf: Bytes

    function Stream(): Bytes
      reads this, conn
    {
      buf + conn.rest
    }

    constructor (conn: Conn)
      ensures this.conn == conn && Stream() == conn.rest
    {
      this.conn := conn;
      buf := [];
    }

    method Read(n: nat) returns (piece: Bytes)
      requires n > 0
      modifies this, conn
      ensures piece + Stream() == old(Stream()) && |piece| <= n && (piece == [] <==> old(Stream()) == [])
    {
      if buf == [] {
        if n >= BUFFER_SIZE {
          piece := conn.Read(n);
          return;
        }
        buf := conn.Read(BUFFER_SIZE);
      }
      var k := if n < |buf| then n else |buf|;
      piece, buf := buf[..k], buf[k..];
      assert piece + buf == old(buf) || old(buf) == [];
    }

    /** io.ReadFull: exactly n bytes, or everything there is and a failure. */
    method ReadFull(n: nat) returns (ok: bool, data: Bytes)
      modifies this, conn
      ensures ok == (n <= |old(Stream())|)
      ensures ok ==> data == old(Stream())[..n] && Stream() == old(Stream())[n..]
      ensures !ok ==> Stream() == []
    {
      data := [];
      while |data| < n
        invariant |data| <= n && data + Stream() == old(Stream())
        decreases n - |data|
      {
        var piece := Read(n - |data|);
        if piece == [] {
          assert data == old(Stream());
          return false, data;
        }
        data := data + piece;
      }
      ok := true;
    }

    /** Where the first newline in the buffer is, or the buffer's length. */
    method FindNewline() returns (k: nat)
      ensures k <= |buf| && NEWLINE !in buf[..k] && (k < |buf| ==> buf[k] == NEWLINE)
    {
      k := 0;
      while k < |buf| && buf[k] != NEWLINE
        invariant k <= |buf| && NEWLINE !in buf[..k]
      {
        k := k + 1;
      }
    }

    /** ReadBytes of a line. The buffer may run ahead of the line; what it holds stays in the
        stream. */
    method ReadLine() returns (line: Option<Bytes>)
      modifies this, conn
      ensures line.Some? ==> IsLine(line.value) && line.value + Stream() == old(Stream())
      ensures line.None? ==> NEWLINE !in old(Stream()) && Stream() == []
    {
      var acc: Bytes := [];
      while true
        invariant acc + Stream() == old(Stream()) && NEWLINE !in acc
        decreases |Stream()| + |conn.rest|
      {
        var k := FindNewline();
        if k < |buf| {
          LineSplitsStream(acc, buf, conn.rest, k);
          line := Some(acc + buf[..k + 1]);
          buf := buf[k + 1..];
          return;
        }
        acc := acc + buf;
        buf := conn.Read(BUFFER_SIZE);
        if buf == [] {
          return None;
        }
      }
    }

    method ReadMessage() returns (data: Option<Bytes>)
      modifies this, conn
      ensures var r := ReadFrame(old(Stream()));
              && Stream() == RestOf(r)
              && data == if r.Got? then Some(r.data) else None
    {
      ghost var all := Stream();
      var ok, head := ReadFull(4);
      if !ok {
        return None;
      }
      var n := FromBigEndian(head);
      var ok', d := ReadFull(n);
      if !ok' {
        return None;
      }
      assert all[4..][..n] == all[4..4 + n] && all[4..][n..] == all[4 + n..];
      return Some(d);
    }
  }

  lemma FirstLineIsUnique(a: Bytes, b: Bytes, restA: Bytes, restB: Bytes)
    requires IsLine(a) && IsLine(b) && a + restA == b + restB
    ensures a == b && restA == restB
  {
    var s := a + restA;
    assert s[|a| - 1] == NEWLINE && s[|b| - 1] == NEWLINE;
    assert a == s[..|a|] && b == s[..|b|] && restA == s[|a|..] && restB == s[|b|..];
  }

  // ----- the server's read loop -----

  /** The request type that a registered method decodes into. */
  datatype Handler = ProtoType(typeName: string) | OtherType

  type Registry = map<string, Handler>

  datatype Request = Decoded(h: Header, m: Message) | UnknownMethod(h: Header) | BadBody(h: Header)

  /** One iteration: nothing when the loop ends, or the request and the rest of the stream. */
  function ReadRequest(sc: Schema, reg: Registry, s: Bytes): Option<(Request, Bytes)> {
    match ReadFrame(s)
    case Failed => None
    case Got(hd, afterHeader) =>
      match sc.unmarshalHeader(hd)
      case None => None
      case Some(h) =>
        var body := ReadFrame(afterHeader);
        if h.serviceMethod !in reg then Some((UnknownMethod(h), RestOf(body)))
        else
          match reg[h.serviceMethod]
          case OtherType => Some((BadBody(h), afterHeader))
          case ProtoType(t) =>
            if body.Got? && sc.unmarshal(t, body.data).Some?
            then Some((Decoded(h, sc.unmarshal(t, body.data).value), body.rest))
            else Some((BadBody(h), RestOf(body)))
  }

  lemma ReadRequestConsumes(sc: Schema, reg: Registry, s: Bytes)
    ensures ReadRequest(sc, reg, s).Some? ==> |ReadRequest(sc, reg, s).value.1| < |s|
  {
  }

  /** The requests that the loop reads from a stream, in order. */
  function Served(sc: Schema, reg: Registry, s: Bytes): seq<Request>
    decreases |s|
  {
    ReadRequestConsumes(sc, reg, s);
    match ReadRequest(sc, reg, s)
    case None => []
    case Some(r) => [r.0] + Served(sc, reg, r.1)
  }

  class Server {
    const sc: Schema
    const reg: Registry

    constructor (sc: Schema, reg: Registry)
      ensures this.sc == sc && this.reg == reg
    {
      this.sc := sc;
      this.reg := reg;
    }

    method NextRequest(br: BufReader) returns (req: Option<Request>)
      modifies br, br.conn
      ensures req.None? <==> ReadRequest(sc, reg, old(br.Stream())).None?
      ensures req.Some? ==> ReadRequest(sc, reg, old(br.Stream())) == Some((req.value, br.Stream()))
    {
      var hd := br.ReadMessage();
      if hd.None? {
        return None;
      }
      var h := sc.unmarshalHeader(hd.value);
      if h.None? {
        return None;
      }
      var name := h.value.serviceMethod;
      if name !in reg {
        // the body of an unknown method must be drained
        var _ := br.ReadMessage();
        return Some(UnknownMethod(h.value));
      }
      match reg[name] {
        case OtherType =>
          return Some(BadBody(h.value));
        case ProtoType(t) =>
          var d := br.ReadMessage();
          if d.None? {
            return Some(BadBody(h.value));
          }
          var m := sc.unmarshal(t, d.value);
          return Some(if m.Some? then Decoded(h.value, m.value) else BadBody(h.value));
      }
    }

    method ServeCodec(br: BufReader) returns (reqs: seq<Request>)
      modifies br, br.conn
      ensures reqs == Served(sc, reg, old(br.Stream()))
    {
      reqs := [];
      while true
        invariant reqs + Served(sc, reg, br.Stream()) == Served(sc, reg, old(br.Stream()))
        decreases |br.Stream()|
      {
        ghost var s := br.Stream();
        ReadRequestConsumes(sc, reg, s);
        var req := NextRequest(br);
        if req.None? {
          return;
        }
        assert Served(sc, reg, s) == [req.value] + Served(sc, reg, br.Stream());
        reqs := reqs + [req.value];
      }
    }

    /** The handshake line goes to `accept`, which stands for the JSON and magic-number checks;
        the frames after it are read from the same buffered reader. */
    method ServeConn(conn: Conn, accept: Bytes -> bool) returns (line: Option<Bytes>, reqs: seq<Request>)
      modifies conn
      ensures line.None? ==> NEWLINE !in old(conn.rest) && reqs == []
      ensures line.Some? ==>
                && IsLine(line.value) && line.value <= old(conn.rest)
                && reqs == if accept(line.value) then Served(sc, reg, old(conn.rest)[|line.value|..]) else []
    {
      var br := new BufReader(conn);
      line := br.ReadLine();
      reqs := [];
      if line.None? {
        return;
      }
      assert br.Stream() == old(conn.rest)[|line.value|..];
      if accept(line.value) {
        reqs := ServeCodec(br);
      }
    }
  }

  // ----- alignment -----

  /** A stream of header and body frames with arbitrary contents. */
  function Frames(pairs: seq<(Bytes, Bytes)>): Bytes {
    if pairs == [] then [] else Frame(pairs[0].0) + Frame(pairs[0].1) + Frames(pairs[1..])
  }

  predicate Small(pairs: seq<(Bytes, Bytes)>) {
    forall i :: 0 <= i < |pairs| ==> |pairs[i].0| < LIMIT && |pairs[i].1| < LIMIT
  }

  /** What one pair of frames is as a request; nothing when its header does not decode. */
  function Meaning(sc: Schema, reg: Registry, hd: Bytes, d: Bytes): Option<Request> {
    match sc.unmarshalHeader(hd)
    case None => None
    case Some(h) =>
      if h.serviceMethod !in reg then Some(UnknownMethod(h))
      else
        match reg[h.serviceMethod]
        case OtherType => Some(BadBody(h))
        case ProtoType(t) =>
          match sc.unmarshal(t, d)
          case None => Some(BadBody(h))
          case Some(m) => Some(Decoded(h, m))
  }

  /** An iteration that does not end the loop consumes exactly one header frame and one body
      frame, for known and unknown methods and for bodies that do not decode; the only exception
      is a method registered with a request type that is not a proto message. */
  lemma IterationConsumesOnePairExactlyWhen(sc: Schema, reg: Registry, hd: Bytes, d: Bytes, rest: Bytes)
    requires |hd| < LIMIT && |d| < LIMIT && sc.unmarshalHeader(hd).Some?
    ensures ReadRequest(sc, reg, Frame(hd) + Frame(d) + rest).Some?
    ensures var name := sc.unmarshalHeader(hd).value.serviceMethod;
            ReadRequest(sc, reg, Frame(hd) + Frame(d) + rest).value.1 == rest <==> !(name in reg && reg[name].OtherType?)
  {
    assert Frame(hd) + Frame(d) + rest == Frame(hd) + (Frame(d) + rest);
    FrameRoundTrip(hd, Frame(d) + rest);
    FrameRoundTrip(d, rest);
  }

  /** All registered request types are proto messages. */
  predicate ProtoTypesOnly(reg: Registry) {
    forall name :: name in reg ==> reg[name].ProtoType?
  }

  /** The meanings of the pairs, up to the first header that does not decode. */
  function Meanings(sc: Schema, reg: Registry, pairs: seq<(Bytes, Bytes)>): seq<Request> {
    if pairs == [] then []
    else
      match Meaning(sc, reg, pairs[0].0, pairs[0].1)
      case None => []
      case Some(r) => [r] + Meanings(sc, reg, pairs[1..])
  }

  lemma OnePairRead(sc: Schema, reg: Registry, hd: Bytes, d: Bytes, rest: Bytes)
    requires |hd| < LIMIT && |d| < LIMIT && ProtoTypesOnly(reg)
    ensures ReadRequest(sc, reg, Frame(hd) + Frame(d) + rest)
            == match Meaning(sc, reg, hd, d)
               case None => None
               case Some(r) => Some((r, rest))
  {
    TwoFramesRead(hd, d, rest);
    var s := Frame(hd) + Frame(d) + rest;
    var afterHeader := Frame(d) + rest;
    assert ReadFrame(s) == Got(hd, afterHeader) && ReadFrame(afterHeader) == Got(d, rest);
  }

  lemma TwoFramesRead(hd: Bytes, d: Bytes, rest: Bytes)
    requires |hd| < LIMIT && |d| < LIMIT
    ensures ReadFrame(Frame(hd) + Frame(d) + rest) == Got(hd, Frame(d) + rest)
    ensures ReadFrame(Frame(d) + rest) == Got(d, rest)
  {
    assert Frame(hd) + Frame(d) + rest == Frame(hd) + (Frame(d) + rest);
    FrameRoundTrip(hd, Frame(d) + rest);
    FrameRoundTrip(d, rest);
  }

  /** The n-th request is the n-th pair, whatever is in the frames. */
  lemma {:induction false} RequestsStayAligned(sc: Schema, reg: Registry, pairs: seq<(Bytes, Bytes)>)
    requires Small(pairs) && ProtoTypesOnly(reg)
    ensures Served(sc, reg, Frames(pairs)) == Meanings(sc, reg, pairs)
  {
    if pairs != [] {
      RequestsStayAligned(sc, reg, pairs[1..]);
      OnePairRead(sc, reg, pairs[0].0, pairs[0].1, Frames(pairs[1..]));
    }
  }

  // ----- round trip -----

  /** Marshal and Unmarshal are inverse to each other, and encodings fit a frame. */
  ghost predicate Inverse(sc: Schema) {
    && (forall h :: sc.marshalHeader(h).Some? ==>
          var d := sc.marshalHeader(h).value; |d| < LIMIT && sc.unmarshalHeader(d) == Some(h))
    && (forall m :: sc.marshal(m).Some? ==>
          var d := sc.marshal(m).value; |d| < LIMIT && sc.unmarshal(m.typeName, d) == Some(m))
  }

  /** A header and body as they are handed to Write. */
  datatype Sent = Sent(h: Header, b: Body)

  function SentBytes(sc: Schema, calls: seq<Sent>): Bytes {
    if calls == [] then [] else Encoded(sc, calls[0].h, calls[0].b).0 + SentBytes(sc, calls[1..])
  }

  /** A body that Write accepts. */
  predicate Writable(sc: Schema, b: Body) {
    b.Nil? || b.EmptyStruct? || (b.Proto? && sc.marshal(b.m).Some?)
  }

  predicate Succeeds(sc: Schema, c: Sent) { sc.marshalHeader(c.h).Some? && Writable(sc, c.b) }

  lemma SucceedsExactlyWhen(sc: Schema, c: Sent)
    ensures Encoded(sc, c.h, c.b).1 <==> Succeeds(sc, c)
  {
  }

  predicate AllSucceed(sc: Schema, calls: seq<Sent>) {
    forall i :: 0 <= i < |calls| ==> Succeeds(sc, calls[i])
  }

  lemma {:induction false} SentBytesOneMore(sc: Schema, calls: seq<Sent>, c: Sent)
    ensures SentBytes(sc, calls + [c]) == SentBytes(sc, calls) + Encoded(sc, c.h, c.b).0
  {
    if calls == [] {
      assert [] + [c] == [c] && [c][1..] == [];
    } else {
      SentBytesOneMore(sc, calls[1..], c);
      assert (calls + [c])[1..] == calls[1..] + [c];
    }
  }

  /** A new codec writes the calls; `wire` is what has reached the connection in the end. That is
      everything when the last write succeeded, and otherwise all but a part of one buffer. */
  method WriteAll(sc: Schema, calls: seq<Sent>) returns (wire: Bytes)
    ensures wire <= SentBytes(sc, calls) && |SentBytes(sc, calls)| <= |wire| + BUFFER_SIZE
    ensures calls == [] || Succeeds(sc, calls[|calls| - 1]) ==> wire == SentBytes(sc, calls)
  {
    var codec := new ProtobufCodec(sc);
    for i := 0 to |calls|
      invariant codec.Valid() && codec.sc == sc && fresh(codec)
      invariant codec.out == SentBytes(sc, calls[..i])
      invariant i == 0 || Succeeds(sc, calls[i - 1]) ==> codec.flushed == |codec.out|
    {
      var ok := codec.Write(calls[i].h, calls[i].b);
      SucceedsExactlyWhen(sc, calls[i]);
      SentBytesOneMore(sc, calls[..i], calls[i]);
      assert calls[..i + 1] == calls[..i] + [calls[i]];
    }
    assert calls[..|calls|] == calls;
    wire := codec.out[..codec.flushed];
  }

  /** The request that a successfully written pair should arrive as. */
  function Arrival(sc: Schema, reg: Registry, c: Sent): Request {
    if c.h.serviceMethod !in reg then UnknownMethod(c.h)
    else if c.b.Proto? then Decoded(c.h, c.b.m)
    else if reg[c.h.serviceMethod].ProtoType? && sc.unmarshal(reg[c.h.serviceMethod].typeName, []).Some?
    then Decoded(c.h, sc.unmarshal(reg[c.h.serviceMethod].typeName, []).value)
    else BadBody(c.h)
  }

  function Arrivals(sc: Schema, reg: Registry, calls: seq<Sent>): seq<Request> {
    if calls == [] then [] else [Arrival(sc, reg, calls[0])] + Arrivals(sc, reg, calls[1..])
  }

  /** A message is sent to a method of its own type. */
  predicate TypesAgree(reg: Registry, calls: seq<Sent>) {
    forall i :: 0 <= i < |calls| && calls[i].b.Proto? && calls[i].h.serviceMethod in reg ==>
      reg[calls[i].h.serviceMethod] == ProtoType(calls[i].b.m.typeName)
  }

  /** The data of the two frames of a successful write. */
  function BodyData(sc: Schema, b: Body): Bytes {
    if b.Proto? && sc.marshal(b.m).Some? then sc.marshal(b.m).value else []
  }

  lemma EncodedFrames(sc: Schema, c: Sent)
    requires Succeeds(sc, c)
    ensures Encoded(sc, c.h, c.b).0 == Frame(sc.marshalHeader(c.h).value) + Frame(BodyData(sc, c.b))
  {
  }

  lemma ArrivalIsMeaning(sc: Schema, reg: Registry, c: Sent)
    requires Inverse(sc) && Succeeds(sc, c) && ProtoTypesOnly(reg)
    requires c.b.Proto? && c.h.serviceMethod in reg ==> reg[c.h.serviceMethod] == ProtoType(c.b.m.typeName)
    ensures Meaning(sc, reg, sc.marshalHeader(c.h).value, BodyData(sc, c.b)) == Some(Arrival(sc, reg, c))
  {
  }

  lemma OneArrives(sc: Schema, reg: Registry, c: Sent, rest: Bytes)
    requires Inverse(sc) && Succeeds(sc, c) && ProtoTypesOnly(reg)
    requires c.b.Proto? && c.h.serviceMethod in reg ==> reg[c.h.serviceMethod] == ProtoType(c.b.m.typeName)
    ensures ReadRequest(sc, reg, Encoded(sc, c.h, c.b).0 + rest) == Some((Arrival(sc, reg, c), rest))
  {
    EncodedFrames(sc, c);
    ArrivalIsMeaning(sc, reg, c);
    OnePairRead(sc, reg, sc.marshalHeader(c.h).value, BodyData(sc, c.b), rest);
  }

  /** Every list of successfully written pairs arrives as it was sent. */
  lemma {:induction false} CallsArrive(sc: Schema, reg: Registry, calls: seq<Sent>)
    requires Inverse(sc) && AllSucceed(sc, calls) && ProtoTypesOnly(reg) && TypesAgree(reg, calls)
    ensures Served(sc, reg, SentBytes(sc, calls)) == Arrivals(sc, reg, calls)
  {
    if calls != [] {
      CallsArrive(sc, reg, calls[1..]);
      OneArrives(sc, reg, calls[0], SentBytes(sc, calls[1..]));
    }
  }

  /** The whole connection: a handshake line and then calls, written by one codec and read through
      one buffered reader over a connection that cuts the bytes anywhere, give exactly the calls. */
  method ConnectionRoundTrip(server: Server, line: Bytes, calls: seq<Sent>, accept: Bytes -> bool)
    returns (reqs: seq<Request>)
    requires IsLine(line) && accept(line)
    requires Inverse(server.sc) && AllSucceed(server.sc, calls)
    requires ProtoTypesOnly(server.reg) && TypesAgree(server.reg, calls)
    ensures reqs == Arrivals(server.sc, server.reg, calls)
  {
    var wire := WriteAll(server.sc, calls);
    var bytes := line + wire;
    var conn := new Conn(bytes);
    var got, rs := server.ServeConn(conn, accept);
    assert bytes[|line| - 1] == NEWLINE;
    FirstLineIsUnique(got.value, line, bytes[|got.value|..], SentBytes(server.sc, calls));
    CallsArrive(server.sc, server.reg, calls);
    reqs := rs;
  }

  // ----- failed writes -----

  /** The bytes that the successful writes of a list account for. */
  function CleanBytes(sc: Schema, calls: seq<Sent>): Bytes {
    if calls == [] then []
    else (if Succeeds(sc, calls[0]) then Encoded(sc, calls[0].h, calls[0].b).0 else []) + CleanBytes(sc, calls[1..])
  }

  /** The header marshals and the body does not: Write stops after the header. */
  predicate StopsAfterHeader(sc: Schema, c: Sent) {
    sc.marshalHeader(c.h).Some? && !Writable(sc, c.b)
  }

  lemma {:induction false} CleanIsNoLonger(sc: Schema, calls: seq<Sent>)
    ensures |CleanBytes(sc, calls)| <= |SentBytes(sc, calls)|
  {
    if calls != [] {
      CleanIsNoLonger(sc, calls[1..]);
    }
  }

  predicate NoneStops(sc: Schema, calls: seq<Sent>) {
    forall i :: 0 <= i < |calls| ==> !StopsAfterHeader(sc, calls[i])
  }

  lemma NoneStopsFirst(sc: Schema, calls: seq<Sent>)
    requires calls != []
    ensures NoneStops(sc, calls) <==> !StopsAfterHeader(sc, calls[0]) && NoneStops(sc, calls[1..])
  {
    assert forall i :: 0 < i < |calls| ==> calls[i] == calls[1..][i - 1];
  }

  lemma SamePrefix(a: Bytes, b: Bytes, c: Bytes)
    ensures a + b == a + c <==> b == c
  {
    assert (a + b)[|a|..] == b && (a + c)[|a|..] == c;
  }

  /** What is handed to the buffered writer is the successful writes exactly when no write stops
      after its header. */
  lemma {:induction false} BufferIsCleanExactlyWhen(sc: Schema, calls: seq<Sent>)
    ensures SentBytes(sc, calls) == CleanBytes(sc, calls) <==> NoneStops(sc, calls)
  {
    if calls != [] {
      var c, sent, clean := calls[0], SentBytes(sc, calls[1..]), CleanBytes(sc, calls[1..]);
      BufferIsCleanExactlyWhen(sc, calls[1..]);
      NoneStopsFirst(sc, calls);
      if StopsAfterHeader(sc, c) {
        CleanIsNoLonger(sc, calls[1..]);
        assert CleanBytes(sc, calls) == clean;
        assert |SentBytes(sc, calls)| > |clean|;
      } else if Succeeds(sc, c) {
        SamePrefix(Encoded(sc, c.h, c.b).0, sent, clean);
      } else {
        assert SentBytes(sc, calls) == sent && CleanBytes(sc, calls) == clean;
      }
    }
  }

  /** The connection after writes of which the last one succeeds: it carries the frames of the
      successful writes and nothing else if and only if no header was followed by a body that is
      not a proto message or does not marshal. */
  method ConnectionIsCleanExactlyWhen(sc: Schema, calls: seq<Sent>) returns (wire: Bytes)
    requires calls != [] && Succeeds(sc, calls[|calls| - 1])
    ensures wire == SentBytes(sc, calls)
    ensures wire == CleanBytes(sc, calls) <==> NoneStops(sc, calls)
  {
    wire := WriteAll(sc, calls);
    BufferIsCleanExactlyWhen(sc, calls);
  }

  /** The frames of a failed write, which is a header, and of a successful one. */
  lemma FramesAfterFailure(sc: Schema, failed: Sent, next: Sent)
    requires StopsAfterHeader(sc, failed) && Succeeds(sc, next)
    ensures SentBytes(sc, [failed, next])
            == Frame(sc.marshalHeader(failed.h).value) + (Frame(sc.marshalHeader(next.h).value) + Frame(BodyData(sc, next.b)))
  {
    EncodedFrames(sc, next);
    assert [failed, next][1..] == [next];
    assert SentBytes(sc, [next]) == Encoded(sc, next.h, next.b).0;
  }

  /** After such a failure the reader takes the next header for the body of the failed call. */
  lemma StaleHeaderTakesNextFrame(sc: Schema, reg: Registry, failed: Sent, next: Sent, rest: Bytes)
    requires Inverse(sc) && ProtoTypesOnly(reg)
    requires StopsAfterHeader(sc, failed) && Succeeds(sc, next)
    ensures var s := SentBytes(sc, [failed, next]) + rest;
            && ReadRequest(sc, reg, s).Some?
            && Some(ReadRequest(sc, reg, s).value.0)
               == Meaning(sc, reg, sc.marshalHeader(failed.h).value, sc.marshalHeader(next.h).value)
  {
    var hd, hd' := sc.marshalHeader(failed.h).value, sc.marshalHeader(next.h).value;
    var d := BodyData(sc, next.b);
    FramesAfterFailure(sc, failed, next);
    assert SentBytes(sc, [failed, next]) + rest == Frame(hd) + Frame(hd') + (Frame(d) + rest);
    OnePairRead(sc, reg, hd, hd', Frame(d) + rest);
  }
}
