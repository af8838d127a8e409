/**
 * Framed messages over a byte-stream transport (pkg/conn), with and without batching.
 * A transport accepts some number of bytes, chosen by the environment, and then fails for good.
 */
module Conn {
  import opened Bytes
  import opened PrefixCode
  import opened Protocol

  const MAX_PAYLOAD: nat := 16 * 1024 * 1024

  /** The message as it goes on the wire: the length field is the payload length cut to 32 bits. */
  function Stamp(m: Message): Message
  {
    m.(header := m.header.(payloadLen := |m.payload| % 0x1_0000_0000))
  }

  function Frame(m: Message): Bytes
  {
    HeaderBytes(Stamp(m).header) + m.payload
  }

  /** The unbatched wire image of a message list. */
  function Frames(ms: seq<Message>): Bytes
  {
    PrintAll(Frame, ms)
  }

  datatype ReadResult = Got(msg: Message) | Eof | TooLarge

  /** One read: the outcome and the bytes not consumed. */
  function ReadSpec(b: Bytes): (ReadResult, Bytes)
  {
    if |b| < HEADER_SIZE then (Eof, [])
    else
      var h := DecodeHeader(b[..HEADER_SIZE]);
      var body := b[HEADER_SIZE..];
      if h.payloadLen > MAX_PAYLOAD then (TooLarge, body)
      else if |body| < h.payloadLen then (Eof, [])
      else (Got(Message(h, body[..h.payloadLen])), body[h.payloadLen..])
  }

  function ParseFrame(b: Bytes): Parse<Message>
  {
    var (r, rest) := ReadSpec(b);
    if r.Got? then Item(r.msg, |b| - |rest|) else Stop
  }

  /** Every message got by reading to the end of a stream. */
  function ReadAll(b: Bytes): seq<Message>
  {
    ParseAll(ParseFrame, b)
  }

  function Stamps(ms: seq<Message>): seq<Message>
  {
    seq(|ms|, i requires 0 <= i < |ms| => Stamp(ms[i]))
  }

  predicate Sendable(ms: seq<Message>)
  {
    forall i :: 0 <= i < |ms| ==> |ms[i].payload| <= 16777216
  }

  /** The message on the wire: everything as it was given but the length field. */
  lemma StampIs(m: Message)
    ensures var w := Stamp(m);
            && w.payload == m.payload && w == Message(m.header.(payloadLen := w.header.payloadLen), m.payload)
            && (|m.payload| < 0x1_0000_0000 ==> w.header.payloadLen == |m.payload|)
            && (w == m <==> m.header.payloadLen == |m.payload| % 0x1_0000_0000)
  {
  }

  /**
   * What a read makes of any bytes.  A length over 16777216 is refused as soon as the header is there;
   * otherwise the message is whole, or the stream has ended inside it.
   */
  lemma ReadOutcome(b: Bytes)
    ensures |b| < 20 ==> ReadSpec(b).0 == Eof
    ensures |b| >= 20 ==>
              var h := DecodeHeader(b[..20]);
              && (ReadSpec(b).0 == TooLarge <==> h.payloadLen > 16777216)
              && (ReadSpec(b).0.Got? <==> h.payloadLen <= 16777216 && |b| >= 20 + h.payloadLen)
              && (ReadSpec(b).0.Got? ==> ReadSpec(b) == (Got(Message(h, b[20..20 + h.payloadLen])), b[20 + h.payloadLen..]))
  {
    if |b| >= 20 && DecodeHeader(b[..20]).payloadLen <= 16777216 && |b| >= 20 + DecodeHeader(b[..20]).payloadLen {
      var n := DecodeHeader(b[..20]).payloadLen;
      assert b[20..][..n] == b[20..20 + n] && b[20..][n..] == b[20 + n..];
    }
  }

  lemma ReadFrame(m: Message, rest: Bytes)
    requires |m.payload| <= MAX_PAYLOAD
    ensures ReadSpec(Frame(m) + rest) == (Got(Stamp(m)), rest)
  {
    var b := Frame(m) + rest;
    assert b[..HEADER_SIZE] == HeaderBytes(Stamp(m).header);
    DecodeEncode(Stamp(m).header);
    assert b[HEADER_SIZE..] == m.payload + rest;
  }

  /**
   * A frame comes back as the message that was written exactly when its payload is within the
   * reader's limit.  Above the limit the reader either refuses the length, or (from 4 GiB on)
   * believes a length cut to 32 bits.
   */
  lemma FrameReadsBackIff(m: Message)
    ensures (forall rest: Bytes :: ReadSpec(Frame(m) + rest) == (Got(Stamp(m)), rest)) <==> |m.payload| <= 16777216
  {
    if |m.payload| <= 16777216 {
      forall rest: Bytes ensures ReadSpec(Frame(m) + rest) == (Got(Stamp(m)), rest) {
        ReadFrame(m, rest);
      }
    } else {
      var b := Frame(m) + [];
      assert b[..HEADER_SIZE] == HeaderBytes(Stamp(m).header);
      DecodeEncode(Stamp(m).header);
      assert ReadSpec(b).0 != Got(Stamp(m));
    }
  }

  lemma FrameDelimits(m: Message)
    requires |m.payload| <= MAX_PAYLOAD && Stamp(m) == m
    ensures Delimits(Frame, ParseFrame, m)
  {
    forall rest: Bytes ensures ParseFrame(Frame(m) + rest) == Item(m, |Frame(m)|) {
      ReadFrame(m, rest);
    }
    forall k: nat | k < |Frame(m)| ensures ParseFrame(Frame(m)[..k]) == Stop {
      var b := Frame(m)[..k];
      if k >= HEADER_SIZE {
        assert b[..HEADER_SIZE] == HeaderBytes(m.header);
        DecodeEncode(m.header);
      }
    }
  }

  lemma {:induction false} FramesOfStamps(ms: seq<Message>)
    ensures Frames(Stamps(ms)) == Frames(ms)
  {
    if ms != [] {
      FramesOfStamps(ms[1..]);
      assert Stamps(ms)[1..] == Stamps(ms[1..]);
      assert Frame(Stamp(ms[0])) == Frame(ms[0]);
    }
  }

  /**
   * Reading inverts writing, on every cut of the stream: from the first `k` bytes of the frames
   * the reader gets exactly the messages that lie wholly inside them, in order, and nothing else.
   */
  lemma ReadAllOfPrefix(ms: seq<Message>, k: nat)
    requires Sendable(ms)
    requires k <= |Frames(ms)|
    ensures ReadAll(Frames(ms)[..k]) == Stamps(ms)[..Whole(Frame, Stamps(ms), k)]
    ensures k == |Frames(ms)| ==> ReadAll(Frames(ms)[..k]) == Stamps(ms)
  {
    var st := Stamps(ms);
    forall i | 0 <= i < |st| ensures Delimits(Frame, ParseFrame, st[i]) {
      FrameDelimits(st[i]);
    }
    FramesOfStamps(ms);
    ParseTruncated(Frame, ParseFrame, st, k);
    if k == |Frames(ms)| {
      assert Frames(ms)[..k] == Frames(st) + [];
      ParsePrinted(Frame, ParseFrame, st, []);
    }
  }

  lemma FramesSnoc(ms: seq<Message>, m: Message)
    ensures Frames(ms + [m]) == Frames(ms) + Frame(m)
  {
    PrintAllAppend(Frame, ms, [m]);
    assert PrintAll(Frame, [m]) == Frame(m) + PrintAll(Frame, []);
  }

  // ---------------------------------------------------------------- which writes reach the transport

  /** The writes a buffered writer has made, and what it holds back. */
  datatype Sink = Sink(out: seq<Bytes>, buf: Bytes)

  function Flushed(k: Sink): Sink
  {
    if k.buf == [] then k else Sink(k.out + [k.buf], [])
  }

  /** Fill the buffer and write it when it is full; with an empty buffer write what does not fit at once. */
  function Buffer(size: nat, k: Sink, p: Bytes): (k': Sink)
    requires |k.buf| <= size && size > 0
    ensures |k'.buf| <= size
    decreases |p|, |k.buf|
  {
    var n := size - |k.buf|;
    if |p| <= n then Sink(k.out, k.buf + p)
    else if k.buf == [] then Sink(k.out + [p], [])
    else Buffer(size, Sink(k.out + [k.buf + p[..n]], []), p[n..])
  }

  /** One message through the writer: header, payload, and a flush when a batch is full. */
  function Poured(size: nat, k: Sink, h: Bytes, payload: Bytes): (k': Sink)
    requires |k.buf| <= size && size > 0
    ensures |k'.buf| < size
  {
    var q := Buffer(size, k, h);
    var r := if payload == [] then q else Buffer(size, q, payload);
    if |r.buf| >= size then Flushed(r) else r
  }

  /** The writes of the unbatched path: the header, and a payload that is not empty. */
  function Writes(m: Message): seq<Bytes>
  {
    [HeaderBytes(Stamp(m).header)] + if m.payload == [] then [] else [m.payload]
  }

  /** One message, with batches of `size` bytes or, at zero, unbatched. */
  function Accept(size: nat, k: Sink, m: Message): (k': Sink)
    requires |k.buf| <= size
    ensures |k'.buf| <= size
  {
    if size == 0 then Sink(k.out + Writes(m), k.buf) else Poured(size, k, HeaderBytes(Stamp(m).header), m.payload)
  }

  /** The far end of a connection: it accepts `limit` bytes in all and then fails. */
  class Transport {
    const limit: nat
    var sent: Bytes
    /** What was accepted, write by write. */
    var writes: seq<Bytes>

    predicate Full()
      reads this
    {
      |sent| >= limit
    }

    constructor (limit: nat)
      ensures sent == [] && writes == [] && this.limit == limit
    {
      this.limit, sent, writes := limit, [], [];
    }

    method Write(p: Bytes) returns (n: nat)
      modifies this
      ensures n <= |p| && sent == old(sent) + p[..n] && writes == old(writes) + [p[..n]]
      ensures n < |p| ==> Full()
      ensures old(Full()) ==> n == 0
    {
      var room := if Full() then 0 else limit - |sent|;
      n := if |p| <= room then |p| else room;
      sent, writes := sent + p[..n], writes + [p[..n]];
    }
  }

  /** The buffered writer in front of a transport. */
  class BufWriter {
    const size: nat
    var buf: Bytes
    var failed: bool
    var wr: Transport

    ghost predicate Valid()
      reads this, wr
    {
      0 < size && |buf| <= size && (failed ==> wr.Full())
    }

    ghost function Sunk(): Sink
      reads this, wr
    {
      Sink(wr.writes, buf)
    }

    /** All bytes taken from callers are on the wire or in the buffer. */
    ghost function Taken(): Bytes
      reads this, wr
    {
      wr.sent + buf
    }

    constructor (wr: Transport, size: nat)
      requires 0 < size
      ensures Valid() && buf == [] && !failed && this.wr == wr && this.size == size
    {
      this.wr, this.size, buf, failed := wr, size, [], false;
    }

    method Flush() returns (ok: bool)
      requires Valid()
      modifies this, wr
      ensures Valid() && wr == old(wr) && ok == !failed
      ensures old(failed) ==> failed && wr.sent == old(wr.sent)
      ensures !old(failed) ==> Taken() == old(Taken())
      ensures ok ==> buf == [] && Sunk() == Flushed(old(Sunk()))
      ensures !ok && !old(failed) ==> |wr.sent| < |Taken()|
      ensures old(wr.sent) <= wr.sent
    {
      if failed || buf == [] {
        return !failed;
      }
      var n := wr.Write(buf);
      assert wr.sent + buf[n..] == old(wr.sent) + buf;
      assert n == |buf| ==> buf[..n] == buf;
      failed := n < |buf|;
      buf := buf[n..];
      ok := !failed;
    }

    /** One turn of the writing loop: the part of `q` that is still to be written. */
    method Turn(q: Bytes) returns (rest: Bytes)
      requires Valid() && !failed && |q| > size - |buf|
      modifies this, wr
      ensures Valid() && wr == old(wr)
      ensures !failed ==> Taken() + rest == old(Taken()) + q && Buffer(size, Sunk(), rest) == Buffer(size, old(Sunk()), q)
      ensures wr.sent <= old(Taken()) + q && (failed ==> |wr.sent| < |old(Taken()) + q|)
      ensures !failed ==> |rest| < |q| || (|rest| == |q| && |buf| < |old(buf)|)
    {
      if buf == [] {
        var n := wr.Write(q);
        failed := n < |q|;
        assert n == |q| ==> q[..n] == q;
        rest := q[n..];
      } else {
        var n := size - |buf|;
        buf := buf + q[..n];
        rest := q[n..];
        assert Taken() + rest == old(Taken()) + q;
        var _ := Flush();
      }
    }

    method Write(p: Bytes) returns (ok: bool)
      requires Valid()
      modifies this, wr
      ensures Valid() && wr == old(wr) && ok == !failed
      ensures !failed ==> Taken() == old(Taken()) + p && Sunk() == Buffer(size, old(Sunk()), p)
      ensures old(failed) ==> failed && wr.sent == old(wr.sent)
      ensures !old(failed) ==> wr.sent <= old(Taken()) + p
      ensures !old(failed) && failed ==> |wr.sent| < |old(Taken()) + p|
    {
      var q := p;
      while |q| > size - |buf| && !failed
        invariant Valid() && wr == old(wr)
        invariant !failed ==> Taken() + q == old(Taken()) + p && Buffer(size, Sunk(), q) == Buffer(size, old(Sunk()), p)
        invariant old(failed) ==> failed && wr.sent == old(wr.sent)
        invariant !old(failed) ==> wr.sent <= old(Taken()) + p
        invariant !old(failed) && failed ==> |wr.sent| < |old(Taken()) + p|
        decreases !failed, |q|, |buf|
      {
        q := Turn(q);
      }
      if !failed {
        buf := buf + q;
      }
      ok := !failed;
    }

    /** Point the writer at a new transport; whatever was buffered is dropped. */
    method Reset(wr: Transport)
      requires 0 < size
      modifies this
      ensures Valid() && buf == [] && !failed && this.wr == wr
    {
      this.wr, buf, failed := wr, [], false;
    }
  }

  /** A connection.  `tcp` selects the single vectored write; `bw` is present when batching. */
  class Conn {
    const batchSize: nat
    const tcp: bool
    var transport: Transport
    var bw: BufWriter?
    /** The messages handed to WriteMsg since the transport was last replaced. */
    ghost var given: seq<Message>

    /**
     * Batched framing refines unbatched framing.  While nothing failed, the bytes emitted
     * followed by the bytes buffered are the unbatched frames of the messages given; after a
     * failure the bytes emitted are still a prefix of them.
     */
    ghost predicate Valid()
      reads this, transport, bw
    {
      && ((bw != null) == (batchSize > 0))
      && (bw != null ==> bw.wr == transport && bw.size == batchSize && bw.Valid())
      && transport.sent <= Frames(given)
      && (!Broken() ==> transport.sent + Buffered() == Frames(given))
      && (Broken() ==> transport.Full() && |transport.sent| < |Frames(given)|)
    }

    ghost function Sunk(): Sink
      reads this, transport, bw
    {
      Sink(transport.writes, Buffered())
    }

    ghost function Buffered(): Bytes
      reads this, bw
    {
      if bw == null then [] else bw.buf
    }

    /** A write fell short; the transport accepts nothing more. */
    ghost predicate Broken()
      reads this, transport, bw
    {
      if bw == null then transport.Full() && transport.sent != Frames(given) else bw.failed
    }

    constructor (transport: Transport, batchSize: nat, tcp: bool)
      requires transport.sent == []
      ensures Valid() && given == [] && this.transport == transport && this.batchSize == batchSize && this.tcp == tcp
      ensures bw != null ==> fresh(bw) && bw.buf == []
    {
      this.transport, this.batchSize, this.tcp := transport, batchSize, tcp;
      given := [];
      if batchSize > 0 {
        bw := new BufWriter(transport, batchSize);
      } else {
        bw := null;
      }
    }

    /** The batching path: through the buffered writer, flushing when a batch is full. */
    method WriteBatched(h: Bytes, payload: Bytes) returns (ok: bool)
      requires bw != null && bw.Valid() && bw.size == batchSize
      modifies bw, bw.wr
      ensures bw.Valid() && bw.wr == old(bw.wr) && ok == !bw.failed
      ensures ok ==> bw.Taken() == old(bw.Taken()) + (h + payload) && bw.Sunk() == Poured(batchSize, old(bw.Sunk()), h, payload)
      ensures old(bw.failed) ==> !ok && bw.wr.sent == old(bw.wr.sent)
      ensures !old(bw.failed) ==> bw.wr.sent <= old(bw.Taken()) + (h + payload)
      ensures !old(bw.failed) && !ok ==> |bw.wr.sent| < |old(bw.Taken()) + (h + payload)|
    {
      ghost var all := old(bw.Taken()) + (h + payload);
      assert all == old(bw.Taken()) + h + payload;
      ok := bw.Write(h);
      if ok && |payload| > 0 {
        ok := bw.Write(payload);
      }
      if ok && |bw.buf| >= batchSize {
        ok := bw.Flush();
      }
    }

    /** The immediate path: one vectored write on TCP, otherwise header then payload. */
    method WriteThrough(h: Bytes, payload: Bytes) returns (ok: bool)
      requires h != []
      modifies transport
      ensures transport.sent <= old(transport.sent) + (h + payload)
      ensures ok ==> transport.sent == old(transport.sent) + (h + payload)
      ensures ok && !tcp ==> transport.writes == old(transport.writes) + ([h] + if payload == [] then [] else [payload])
      ensures !ok ==> transport.Full() && transport.sent != old(transport.sent) + (h + payload)
      ensures old(transport.Full()) ==> !ok && transport.sent == old(transport.sent)
    {
      var n: nat;
      if tcp {
        n := transport.Write(h + payload);
        ok := n == |h + payload|;
      } else {
        n := transport.Write(h);
        ok := n == |h|;
        assert ok ==> h[..n] == h;
        if ok && |payload| > 0 {
          n := transport.Write(payload);
          ok := n == |payload|;
          assert ok ==> payload[..n] == payload;
        }
      }
    }

    method WriteMsg(m: Message) returns (ok: bool)
      requires Valid()
      modifies this, transport, bw
      ensures Valid() && transport == old(transport) && bw == old(bw)
      ensures given == old(given) + [m]
      ensures ok == !Broken() && (old(Broken()) ==> Broken())
      ensures ok && (tcp ==> bw != null) ==> Sunk() == Accept(batchSize, old(Sunk()), m)
    {
      var hdr := EncodeHeader(Stamp(m).header);
      var h := hdr[..];
      FramesSnoc(given, m);
      assert Frames(given + [m]) == Frames(given) + (h + m.payload);
      given := given + [m];
      if bw != null {
        ok := WriteBatched(h, m.payload);
      } else {
        ok := WriteThrough(h, m.payload);
      }
    }

    /** Flush on request and on every tick of the batching timer. */
    method Flush() returns (ok: bool)
      requires Valid()
      modifies this, transport, bw
      ensures Valid() && transport == old(transport) && bw == old(bw) && given == old(given)
      ensures !Broken() ==> transport.sent == Frames(given) && Sunk() == Flushed(old(Sunk()))
      ensures old(Broken()) ==> Broken()
      ensures bw == null ==> ok && transport.sent == old(transport.sent)
    {
      ok := true;
      if bw != null {
        ok := bw.Flush();
      }
    }

    method Do(op: Op)
      requires Valid()
      modifies this, transport, bw
      ensures Valid() && transport == old(transport) && bw == old(bw)
      ensures given == old(given) + (if op.Put? then [op.msg] else [])
      ensures !Broken() ==> !old(Broken()) && ((tcp ==> bw != null) ==> Sunk() == Done(batchSize, old(Sunk()), op))
    {
      match op {
        case Put(m) => var _ := WriteMsg(m);
        case Tick => var _ := Flush();
      }
    }

    /** A new transport starts on a frame boundary: no byte of an unfinished frame is carried over. */
    method Reconnect(next: Transport)
      requires Valid() && next.sent == []
      modifies this, bw
      ensures Valid() && given == [] && transport == next && bw == old(bw)
    {
      transport, given := next, [];
      if bw != null {
        bw.Reset(next);
      }
    }
  }

  /** The receiving end of a byte stream; `pending` is everything that will ever arrive. */
  class Inbox {
    var pending: Bytes

    constructor (pending: Bytes)
      ensures this.pending == pending
    {
      this.pending := pending;
    }

    /** io.ReadFull: reads of any sizes until `n` bytes are there or the stream ends. */
    method ReadFull(n: nat) returns (b: Bytes, ok: bool)
      modifies this
      ensures ok == (n <= |old(pending)|)
      ensures ok ==> b == old(pending)[..n] && pending == old(pending)[n..]
      ensures !ok ==> pending == []
    {
      b := [];
      while |b| < n && pending != []
        invariant |b| <= n && b + pending == old(pending)
        decreases |pending|
      {
        var k :| 1 <= k <= n - |b| && k <= |pending|;
        b, pending := b + pending[..k], pending[k..];
      }
      ok := |b| == n;
    }

    method ReadMsg() returns (r: ReadResult)
      modifies this
      ensures (r, pending) == ReadSpec(old(pending))
    {
      var hdr, ok := ReadFull(HEADER_SIZE);
      if !ok {
        return Eof;
      }
      var h := DecodeHeader(hdr);
      if h.payloadLen > MAX_PAYLOAD {
        return TooLarge;
      }
      var body: Bytes := [];
      if h.payloadLen > 0 {
        body, ok := ReadFull(h.payloadLen);
        if !ok {
          return Eof;
        }
      }
      r := Got(Message(h, body));
    }
  }

  /** What callers do to a connection: hand it a message, or let a flush happen. */
  datatype Op = Put(msg: Message) | Tick

  function Puts(ops: seq<Op>): seq<Message>
  {
    if ops == [] then []
    else Puts(ops[..|ops| - 1]) + match ops[|ops| - 1] case Put(m) => [m] case Tick => []
  }

  /** The sink after the operations, and the writes made once it is flushed. */
  function After(size: nat, ops: seq<Op>): (k: Sink)
    ensures |k.buf| <= size
  {
    if ops == [] then Sink([], []) else Done(size, After(size, ops[..|ops| - 1]), ops[|ops| - 1])
  }

  function Done(size: nat, k: Sink, op: Op): (k': Sink)
    requires |k.buf| <= size
    ensures |k'.buf| <= size
  {
    match op case Put(m) => Accept(size, k, m) case Tick => Flushed(k)
  }

  function Emitted(size: nat, ops: seq<Op>): seq<Bytes> { Flushed(After(size, ops)).out }

  /**
   * A whole conversation: any operations, any batch size, any placement of flushes, any read
   * sizes, and a transport that may fail at any byte.  The reader gets exactly the messages whose
   * frames lie wholly in what the transport accepted; with no failure, all of them.
   */
  method Converse(ops: seq<Op>, batchSize: nat, tcp: bool, limit: nat) returns (wire: Bytes, read: seq<Message>)
    requires Sendable(Puts(ops))
    ensures wire <= Frames(Puts(ops))
    ensures |Frames(Puts(ops))| <= limit ==> wire == Frames(Puts(ops))
    ensures read == Stamps(Puts(ops))[..Whole(Frame, Stamps(Puts(ops)), |wire|)]
    ensures |Frames(Puts(ops))| <= limit ==> read == Stamps(Puts(ops))
  {
    var sent, _ := WriteAll(ops, batchSize, tcp, limit);
    wire := sent;
    read := Drain(wire);
    ReadAllOfPrefix(Puts(ops), |wire|);
    assert Frames(Puts(ops))[..|wire|] == wire;
  }

  /**
   * The writing half: what the transport holds after the operations and a last flush, and, unless
   * the vectored write is used, in which writes it got it.
   */
  method WriteAll(ops: seq<Op>, batchSize: nat, tcp: bool, limit: nat) returns (wire: Bytes, writes: seq<Bytes>)
    ensures wire <= Frames(Puts(ops))
    ensures |Frames(Puts(ops))| <= limit ==> wire == Frames(Puts(ops))
    ensures |Frames(Puts(ops))| <= limit && (tcp ==> batchSize > 0) ==> writes == Emitted(batchSize, ops)
  {
    var t := new Transport(limit);
    var c := new Conn(t, batchSize, tcp);
    for i := 0 to |ops|
      invariant c.transport == t && fresh(t) && fresh(c) && (c.bw != null ==> fresh(c.bw))
      invariant c.Valid() && c.given == Puts(ops[..i])
      invariant !c.Broken() && (tcp ==> batchSize > 0) ==> c.Sunk() == After(batchSize, ops[..i])
    {
      assert ops[..i + 1][..i] == ops[..i];
      c.Do(ops[i]);
    }
    assert ops[..|ops|] == ops;
    var _ := c.Flush();
    wire, writes := t.sent, t.writes;
  }

  method Drain(wire: Bytes) returns (read: seq<Message>)
    ensures read == ReadAll(wire)
  {
    var box := new Inbox(wire);
    read := [];
    while true
      invariant fresh(box) && ReadAll(wire) == read + ReadAll(box.pending)
      decreases |box.pending|
    {
      ghost var b := box.pending;
      var r := box.ReadMsg();
      if !r.Got? {
        assert ReadAll(b) == [];
        return;
      }
      assert b[|b| - |box.pending|..] == box.pending;
      ParseStep(ParseFrame, wire, read, b);
      read := read + [r.msg];
    }
  }
}
