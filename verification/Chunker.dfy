/** Splitting payloads into fragments and putting fragments together again (pkg/chunker, pkg/compress). */
module Chunker {
  import opened Bytes
  import opened Protocol

  const CHUNK_SIZE: nat := 512 * 1024
  const MAX_STREAMS: nat := 1024
  const MAX_FRAGMENTS: nat := 0xFFFF
  const THRESHOLD: nat := 256

  const FLAG_COMPRESSED: byte := 1
  const FLAG_FRAGMENTED: byte := 2

  /** The compression library, known only by its round trip. */
  datatype Codec = Codec(compress: Bytes -> Bytes, decompress: Bytes -> Option<Bytes>)

  ghost predicate RoundTrips(c: Codec)
  {
    forall x: Bytes :: c.decompress(c.compress(x)) == Some(x)
  }

  function Pack(c: Codec, payload: Bytes): (Bytes, bool)
  {
    if |payload| <= THRESHOLD then (payload, false) else (c.compress(payload), true)
  }

  /** Undo `Pack` by the flags of a fragment. */
  function Unpack(c: Codec, data: Bytes, flags: byte): Option<Bytes>
  {
    if flags % 2 == 0 then Some(data) else c.decompress(data)
  }

  function Chunks(data: Bytes): (cs: seq<Bytes>)
    ensures |cs| >= 1
    ensures forall i :: 0 <= i < |cs| ==> |cs[i]| <= CHUNK_SIZE
    decreases |data|
  {
    if |data| <= CHUNK_SIZE then [data] else [data[..CHUNK_SIZE]] + Chunks(data[CHUNK_SIZE..])
  }

  function Join(cs: seq<Bytes>): Bytes
  {
    if cs == [] then [] else Join(cs[..|cs| - 1]) + cs[|cs| - 1]
  }

  lemma {:induction false} JoinCons(c: Bytes, cs: seq<Bytes>)
    ensures Join([c] + cs) == c + Join(cs)
  {
    if cs == [] {
      assert ([c] + cs)[..0] == [];
    } else {
      var n := |cs| - 1;
      JoinCons(c, cs[..n]);
      assert ([c] + cs)[..n + 1] == [c] + cs[..n];
    }
  }

  /** Joining the chunks of data gives the data. */
  lemma {:induction false} JoinChunksOf(data: Bytes)
    ensures Join(Chunks(data)) == data
    decreases |data|
  {
    if |data| <= CHUNK_SIZE {
      JoinCons(data, []);
    } else {
      JoinChunksOf(data[CHUNK_SIZE..]);
      JoinCons(data[..CHUNK_SIZE], Chunks(data[CHUNK_SIZE..]));
      assert data == data[..CHUNK_SIZE] + data[CHUNK_SIZE..];
    }
  }

  function Flags(fragmented: bool, compressed: bool): byte
  {
    (if compressed then FLAG_COMPRESSED else 0) + (if fragmented then FLAG_FRAGMENTED else 0)
  }

  /** Fragment `i` of a message cut into `cs`. */
  function Fragment(id: u64, ct: byte, pri: byte, compressed: bool, cs: seq<Bytes>, i: nat): (m: Message)
    requires i < |cs| <= MAX_FRAGMENTS && |cs[i]| <= CHUNK_SIZE
  {
    Message(Header(id, MSG_DATA, ct, Flags(|cs| > 1, compressed), pri, i, |cs|, |cs[i]|), cs[i])
  }

  /** The fragments of a payload, or None when there would be more than 65535 of them. */
  function Split(c: Codec, id: u64, ct: byte, pri: byte, payload: Bytes): Option<seq<Message>>
  {
    var (data, compressed) := Pack(c, payload);
    var cs := Chunks(data);
    if |cs| > MAX_FRAGMENTS then None
    else Some(seq(|cs|, i requires 0 <= i < |cs| => Fragment(id, ct, pri, compressed, cs, i)))
  }

  // ---------------------------------------------------------------- what is split, and into what

  /** How many fragments a number of bytes takes: one for nothing, otherwise as many as are needed. */
  function Pieces(n: nat): nat { if n == 0 then 1 else (n + 524287) / 524288 }

  lemma {:induction false} ChunkCount(data: Bytes)
    ensures |Chunks(data)| == Pieces(|data|)
    decreases |data|
  {
    if |data| > 524288 {
      ChunkCount(data[524288..]);
      assert |data[524288..]| == |data| - 524288;
    }
  }

  /** Chunk `i` is the bytes from `i` times 512 KiB on, up to 512 KiB of them. */
  lemma {:induction false} ChunkAt(data: Bytes, i: nat)
    requires i < |Chunks(data)|
    ensures i * 524288 <= |data|
    ensures Chunks(data)[i] == if (i + 1) * 524288 <= |data| then data[i * 524288..(i + 1) * 524288] else data[i * 524288..]
    decreases |data|
  {
    if i > 0 {
      var rest := data[524288..];
      ChunkAt(rest, i - 1);
      assert rest[(i - 1) * 524288..] == data[i * 524288..];
      if (i + 1) * 524288 <= |data| {
        assert rest[(i - 1) * 524288..i * 524288] == data[i * 524288..(i + 1) * 524288];
      }
    }
  }

  /** What travels: payloads of more than 256 bytes are compressed. */
  function Packed(c: Codec, payload: Bytes): Bytes { if |payload| <= 256 then payload else c.compress(payload) }

  /** Split refuses exactly the payloads that are packed into more than 65535 times 512 KiB. */
  lemma SplitIff(c: Codec, id: u64, ct: byte, pri: byte, payload: Bytes)
    ensures Split(c, id, ct, pri, payload).Some? <==> |Packed(c, payload)| <= 65535 * 524288
  {
    ChunkCount(Packed(c, payload));
  }

  /** The flags of a fragment: one for compressed, two for fragmented. */
  function FlagBits(payload: Bytes, total: nat): byte
  {
    (if |payload| > 256 then 1 else 0) + (if total > 1 then 2 else 0)
  }

  /** Each fragment, in full: its header fields and its part of what travels. */
  lemma SplitInto(c: Codec, id: u64, ct: byte, pri: byte, payload: Bytes, i: nat)
    requires Split(c, id, ct, pri, payload).Some? && i < |Split(c, id, ct, pri, payload).value|
    ensures var fs, data := Split(c, id, ct, pri, payload).value, Packed(c, payload);
            && |fs| == Pieces(|data|) && i * 524288 <= |data|
            && fs[i].payload == (if (i + 1) * 524288 <= |data| then data[i * 524288..(i + 1) * 524288] else data[i * 524288..])
            && |fs[i].payload| <= 524288
            && fs[i].header == Header(id, 0, ct, FlagBits(payload, |fs|), pri, i, |fs|, |fs[i].payload|)
  {
    ChunkCount(Packed(c, payload));
    ChunkAt(Packed(c, payload), i);
  }

  method SplitBytes(data: Bytes) returns (chunks: seq<Bytes>)
    ensures chunks == Chunks(data)
  {
    if |data| == 0 {
      return [data];
    }
    var rest := data;
    chunks := [];
    while |rest| > 0
      invariant rest == [] ==> chunks == Chunks(data)
      invariant rest != [] ==> chunks + Chunks(rest) == Chunks(data)
      decreases |rest|
    {
      var n := if CHUNK_SIZE > |rest| then |rest| else CHUNK_SIZE;
      assert n == |rest| ==> rest[..n] == rest;
      chunks := chunks + [rest[..n]];
      rest := rest[n..];
    }
  }

  // ---------------------------------------------------------------- reassembly

  /** Reassembly in progress for one message ID. */
  datatype Stream = Stream(frags: seq<Option<Bytes>>, received: nat, arrivedAt: int)

  type Streams = map<u64, Stream>

  /** What Add tells its caller; `Panic` is an index past the end of the fragment table. */
  datatype Outcome = Incomplete | Complete(payload: Bytes) | Invalid | TooMany | Corrupt | Panic

  predicate ValidFragment(h: Header, payload: Bytes)
  {
    h.fragTotal != 0 && h.fragIndex < h.fragTotal && |payload| % 0x1_0000_0000 == h.payloadLen
  }

  function Finish(c: Codec, data: Bytes, flags: byte): Outcome
  {
    match Unpack(c, data, flags)
    case None => Corrupt
    case Some(p) => Complete(p)
  }

  /** The stream of a fragment's message, opened if there is room for it. */
  function GetOrCreate(st: Streams, h: Header, now: int): Option<Stream>
  {
    if h.msgID in st then Some(st[h.msgID])
    else if |st| >= MAX_STREAMS then None
    else Some(Stream(seq(h.fragTotal, _ => None), 0, now))
  }

  function Bodies(frags: seq<Option<Bytes>>): seq<Bytes>
  {
    seq(|frags|, i requires 0 <= i < |frags| => if frags[i].Some? then frags[i].value else [])
  }

  /** One arriving fragment: the new table and what the caller is told. */
  function Add(c: Codec, st: Streams, m: Message, now: int): (Streams, Outcome)
  {
    var h := m.header;
    if !ValidFragment(h, m.payload) then (st, Invalid)
    else if h.fragTotal == 1 then (st, Finish(c, m.payload, h.flags))
    else
      match GetOrCreate(st, h, now)
      case None => (st, TooMany)
      case Some(s) =>
        if h.fragIndex >= |s.frags| then (st[h.msgID := s], Panic)
        else if s.frags[h.fragIndex].Some? then (st[h.msgID := s], Incomplete)
        else
          var s' := Stream(s.frags[h.fragIndex := Some(m.payload)], s.received + 1, s.arrivedAt);
          if s'.received == |s'.frags| then (st - {h.msgID}, Finish(c, Join(Bodies(s'.frags)), h.flags))
          else (st[h.msgID := s'], Incomplete)
  }

  function Purge(st: Streams, cutoff: int): Streams
  {
    map id | id in st && !(st[id].arrivedAt < cutoff) :: st[id]
  }

  /** Every way a fragment can be turned away, and what it leaves behind. */
  lemma AddRefuses(c: Codec, st: Streams, m: Message, now: int)
    ensures var h := m.header;
            var (st', r) := Add(c, st, m, now);
            var valid := h.fragTotal > 0 && h.fragIndex < h.fragTotal && |m.payload| % 0x1_0000_0000 == h.payloadLen;
            && (r == Invalid <==> !valid)
            && (r == TooMany <==> valid && h.fragTotal > 1 && h.msgID !in st && |st| >= 1024)
            && (r == Panic <==> valid && h.fragTotal > 1 && h.msgID in st && h.fragIndex >= |st[h.msgID].frags|)
            && (r == Invalid || r == TooMany || r == Panic ==> st' == st)
            && (forall id :: id != h.msgID ==> (id in st' <==> id in st) && (id in st ==> st'[id] == st[id]))
  {
  }

  /**
   * When a message is whole, and what is then handed up: the single fragment, or the joined ones once
   * the last has come; compressed data as it decompresses, or refused when it does not.
   */
  lemma AddFinishes(c: Codec, st: Streams, m: Message, now: int)
    requires ValidFragment(m.header, m.payload)
    ensures var h := m.header;
            var r := Add(c, st, m, now).1;
            var last := h.msgID in st && h.fragIndex < |st[h.msgID].frags| && st[h.msgID].frags[h.fragIndex].None? && st[h.msgID].received + 1 == |st[h.msgID].frags|;
            && (r.Complete? || r == Corrupt <==> h.fragTotal == 1 || last)
            && (h.fragTotal == 1 || last ==>
                  var data := if h.fragTotal == 1 then m.payload else Join(Bodies(st[h.msgID].frags[h.fragIndex := Some(m.payload)]));
                  && (h.flags % 2 == 0 ==> r == Complete(data))
                  && (h.flags % 2 == 1 && c.decompress(data).None? ==> r == Corrupt)
                  && (h.flags % 2 == 1 && c.decompress(data).Some? ==> r == Complete(c.decompress(data).value)))
  {
  }

  /** A stream keeps the time of its first fragment. */
  lemma AddKeepsTime(c: Codec, st: Streams, m: Message, now: int)
    ensures var (st', r) := Add(c, st, m, now);
            m.header.msgID in st' ==> st'[m.header.msgID].arrivedAt == if m.header.msgID in st then st[m.header.msgID].arrivedAt else now
  {
  }

  /** Only streams whose first fragment came before the cutoff are purged. */
  lemma PurgeIff(st: Streams, cutoff: int, id: u64)
    ensures id in Purge(st, cutoff) <==> id in st && st[id].arrivedAt >= cutoff
    ensures id in Purge(st, cutoff) ==> Purge(st, cutoff)[id] == st[id]
  {
  }

  class Assembler {
    var streams: Streams

    constructor ()
      ensures streams == map[]
    {
      streams := map[];
    }

    static method JoinChunks(frags: seq<Option<Bytes>>) returns (out: Bytes)
      ensures out == Join(Bodies(frags))
    {
      out := [];
      for i := 0 to |frags|
        invariant out == Join(Bodies(frags)[..i])
      {
        assert Bodies(frags)[..i + 1][..i] == Bodies(frags)[..i];
        match frags[i] {
          case Some(b) => out := out + b;
          case None =>
        }
      }
      assert Bodies(frags)[..|frags|] == Bodies(frags);
    }

    method AddFragment(c: Codec, m: Message, now: int) returns (r: Outcome)
      modifies this
      ensures (streams, r) == Add(c, old(streams), m, now)
    {
      var h := m.header;
      if !ValidFragment(h, m.payload) {
        return Invalid;
      }
      if h.fragTotal == 1 {
        return Finish(c, m.payload, h.flags);
      }
      var s;
      if h.msgID in streams {
        s := streams[h.msgID];
      } else {
        if |streams| >= MAX_STREAMS {
          return TooMany;
        }
        s := Stream(seq(h.fragTotal, _ => None), 0, now);
        streams := streams[h.msgID := s];
      }
      assert old(streams)[h.msgID := s] == streams;
      if h.fragIndex >= |s.frags| {
        return Panic;
      }
      if s.frags[h.fragIndex].Some? {
        return Incomplete;
      }
      s := Stream(s.frags[h.fragIndex := Some(m.payload)], s.received + 1, s.arrivedAt);
      streams := streams[h.msgID := s];
      assert streams == old(streams)[h.msgID := s];
      if s.received != |s.frags| {
        return Incomplete;
      }
      var assembled := JoinChunks(s.frags);
      streams := streams - {h.msgID};
      assert streams == old(streams) - {h.msgID};
      return Finish(c, assembled, h.flags);
    }

    method PurgeOlder(cutoff: int)
      modifies this
      ensures streams == Purge(old(streams), cutoff)
    {
      var ids := streams.Keys;
      while ids != {}
        invariant ids <= old(streams).Keys
        invariant streams == map id | id in old(streams) && (id in ids || !(old(streams)[id].arrivedAt < cutoff)) :: old(streams)[id]
        decreases ids
      {
        var id :| id in ids;
        if streams[id].arrivedAt < cutoff {
          streams := streams - {id};
        }
        ids := ids - {id};
      }
    }
  }
}
