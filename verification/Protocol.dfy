/** The 20-byte message header (pkg/protocol). */
module Protocol {
  import opened Bytes

  const HEADER_SIZE: nat := 20

  const MSG_DATA: byte := 0
  const MSG_ACK: byte := 1
  const MSG_NACK: byte := 2
  const MSG_PING: byte := 3
  const MSG_PONG: byte := 4

  const CONTENT_TEXT: byte := 2

  const PRIORITY_NORMAL: byte := 1

  datatype Header = Header(
    msgID: u64, msgType: byte, contentType: byte, flags: byte, priority: byte,
    fragIndex: u16, fragTotal: u16, payloadLen: u32)

  datatype Message = Message(header: Header, payload: Bytes)

  function HeaderBytes(h: Header): (b: Bytes)
    ensures |b| == HEADER_SIZE
  {
    PutBE(h.msgID, 8) + [h.msgType, h.contentType, h.flags, h.priority]
    + PutBE(h.fragIndex, 2) + PutBE(h.fragTotal, 2) + PutBE(h.payloadLen, 4)
  }

  function DecodeHeader(b: Bytes): Header
    requires |b| == HEADER_SIZE
  {
    Pow256Values();
    Header(GetBE(b[0..8]), b[8], b[9], b[10], b[11], GetBE(b[12..14]), GetBE(b[14..16]), GetBE(b[16..20]))
  }

  /** No two headers share an image, and decoding finds the one that was encoded. */
  lemma DecodeEncode(h: Header)
    ensures DecodeHeader(HeaderBytes(h)) == h
  {
    Pow256Values();
    var b := HeaderBytes(h);
    assert b[0..8] == PutBE(h.msgID, 8);
    assert b[12..14] == PutBE(h.fragIndex, 2);
    assert b[14..16] == PutBE(h.fragTotal, 2);
    assert b[16..] == PutBE(h.payloadLen, 4) && b[16..20] == b[16..];
    GetPut(h.msgID, 8);
    GetPut(h.fragIndex, 2);
    GetPut(h.fragTotal, 2);
    GetPut(h.payloadLen, 4);
  }

  /** Every 20 bytes are the image of a header: the format has no unused bit pattern. */
  lemma EncodeDecode(b: Bytes)
    requires |b| == HEADER_SIZE
    ensures HeaderBytes(DecodeHeader(b)) == b
  {
    PutGet(b[0..8]);
    PutGet(b[12..14]);
    PutGet(b[14..16]);
    PutGet(b[16..20]);
    assert b == b[0..8] + [b[8], b[9], b[10], b[11]] + b[12..14] + b[14..16] + b[16..20];
  }

  /** Where each field is among the 20 bytes, most significant byte first. */
  lemma HeaderLayout(h: Header)
    ensures var b := HeaderBytes(h);
            && |b| == 20
            && At8(b, 0) == h.msgID && b[8] == h.msgType && b[9] == h.contentType && b[10] == h.flags && b[11] == h.priority
            && At2(b, 12) == h.fragIndex && At2(b, 14) == h.fragTotal && At4(b, 16) == h.payloadLen
  {
    var b := HeaderBytes(h);
    DecodeEncode(h);
    BigEndian(b, 0);
    BigEndian(b, 12);
    BigEndian(b, 14);
    BigEndian(b, 16);
  }

  method EncodeHeader(h: Header) returns (b: array<byte>)
    ensures fresh(b) && b.Length == HEADER_SIZE
    ensures b[..] == HeaderBytes(h)
  {
    b := new byte[HEADER_SIZE](_ => 0);
    PutUint(b, 0, 8, h.msgID);
    b[8] := h.msgType;
    b[9] := h.contentType;
    b[10] := h.flags;
    b[11] := h.priority;
    ghost var front := PutBE(h.msgID, 8) + [h.msgType, h.contentType, h.flags, h.priority];
    assert b[..12] == front;
    PutUint(b, 12, 2, h.fragIndex);
    front := front + PutBE(h.fragIndex, 2);
    assert b[..14] == front;
    PutUint(b, 14, 2, h.fragTotal);
    front := front + PutBE(h.fragTotal, 2);
    assert b[..16] == front;
    PutUint(b, 16, 4, h.payloadLen);
    assert b[..] == front + PutBE(h.payloadLen, 4);
  }
}
