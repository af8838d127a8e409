/**
 * The same framing over an encrypted session (pkg/crypto), which carries messages and not bytes:
 * each Write is one frame, and a Read that asks for less than a frame loses the rest of it.
 * The cipher is a reliable pipe that adds a 16-byte tag.
 */
module Session {
  import opened Bytes
  import opened Protocol
  import Conn

  const TAG: nat := 16
  const FRAME_LIMIT: nat := 8 * 1024 * 1024

  /**
   * io.ReadFull over Session.Read.  A frame longer than what is still wanted fills the buffer, so
   * ReadFull reports success and the tail of the frame is gone.
   */
  function ReadFull(fs: seq<Bytes>, n: nat): Option<(Bytes, seq<Bytes>)>
  {
    if n == 0 then Some(([], fs))
    else if fs == [] || |fs[0]| + TAG > FRAME_LIMIT then None
    else if |fs[0]| >= n then Some((fs[0][..n], fs[1..]))
    else
      match ReadFull(fs[1..], n - |fs[0]|)
      case None => None
      case Some((b, rest)) => Some((fs[0] + b, rest))
  }

  lemma ReadFullShrinks(fs: seq<Bytes>, n: nat)
    ensures ReadFull(fs, n).Some? ==> |ReadFull(fs, n).value.0| == n && |ReadFull(fs, n).value.1| <= |fs|
    ensures ReadFull(fs, n).Some? && n > 0 ==> |ReadFull(fs, n).value.1| < |fs|
  {
  }

  function ReadMsg(fs: seq<Bytes>): (r: Option<(Message, seq<Bytes>)>)
    ensures r.Some? ==> |r.value.1| < |fs|
  {
    ReadFullShrinks(fs, HEADER_SIZE);
    match ReadFull(fs, HEADER_SIZE)
    case None => None
    case Some((hdr, rest)) =>
      var h := DecodeHeader(hdr);
      ReadFullShrinks(rest, h.payloadLen);
      if h.payloadLen > Conn.MAX_PAYLOAD then None
      else
        match ReadFull(rest, h.payloadLen)
        case None => None
        case Some((body, rest2)) => Some((Message(h, body), rest2))
  }

  function ReadAll(fs: seq<Bytes>): seq<Message>
    decreases |fs|
  {
    match ReadMsg(fs)
    case None => []
    case Some((m, rest)) => [m] + ReadAll(rest)
  }

  /**
   * A message that leaves as one frame is read without an error and wrongly: its header, and as its
   * payload the beginning of the next frame.  The rest of both is gone.
   */
  lemma MergedReadsNext(m: Message, next: Bytes, fs: seq<Bytes>)
    requires 0 < |m.payload| <= |next| <= 8388592 && |Conn.Frame(m)| <= 8388592
    ensures ReadMsg([Conn.Frame(m)] + [next] + fs) == Some((Message(Conn.Stamp(m).header, next[..|m.payload|]), fs))
  {
    var b := Conn.Frame(m);
    DecodeEncode(Conn.Stamp(m).header);
    assert b[..HEADER_SIZE] == HeaderBytes(Conn.Stamp(m).header);
    assert ([b] + [next] + fs)[1..] == [next] + fs;
    assert ([next] + fs)[1..] == fs;
  }

  // ---------------------------------------------------------------- any cut into session frames

  predicate NonEmpty(fs: seq<Bytes>) { forall i :: 0 <= i < |fs| ==> fs[i] != [] }

  /** Every frame passes the reader's guard with its tag. */
  predicate InLimit(fs: seq<Bytes>) { forall i :: 0 <= i < |fs| ==> |fs[i]| + TAG <= FRAME_LIMIT }

  /** One frame ends, or the first begins, after `p` bytes. */
  ghost predicate Boundary(fs: seq<Bytes>, p: nat)
  {
    exists j :: 0 <= j <= |fs| && |Concat(fs[..j])| == p
  }

  /** Where the header and the payload of message `i` end in the stream. */
  function HeaderEnd(ms: seq<Message>, i: nat): nat
    requires i < |ms|
  {
    |Conn.Frames(ms[..i])| + HEADER_SIZE
  }

  function PayloadEnd(ms: seq<Message>, i: nat): nat
    requires i < |ms|
  {
    |Conn.Frames(ms[..i + 1])|
  }

  ghost predicate Aligned(fs: seq<Bytes>, ms: seq<Message>, i: nat)
    requires i < |ms|
  {
    Boundary(fs, HeaderEnd(ms, i)) && Boundary(fs, PayloadEnd(ms, i))
  }

  /** Every header and every payload ends where a session frame ends. */
  ghost predicate AllAligned(fs: seq<Bytes>, ms: seq<Message>)
  {
    forall i :: 0 <= i < |ms| ==> Aligned(fs, ms, i)
  }

  lemma ConcatSplit(fs: seq<Bytes>, j: nat)
    requires j <= |fs|
    ensures Concat(fs) == Concat(fs[..j]) + Concat(fs[j..])
  {
    SplitAt(fs, j);
    ConcatAppend(fs[..j], fs[j..]);
  }

  lemma ConcatEmpty(fs: seq<Bytes>)
    requires NonEmpty(fs) && Concat(fs) == []
    ensures fs == []
  {
  }

  /** Counting bytes from the boundary `j`. */
  lemma BoundaryShift(fs: seq<Bytes>, j: nat, p: nat)
    requires j <= |fs|
    ensures Boundary(fs, |Concat(fs[..j])| + p) <==> Boundary(fs[j..], p)
  {
    var n := |Concat(fs[..j])|;
    if Boundary(fs[j..], p) {
      var k :| 0 <= k <= |fs[j..]| && |Concat(fs[j..][..k])| == p;
      SplitTwice(fs, j, j + k);
      ConcatAppend(fs[..j], fs[j..][..k]);
    }
    if Boundary(fs, n + p) {
      var k :| 0 <= k <= |fs| && |Concat(fs[..k])| == n + p;
      if k >= j {
        SplitTwice(fs, j, k);
        ConcatAppend(fs[..j], fs[j..][..k - j]);
      } else {
        ConcatSplit(fs[..j], k);
        assert fs[..j][..k] == fs[..k];
        assert fs[j..][..0] == [];
      }
    }
  }

  lemma FramesCons(ms: seq<Message>, i: nat)
    requires i < |ms|
    ensures |Conn.Frames(ms[..i + 1])| == HEADER_SIZE + |ms[0].payload| + |Conn.Frames(ms[1..][..i])|
  {
    assert ms[..i + 1][1..] == ms[1..][..i];
    assert Conn.Frames(ms[..i + 1]) == Conn.Frame(ms[0]) + Conn.Frames(ms[1..][..i]);
  }

  lemma EndsOfRest(ms: seq<Message>, i: nat)
    requires i + 1 < |ms|
    ensures HeaderEnd(ms, i + 1) == HEADER_SIZE + |ms[0].payload| + HeaderEnd(ms[1..], i)
    ensures PayloadEnd(ms, i + 1) == HEADER_SIZE + |ms[0].payload| + PayloadEnd(ms[1..], i)
  {
    FramesCons(ms, i);
    FramesCons(ms, i + 1);
  }

  lemma EndsOfFirst(ms: seq<Message>)
    requires ms != []
    ensures HeaderEnd(ms, 0) == HEADER_SIZE && PayloadEnd(ms, 0) == HEADER_SIZE + |ms[0].payload|
  {
    FramesCons(ms, 0);
    assert Conn.Frames(ms[..0]) == [] && ms[1..][..0] == [];
  }

  lemma AlignedShift(fs: seq<Bytes>, ms: seq<Message>, j: nat, i: nat)
    requires i + 1 < |ms| && j <= |fs| && |Concat(fs[..j])| == HEADER_SIZE + |ms[0].payload|
    ensures Aligned(fs, ms, i + 1) <==> Aligned(fs[j..], ms[1..], i)
  {
    EndsOfRest(ms, i);
    BoundaryShift(fs, j, HeaderEnd(ms[1..], i));
    BoundaryShift(fs, j, PayloadEnd(ms[1..], i));
  }

  /** The ends of the first message, and those of the rest counted from its end. */
  lemma AllAlignedCons(fs: seq<Bytes>, ms: seq<Message>, j: nat)
    requires ms != [] && j <= |fs| && |Concat(fs[..j])| == HEADER_SIZE + |ms[0].payload|
    ensures AllAligned(fs, ms) <==> Boundary(fs, HEADER_SIZE) && AllAligned(fs[j..], ms[1..])
  {
    var rest := ms[1..];
    EndsOfFirst(ms);
    assert Aligned(fs, ms, 0) <==> Boundary(fs, HEADER_SIZE);
    if AllAligned(fs, ms) {
      forall i | 0 <= i < |rest| ensures Aligned(fs[j..], rest, i) {
        AlignedShift(fs, ms, j, i);
      }
    }
    if Boundary(fs, HEADER_SIZE) && AllAligned(fs[j..], rest) {
      forall i | 0 <= i < |ms| ensures Aligned(fs, ms, i) {
        if i > 0 {
          AlignedShift(fs, ms, j, i - 1);
        }
      }
    }
  }

  /** What a read takes: whole frames, at least as many bytes as it returns. */
  lemma {:induction false} ReadFullTakes(fs: seq<Bytes>, n: nat) returns (j: nat)
    requires ReadFull(fs, n).Some?
    ensures j <= |fs| && ReadFull(fs, n).value.1 == fs[j..] && |ReadFull(fs, n).value.0| == n <= |Concat(fs[..j])| && InLimit(fs[..j])
  {
    if n == 0 {
      j := 0;
    } else if |fs[0]| >= n {
      j := 1;
      assert fs[..1] == [fs[0]] && Concat([fs[0]]) == fs[0] + Concat([]);
    } else {
      var k := ReadFullTakes(fs[1..], n - |fs[0]|);
      j := k + 1;
      assert fs[..j][0] == fs[0] && fs[..j][1..] == fs[1..][..k];
    }
  }

  /** Up to a boundary a read returns exactly the bytes of the frames before it. */
  lemma {:induction false} ReadFullToBoundary(fs: seq<Bytes>, j: nat)
    requires j <= |fs| && NonEmpty(fs) && InLimit(fs)
    ensures ReadFull(fs, |Concat(fs[..j])|) == Some((Concat(fs[..j]), fs[j..]))
  {
    if j > 0 {
      assert fs[..j][0] == fs[0] && fs[..j][1..] == fs[1..][..j - 1];
      ReadFullToBoundary(fs[1..], j - 1);
      assert fs[0][..|fs[0]|] == fs[0];
      if j == 1 {
        assert Concat(fs[..j]) == fs[0];
      } else {
        assert fs[1..][..j - 1] != [] && NonEmpty(fs[1..][..j - 1]);
        assert Concat(fs[1..][..j - 1]) != [] by {
          if Concat(fs[1..][..j - 1]) == [] {
            ConcatEmpty(fs[1..][..j - 1]);
          }
        }
      }
    }
  }

  /** One message read: the frames it takes, and how many bytes are lost with them. */
  lemma ReadMsgTakes(fs: seq<Bytes>) returns (j: nat, k: nat)
    requires ReadMsg(fs).Some?
    ensures var (m, rest) := ReadMsg(fs).value;
            && j <= k <= |fs| && rest == fs[k..] && InLimit(fs[..k])
            && |Concat(fs[..j])| >= HEADER_SIZE
            && |Concat(fs[..k])| >= |Concat(fs[..j])| + |m.payload|
  {
    j := ReadFullTakes(fs, HEADER_SIZE);
    var i := ReadFullTakes(fs[j..], ReadMsg(fs).value.0.header.payloadLen);
    k := j + i;
    SplitTwice(fs, j, k);
    ConcatAppend(fs[..j], fs[j..][..i]);
  }

  /**
   * Reads return no more than the frames hold; and if they return as much, nothing was lost: no frame
   * was refused, and every header and payload ended with a frame.
   */
  lemma {:induction false} NothingLost(fs: seq<Bytes>)
    requires NonEmpty(fs)
    ensures |Conn.Frames(ReadAll(fs))| <= |Concat(fs)|
    ensures |Conn.Frames(ReadAll(fs))| == |Concat(fs)| ==> InLimit(fs) && AllAligned(fs, ReadAll(fs))
    decreases |fs|
  {
    var ms := ReadAll(fs);
    if ReadMsg(fs).None? {
      if Concat(fs) == [] {
        ConcatEmpty(fs);
      }
    } else {
      var (m, rest) := ReadMsg(fs).value;
      var j, k := ReadMsgTakes(fs);
      ConcatSplit(fs, k);
      NothingLost(rest);
      assert ms[0] == m && ms[1..] == ReadAll(rest);
      assert Conn.Frames(ms) == Conn.Frame(m) + Conn.Frames(ReadAll(rest));
      if |Conn.Frames(ms)| == |Concat(fs)| {
        assert |Concat(fs[..j])| == HEADER_SIZE;
        AllAlignedCons(fs, ms, k);
        assert InLimit(fs) by {
          assert forall i :: 0 <= i < k ==> fs[..k][i] == fs[i];
          assert forall i :: k <= i < |fs| ==> rest[i - k] == fs[i];
        }
      }
    }
  }

  /** A boundary splits the frames where it splits their bytes. */
  lemma CutAt(fs: seq<Bytes>, x: Bytes, y: Bytes) returns (j: nat)
    requires Concat(fs) == x + y && Boundary(fs, |x|)
    ensures j <= |fs| && Concat(fs[..j]) == x && Concat(fs[j..]) == y
  {
    j :| 0 <= j <= |fs| && |Concat(fs[..j])| == |x|;
    ConcatSplit(fs, j);
    assert Concat(fs)[..|x|] == x && Concat(fs)[|x|..] == y;
  }

  lemma ReadMsgOf(fs: seq<Bytes>, j: nat, k: nat, m: Message)
    requires NonEmpty(fs) && InLimit(fs) && j <= k <= |fs| && |m.payload| <= Conn.MAX_PAYLOAD
    requires Concat(fs[..j]) == HeaderBytes(Conn.Stamp(m).header) && Concat(fs[j..][..k - j]) == m.payload
    ensures ReadMsg(fs) == Some((Conn.Stamp(m), fs[k..]))
  {
    ReadFullToBoundary(fs, j);
    ReadFullToBoundary(fs[j..], k - j);
    DecodeEncode(Conn.Stamp(m).header);
    SplitTwice(fs, j, k);
  }

  lemma ReadMsgAligned(fs: seq<Bytes>, m: Message, more: Bytes) returns (k: nat)
    requires NonEmpty(fs) && InLimit(fs) && Concat(fs) == Conn.Frame(m) + more && |m.payload| <= Conn.MAX_PAYLOAD
    requires Boundary(fs, HEADER_SIZE) && Boundary(fs, HEADER_SIZE + |m.payload|)
    ensures k <= |fs| && ReadMsg(fs) == Some((Conn.Stamp(m), fs[k..]))
    ensures |Concat(fs[..k])| == HEADER_SIZE + |m.payload| && Concat(fs[k..]) == more
  {
    var hdr := HeaderBytes(Conn.Stamp(m).header);
    Assoc(hdr, m.payload, more);
    var j := CutAt(fs, hdr, m.payload + more);
    BoundaryShift(fs, j, |m.payload|);
    var i := CutAt(fs[j..], m.payload, more);
    k := j + i;
    ReadMsgOf(fs, j, k, m);
    SplitTwice(fs, j, k);
    ConcatAppend(fs[..j], fs[j..][..i]);
  }

  lemma {:induction false} AlignedReadsBack(fs: seq<Bytes>, ms: seq<Message>)
    requires NonEmpty(fs) && InLimit(fs) && Concat(fs) == Conn.Frames(ms) && Conn.Sendable(ms) && AllAligned(fs, ms)
    ensures ReadAll(fs) == Conn.Stamps(ms)
    decreases |ms|
  {
    if ms == [] {
      ConcatEmpty(fs);
    } else {
      EndsOfFirst(ms);
      assert Aligned(fs, ms, 0);
      var k := ReadMsgAligned(fs, ms[0], Conn.Frames(ms[1..]));
      AllAlignedCons(fs, ms, k);
      AlignedReadsBack(fs[k..], ms[1..]);
      AllFitCons(ms);
    }
  }

  lemma AlignedStamps(fs: seq<Bytes>, ms: seq<Message>)
    ensures AllAligned(fs, Conn.Stamps(ms)) <==> AllAligned(fs, ms)
  {
    forall i | 0 <= i < |ms| ensures Aligned(fs, Conn.Stamps(ms), i) <==> Aligned(fs, ms, i) {
      Conn.FramesOfStamps(ms[..i]);
      Conn.FramesOfStamps(ms[..i + 1]);
      assert Conn.Stamps(ms)[..i] == Conn.Stamps(ms[..i]);
      assert Conn.Stamps(ms)[..i + 1] == Conn.Stamps(ms[..i + 1]);
    }
  }

  /**
   * Framing over a session, for every way of cutting the stream of frames into session frames
   * (batched, unbatched, whatever the buffer size and the flushes): the messages are read back
   * exactly when every session frame passes the 8 MiB guard with its tag, and every header and every
   * payload ends with a session frame.
   */
  lemma ReadsBackIff(fs: seq<Bytes>, ms: seq<Message>)
    requires NonEmpty(fs) && Concat(fs) == Conn.Frames(ms) && Conn.Sendable(ms)
    ensures ReadAll(fs) == Conn.Stamps(ms) <==> InLimit(fs) && AllAligned(fs, ms)
  {
    if ReadAll(fs) == Conn.Stamps(ms) {
      NothingLost(fs);
      Conn.FramesOfStamps(ms);
      AlignedStamps(fs, ms);
    }
    if InLimit(fs) && AllAligned(fs, ms) {
      AlignedReadsBack(fs, ms);
    }
  }

  // ---------------------------------------------------------------- the two extreme cuts

  /** The unbatched writer: one frame for each header and one for each payload that is not empty. */
  function WritesAll(ms: seq<Message>): seq<Bytes>
  {
    if ms == [] then [] else Conn.Writes(ms[0]) + WritesAll(ms[1..])
  }

  predicate Fits(m: Message)
  {
    |m.payload| + TAG <= FRAME_LIMIT
  }

  predicate AllFit(ms: seq<Message>)
  {
    forall i :: 0 <= i < |ms| ==> Fits(ms[i])
  }

  lemma AllFitCons(ms: seq<Message>)
    requires ms != []
    ensures AllFit(ms) <==> Fits(ms[0]) && AllFit(ms[1..])
    ensures Conn.Stamps(ms) == [Conn.Stamp(ms[0])] + Conn.Stamps(ms[1..])
  {
    if Fits(ms[0]) && AllFit(ms[1..]) {
      forall i | 0 <= i < |ms| ensures Fits(ms[i]) {
        assert i > 0 ==> ms[i] == ms[1..][i - 1];
      }
    }
  }

  /** The largest payload that fits: 16 bytes under 8 MiB. */
  lemma FitsIff(m: Message)
    ensures Fits(m) <==> |m.payload| <= 8388592
  {
  }

  lemma WritesOne(m: Message)
    ensures Concat(Conn.Writes(m)) == Conn.Frame(m) && NonEmpty(Conn.Writes(m)) && (InLimit(Conn.Writes(m)) <==> Fits(m))
    ensures Boundary(Conn.Writes(m), HEADER_SIZE)
  {
    var hdr := HeaderBytes(Conn.Stamp(m).header);
    assert Conn.Writes(m)[..1] == [hdr];
    assert Concat([hdr]) == hdr + Concat([]);
    if m.payload != [] {
      assert Conn.Writes(m)[1..] == [m.payload];
      assert Concat([m.payload]) == m.payload + Concat([]);
      assert Conn.Writes(m)[1] == m.payload;
    }
  }

  lemma InLimitAppend(a: seq<Bytes>, b: seq<Bytes>)
    ensures InLimit(a + b) <==> InLimit(a) && InLimit(b)
  {
    if InLimit(a + b) {
      assert forall i :: 0 <= i < |a| ==> (a + b)[i] == a[i];
      assert forall i :: 0 <= i < |b| ==> (a + b)[|a| + i] == b[i];
    }
  }

  lemma BoundaryOfPrefix(a: seq<Bytes>, b: seq<Bytes>, p: nat)
    requires Boundary(a, p)
    ensures Boundary(a + b, p)
  {
    var j :| 0 <= j <= |a| && |Concat(a[..j])| == p;
    assert (a + b)[..j] == a[..j];
  }

  lemma {:induction false} WritesAllCut(ms: seq<Message>)
    ensures NonEmpty(WritesAll(ms)) && Concat(WritesAll(ms)) == Conn.Frames(ms)
    ensures AllAligned(WritesAll(ms), ms) && (InLimit(WritesAll(ms)) <==> AllFit(ms))
  {
    if ms != [] {
      var a, b := Conn.Writes(ms[0]), WritesAll(ms[1..]);
      WritesAllCut(ms[1..]);
      WritesOne(ms[0]);
      ConcatAppend(a, b);
      InLimitAppend(a, b);
      AllFitCons(ms);
      BoundaryOfPrefix(a, b, HEADER_SIZE);
      assert (a + b)[..|a|] == a && (a + b)[|a|..] == b;
      AllAlignedCons(a + b, ms, |a|);
    }
  }

  /**
   * Over a session the unbatched writer is inverted exactly when every payload fits one session
   * frame with its tag.  That is 16 bytes under 8 MiB, not the 16 MiB the reader of frames admits.
   */
  lemma UnbatchedReadsBackIff(ms: seq<Message>)
    requires Conn.Sendable(ms)
    ensures ReadAll(WritesAll(ms)) == Conn.Stamps(ms) <==> AllFit(ms)
  {
    WritesAllCut(ms);
    ReadsBackIff(WritesAll(ms), ms);
  }

  lemma BoundaryOfOne(f: Bytes, p: nat)
    ensures Boundary([f], p) <==> p == 0 || p == |f|
  {
    assert Concat([f]) == f + Concat([]);
    assert [f][..0] == [] && [f][..1] == [f];
  }

  /**
   * Batching over a session merges frames.  A non-empty batch that leaves the buffer as one
   * session frame reads back exactly when it is a single message without a payload; any other
   * batch loses bytes silently.
   */
  lemma MergedBatchReadsBackIff(ms: seq<Message>)
    requires ms != [] && Conn.Sendable(ms)
    ensures ReadAll([Conn.Frames(ms)]) == Conn.Stamps(ms) <==> |ms| == 1 && ms[0].payload == []
  {
    var f := Conn.Frames(ms);
    var fs: seq<Bytes> := [f];
    assert f == Conn.Frame(ms[0]) + Conn.Frames(ms[1..]);
    assert Concat([f]) == f + Concat([]);
    ReadsBackIff(fs, ms);
    BoundaryOfOne(f, HEADER_SIZE);
    assert fs[..1] == fs && fs[1..] == [];
    EndsOfFirst(ms);
    if |ms| == 1 && ms[0].payload == [] {
      assert ms[1..] == [];
      AllAlignedCons(fs, ms, 1);
    } else if AllAligned(fs, ms) {
      assert Aligned(fs, ms, 0);
    }
  }
}
