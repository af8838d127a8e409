/**
 * Batching over an encrypted session (pkg/conn, WriteMsg with BatchSize > 0): which cuts the buffered
 * writer makes, and so for which operations the messages are read back.
 */
module Batching {
  import opened Bytes
  import opened Protocol
  import opened Conn
  import opened Session

  // ---------------------------------------------------------------- the condition

  /** The message leaves bytes in the buffer. */
  predicate Lingers(size: nat, m: Message)
  {
    size > HEADER_SIZE || 0 < |m.payload| < size
  }

  predicate TickBetween(ops: seq<Op>, i: nat, j: nat)
  {
    exists k :: i < k < j && k < |ops| && ops[k].Tick?
  }

  /** A message that leaves bytes in the buffer is flushed by a tick before the next message comes. */
  ghost predicate Flushes(size: nat, ops: seq<Op>)
  {
    forall i, j :: 0 <= i < j < |ops| && ops[i].Put? && Lingers(size, ops[i].msg) && ops[j].Put? ==> TickBetween(ops, i, j)
  }

  /** No header shares a buffer with its payload. */
  ghost predicate HeadersAlone(size: nat, ops: seq<Op>)
  {
    size > HEADER_SIZE ==> forall i :: 0 <= i < |ops| && ops[i].Put? ==> ops[i].msg.payload == []
  }

  ghost predicate Spaced(size: nat, ops: seq<Op>) { Flushes(size, ops) && HeadersAlone(size, ops) }

  /** A message since the last tick left bytes in the buffer. */
  predicate Dirty(size: nat, ops: seq<Op>)
  {
    ops != [] && match ops[|ops| - 1]
                 case Tick => false
                 case Put(m) => Lingers(size, m) || Dirty(size, ops[..|ops| - 1])
  }

  lemma TickInFront(ops: seq<Op>, i: nat)
    requires ops != []
    ensures var n := |ops| - 1;
            && (TickBetween(ops, i, n) <==> TickBetween(ops[..n], i, n))
            && (TickBetween(ops, i, |ops|) <==> TickBetween(ops[..n], i, n) || (i < n && ops[n].Tick?))
  {
    var n := |ops| - 1;
    var front := ops[..n];
    if TickBetween(front, i, n) {
      var k :| i < k < n && k < |front| && front[k].Tick?;
      assert ops[k].Tick?;
    }
    if TickBetween(ops, i, |ops|) {
      var k :| i < k < |ops| && ops[k].Tick?;
      assert k < n ==> front[k].Tick?;
    }
  }

  /** A message that leaves bytes in the buffer, with no tick after it. */
  ghost predicate Left(size: nat, ops: seq<Op>, i: nat)
  {
    i < |ops| && ops[i].Put? && Lingers(size, ops[i].msg) && !TickBetween(ops, i, |ops|)
  }

  lemma {:induction false} DirtyIff(size: nat, ops: seq<Op>)
    ensures Dirty(size, ops) <==> exists i :: 0 <= i < |ops| && Left(size, ops, i)
  {
    if ops != [] {
      var n := |ops| - 1;
      var front := ops[..n];
      DirtyIff(size, front);
      forall i | 0 <= i < n ensures Left(size, ops, i) <==> Left(size, front, i) && !ops[n].Tick? {
        TickInFront(ops, i);
        assert ops[i] == front[i];
      }
      TickInFront(ops, n);
      assert Left(size, ops, n) <==> ops[n].Put? && Lingers(size, ops[n].msg);
      if Dirty(size, ops) && Dirty(size, front) {
        var i :| 0 <= i < n && Left(size, front, i);
        assert Left(size, ops, i);
      }
    }
  }

  lemma FlushesSnoc(size: nat, ops: seq<Op>)
    requires ops != []
    ensures var n := |ops| - 1;
            Flushes(size, ops) <==> Flushes(size, ops[..n]) && (ops[n].Put? ==> !Dirty(size, ops[..n]))
  {
    var n := |ops| - 1;
    var front := ops[..n];
    DirtyIff(size, front);
    forall i, j | 0 <= i < j < n ensures TickBetween(ops, i, j) <==> TickBetween(front, i, j) {
      if TickBetween(ops, i, j) {
        var k :| i < k < j && k < |ops| && ops[k].Tick?;
        assert front[k].Tick?;
      }
      if TickBetween(front, i, j) {
        var k :| i < k < j && k < |front| && front[k].Tick?;
        assert ops[k].Tick?;
      }
    }
    forall i | 0 <= i < n ensures TickBetween(ops, i, n) <==> TickBetween(front, i, n) {
      TickInFront(ops, i);
    }
    assert forall i :: 0 <= i < n ==> front[i] == ops[i];
    if Flushes(size, ops) {
      assert Flushes(size, front);
      if ops[n].Put? {
        forall i | 0 <= i < n ensures !Left(size, front, i) {
          assert ops[i].Put? && Lingers(size, ops[i].msg) ==> TickBetween(ops, i, n);
        }
      }
    }
    if Flushes(size, front) && (ops[n].Put? ==> !Dirty(size, front)) {
      forall i, j | 0 <= i < j < |ops| && ops[i].Put? && Lingers(size, ops[i].msg) && ops[j].Put? ensures TickBetween(ops, i, j) {
        assert j == n ==> !Left(size, front, i);
      }
    }
  }

  lemma SpacedSnoc(size: nat, ops: seq<Op>)
    requires ops != []
    ensures var n := |ops| - 1;
            Spaced(size, ops) <==>
              Spaced(size, ops[..n]) &&
              (ops[n].Put? ==> !Dirty(size, ops[..n]) && (size > HEADER_SIZE ==> ops[n].msg.payload == []))
  {
    FlushesSnoc(size, ops);
    var n := |ops| - 1;
    assert forall i :: 0 <= i < n ==> ops[..n][i] == ops[i];
  }

  // ---------------------------------------------------------------- spaced traffic is cut like unbatched traffic

  /** A message that finds the buffer empty goes out in the writes of the unbatched path. */
  lemma PutClean(size: nat, k: Sink, m: Message)
    requires size > 0 && k.buf == [] && (size > HEADER_SIZE ==> m.payload == [])
    ensures var k' := Accept(size, k, m); Flushed(k').out == k.out + Writes(m) && (k'.buf != [] <==> Lingers(size, m))
  {
    var h := HeaderBytes(Stamp(m).header);
    var q := Buffer(size, k, h);
    assert k.buf + h == h;
    if size >= HEADER_SIZE {
      assert q == Sink(k.out, h);
      if m.payload != [] {
        assert h + m.payload[..0] == h && m.payload[0..] == m.payload;
        assert Buffer(size, q, m.payload) == Buffer(size, Sink(k.out + [h], []), m.payload);
      }
    } else {
      assert q == Sink(k.out + [h], []);
    }
    assert [] + m.payload == m.payload;
    assert k.out + [h] + [m.payload] == k.out + ([h] + [m.payload]);
  }

  lemma {:induction false} WritesAllSnoc(ms: seq<Message>, m: Message)
    ensures WritesAll(ms + [m]) == WritesAll(ms) + Writes(m)
  {
    if ms == [] {
      assert ms + [m] == [m] && [m][1..] == [];
    } else {
      WritesAllSnoc(ms[1..], m);
      assert (ms + [m])[1..] == ms[1..] + [m];
    }
  }

  lemma {:induction false} SpacedEmits(size: nat, ops: seq<Op>)
    requires size > 0 && Spaced(size, ops)
    ensures Emitted(size, ops) == WritesAll(Puts(ops))
    ensures After(size, ops).buf != [] <==> Dirty(size, ops)
  {
    if ops != [] {
      var n := |ops| - 1;
      var front, k := ops[..n], After(size, ops[..n]);
      SpacedSnoc(size, ops);
      SpacedEmits(size, front);
      match ops[n] {
        case Put(m) =>
          PutClean(size, k, m);
          WritesAllSnoc(Puts(front), m);
        case Tick =>
          assert Flushed(Flushed(k)) == Flushed(k);
          assert Puts(front) + [] == Puts(front);
      }
    }
  }

  // ---------------------------------------------------------------- bytes that no later cut can separate

  lemma BoundarySnoc(a: seq<Bytes>, x: Bytes, p: nat)
    ensures Boundary(a + [x], p) <==> Boundary(a, p) || p == |Concat(a)| + |x|
    ensures |Concat(a + [x])| == |Concat(a)| + |x|
  {
    var ax := a + [x];
    ConcatSnoc(a, x);
    assert ax[..|ax|] == ax;
    assert forall j :: 0 <= j <= |a| ==> ax[..j] == a[..j];
    if Boundary(ax, p) {
      var j :| 0 <= j <= |ax| && |Concat(ax[..j])| == p;
      assert j <= |a| ==> |Concat(a[..j])| == p;
    }
    if Boundary(a, p) {
      var j :| 0 <= j <= |a| && |Concat(a[..j])| == p;
      assert |Concat(ax[..j])| == p;
    }
  }

  lemma BoundaryAtMost(fs: seq<Bytes>, p: nat)
    requires Boundary(fs, p)
    ensures p <= |Concat(fs)|
  {
    var j :| 0 <= j <= |fs| && |Concat(fs[..j])| == p;
    ConcatSplit(fs, j);
  }

  function Total(k: Sink): nat { |Concat(k.out)| + |k.buf| }

  /** The bytes before and after `p` are in one write, or will be. */
  ghost predicate Buried(k: Sink, p: nat) { p < Total(k) && !Boundary(k.out, p) }

  lemma BuriedFlush(k: Sink, p: nat)
    requires Buried(k, p)
    ensures Buried(Flushed(k), p)
  {
    BoundarySnoc(k.out, k.buf, p);
  }

  lemma {:induction false} BuriedBuffer(size: nat, k: Sink, q: Bytes, p: nat)
    requires |k.buf| <= size && size > 0 && Buried(k, p)
    ensures Buried(Buffer(size, k, q), p)
    decreases |q|, |k.buf|
  {
    var n := size - |k.buf|;
    if |q| > n {
      if k.buf == [] {
        BoundarySnoc(k.out, q, p);
      } else {
        BoundarySnoc(k.out, k.buf + q[..n], p);
        BuriedBuffer(size, Sink(k.out + [k.buf + q[..n]], []), q[n..], p);
      }
    }
  }

  /** Bytes that join a buffer that is neither empty nor full bury what was its end. */
  lemma BuriesEnd(size: nat, k: Sink, q: Bytes)
    requires 0 < |k.buf| < size && q != []
    ensures Buried(Buffer(size, k, q), Total(k))
  {
    var n, p := size - |k.buf|, Total(k);
    assert !Boundary(k.out, p) by {
      if Boundary(k.out, p) {
        BoundaryAtMost(k.out, p);
      }
    }
    if |q| > n {
      BoundarySnoc(k.out, k.buf + q[..n], p);
      BuriedBuffer(size, Sink(k.out + [k.buf + q[..n]], []), q[n..], p);
    }
  }

  lemma BuriedPoured(size: nat, k: Sink, h: Bytes, payload: Bytes, p: nat)
    requires |k.buf| <= size && size > 0 && Buried(Buffer(size, k, h), p)
    ensures Buried(Poured(size, k, h, payload), p)
  {
    var q := Buffer(size, k, h);
    BuriedBuffer(size, q, payload, p);
    var r := if payload == [] then q else Buffer(size, q, payload);
    BuriedFlush(r, p);
  }

  lemma BuriedDone(size: nat, k: Sink, op: Op, p: nat)
    requires |k.buf| <= size && size > 0 && Buried(k, p)
    ensures Buried(Done(size, k, op), p)
  {
    match op {
      case Put(m) =>
        BuriedBuffer(size, k, HeaderBytes(Stamp(m).header), p);
        BuriedPoured(size, k, HeaderBytes(Stamp(m).header), m.payload, p);
      case Tick => BuriedFlush(k, p);
    }
  }

  // ---------------------------------------------------------------- the bytes add up

  function All(k: Sink): Bytes { Concat(k.out) + k.buf }

  lemma AllFlush(k: Sink)
    requires NonEmpty(k.out)
    ensures All(Flushed(k)) == All(k) && NonEmpty(Flushed(k).out)
  {
    ConcatSnoc(k.out, k.buf);
  }

  lemma {:induction false} AllBuffer(size: nat, k: Sink, q: Bytes)
    requires |k.buf| <= size && size > 0 && NonEmpty(k.out)
    ensures All(Buffer(size, k, q)) == All(k) + q && NonEmpty(Buffer(size, k, q).out)
    decreases |q|, |k.buf|
  {
    var n := size - |k.buf|;
    if |q| <= n {
      Assoc(Concat(k.out), k.buf, q);
    } else if k.buf == [] {
      ConcatSnoc(k.out, q);
    } else {
      var w := k.buf + q[..n];
      ConcatSnoc(k.out, w);
      AllBuffer(size, Sink(k.out + [w], []), q[n..]);
      SplitAt(q, n);
      Assoc(Concat(k.out), k.buf, q[..n]);
      Assoc(All(k), q[..n], q[n..]);
    }
  }

  lemma AllPoured(size: nat, k: Sink, h: Bytes, payload: Bytes)
    requires |k.buf| <= size && size > 0 && NonEmpty(k.out)
    ensures All(Poured(size, k, h, payload)) == All(k) + (h + payload) && NonEmpty(Poured(size, k, h, payload).out)
  {
    var q := Buffer(size, k, h);
    AllBuffer(size, k, h);
    AllBuffer(size, q, payload);
    Assoc(All(k), h, payload);
    if payload == [] {
      assert All(k) + h + payload == All(k) + h;
      AllFlush(q);
    } else {
      AllFlush(Buffer(size, q, payload));
    }
  }

  lemma AllDone(size: nat, k: Sink, op: Op)
    requires |k.buf| <= size && size > 0 && NonEmpty(k.out)
    ensures All(Done(size, k, op)) == All(k) + (if op.Put? then Frame(op.msg) else []) && NonEmpty(Done(size, k, op).out)
  {
    match op {
      case Tick => AllFlush(k);
      case Put(m) => AllPoured(size, k, HeaderBytes(Stamp(m).header), m.payload);
    }
  }

  lemma {:induction false} AllAfter(size: nat, ops: seq<Op>)
    requires size > 0
    ensures All(After(size, ops)) == Frames(Puts(ops)) && NonEmpty(After(size, ops).out)
    ensures |After(size, ops).buf| < size
  {
    if ops != [] {
      var n := |ops| - 1;
      AllAfter(size, ops[..n]);
      AllDone(size, After(size, ops[..n]), ops[n]);
      if ops[n].Put? {
        FramesSnoc(Puts(ops[..n]), ops[n].msg);
      } else {
        assert Puts(ops[..n]) + [] == Puts(ops[..n]);
      }
    }
  }

  lemma EmittedBytes(size: nat, ops: seq<Op>)
    requires size > 0
    ensures Concat(Emitted(size, ops)) == Frames(Puts(ops)) && NonEmpty(Emitted(size, ops))
  {
    AllAfter(size, ops);
    AllFlush(After(size, ops));
  }

  // ---------------------------------------------------------------- other traffic is cut in the wrong place

  /** Some header or payload ends inside a write. */
  ghost predicate Misaligned(k: Sink, ms: seq<Message>)
  {
    exists i :: 0 <= i < |ms| && MisalignedAt(k, ms, i)
  }

  ghost predicate MisalignedAt(k: Sink, ms: seq<Message>, i: nat)
    requires i < |ms|
  {
    Buried(k, HeaderEnd(ms, i)) || Buried(k, PayloadEnd(ms, i))
  }

  lemma MisalignedStays(size: nat, k: Sink, op: Op, ms: seq<Message>, ms': seq<Message>)
    requires |k.buf| <= size && size > 0 && Misaligned(k, ms) && ms <= ms'
    ensures Misaligned(Done(size, k, op), ms')
  {
    var i :| 0 <= i < |ms| && MisalignedAt(k, ms, i);
    assert ms'[..i] == ms[..i] && ms'[..i + 1] == ms[..i + 1];
    if Buried(k, HeaderEnd(ms, i)) {
      BuriedDone(size, k, op, HeaderEnd(ms, i));
    } else {
      BuriedDone(size, k, op, PayloadEnd(ms, i));
    }
    assert MisalignedAt(Done(size, k, op), ms', i);
  }

  /** A message that joins what another left in the buffer hides the end of that other one. */
  lemma DirtyMisaligns(size: nat, k: Sink, ms: seq<Message>, m: Message)
    requires 0 < |k.buf| < size && All(k) == Frames(ms)
    ensures Misaligned(Done(size, k, Put(m)), ms + [m])
  {
    var h, i := HeaderBytes(Stamp(m).header), |ms| - 1;
    assert ms != [];
    BuriesEnd(size, k, h);
    BuriedPoured(size, k, h, m.payload, Total(k));
    assert (ms + [m])[..i + 1] == ms;
    assert MisalignedAt(Done(size, k, Put(m)), ms + [m], i);
  }

  /** A payload that joins its header in the buffer hides the end of the header. */
  lemma PayloadMisaligns(size: nat, k: Sink, ms: seq<Message>, m: Message)
    requires size > HEADER_SIZE && k.buf == [] && All(k) == Frames(ms) && m.payload != []
    ensures Misaligned(Done(size, k, Put(m)), ms + [m])
  {
    var h, i := HeaderBytes(Stamp(m).header), |ms|;
    var q := Buffer(size, k, h);
    assert q == Sink(k.out, [] + h) && [] + h == h;
    BuriesEnd(size, q, m.payload);
    BuriedFlush(Buffer(size, q, m.payload), Total(q));
    assert (ms + [m])[..i] == ms;
    assert HeaderEnd(ms + [m], i) == Total(q);
    assert MisalignedAt(Done(size, k, Put(m)), ms + [m], i);
  }

  lemma {:induction false} UnspacedMisaligns(size: nat, ops: seq<Op>)
    requires size > 0 && !Spaced(size, ops)
    ensures Misaligned(After(size, ops), Puts(ops))
  {
    if ops != [] {
      var n := |ops| - 1;
      var front, k := ops[..n], After(size, ops[..n]);
      SpacedSnoc(size, ops);
      AllAfter(size, front);
      if !Spaced(size, front) {
        UnspacedMisaligns(size, front);
        MisalignedStays(size, k, ops[n], Puts(front), Puts(ops));
      } else {
        SpacedEmits(size, front);
        if Dirty(size, front) {
          DirtyMisaligns(size, k, Puts(front), ops[n].msg);
        } else {
          PayloadMisaligns(size, k, Puts(front), ops[n].msg);
        }
      }
    }
  }

  lemma MisalignedNotAligned(k: Sink, ms: seq<Message>)
    requires Misaligned(k, ms)
    ensures !AllAligned(Flushed(k).out, ms)
  {
    var i :| 0 <= i < |ms| && MisalignedAt(k, ms, i);
    if Buried(k, HeaderEnd(ms, i)) {
      BuriedFlush(k, HeaderEnd(ms, i));
    } else {
      BuriedFlush(k, PayloadEnd(ms, i));
    }
    assert !Aligned(Flushed(k).out, ms, i);
  }

  // ---------------------------------------------------------------- the result

  /**
   * Batching over a session, on the inputs: the messages, the batch size and the flushes.  They are
   * read back exactly when every payload fits a session frame and
   * - with batches larger than a header: no message has a payload, and a flush comes between every
   *   two messages;
   * - with smaller ones: every message whose payload is shorter than a batch, and not empty, is
   *   followed by a flush before the next message.
   */
  lemma BatchedReadsBackIff(size: nat, ops: seq<Op>)
    requires size > 0 && Sendable(Puts(ops))
    ensures Session.ReadAll(Emitted(size, ops)) == Stamps(Puts(ops)) <==> AllFit(Puts(ops)) && Spaced(size, ops)
  {
    var ms := Puts(ops);
    if Spaced(size, ops) {
      SpacedEmits(size, ops);
      UnbatchedReadsBackIff(ms);
    } else {
      UnspacedMisaligns(size, ops);
      MisalignedNotAligned(After(size, ops), ms);
      EmittedBytes(size, ops);
      ReadsBackIff(Emitted(size, ops), ms);
    }
  }

  lemma {:induction false} UnbatchedEmits(ops: seq<Op>)
    ensures After(0, ops) == Sink(WritesAll(Puts(ops)), [])
  {
    if ops != [] {
      var n := |ops| - 1;
      UnbatchedEmits(ops[..n]);
      match ops[n] {
        case Put(m) => WritesAllSnoc(Puts(ops[..n]), m);
        case Tick => assert Puts(ops[..n]) + [] == Puts(ops[..n]);
      }
    }
  }

  /**
   * A whole conversation over a session that does not fail, batched or not: write the messages with
   * the flushes among them, and read the session's frames.
   */
  method ConverseOverSession(ops: seq<Op>, size: nat, limit: nat) returns (read: seq<Message>)
    requires Sendable(Puts(ops)) && |Frames(Puts(ops))| <= limit
    ensures read == Stamps(Puts(ops)) <==> AllFit(Puts(ops)) && (size > 0 ==> Spaced(size, ops))
  {
    var _, writes := WriteAll(ops, size, false, limit);
    read := Session.ReadAll(writes);
    if size > 0 {
      BatchedReadsBackIff(size, ops);
    } else {
      UnbatchedEmits(ops);
      UnbatchedReadsBackIff(Puts(ops));
    }
  }
}
