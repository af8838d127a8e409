/**
 * Files sent over several streams at once (pkg/transfer, SendParallel and ReceiveParallel): a sender
 * with one goroutine per stream, a receiver with one reader per stream, and FIFO streams between
 * them, as a step system over every interleaving.  Any number of files go one after another over
 * the same streams.  Either side may fail at any point.
 */
module Parallel {
  import opened Bytes
  import opened Ranges
  import opened Transfer

  datatype Msg =
    | HeaderMsg(size: nat)
    | DataMsg(body: Bytes)
    | Eos
    | TrailerMsg(sum: Bytes, total: nat)
    | Done

  /** The files to send, the number of streams and the hash function. */
  datatype Job = Job(files: seq<Bytes>, n: nat, hash: Bytes -> Bytes)

  ghost predicate JobOk(j: Job)
  {
    && j.n > 0
    && forall k :: 0 <= k < |j.files| ==> |j.files[k]| < INT64 && (j.n - 1) * |j.files[k]| < INT64
  }

  datatype Phase = Idle | Sending | Trailed

  /** `k` files have been acknowledged; goroutine `i` is at `off[i]` and has ended if `eos[i]`. */
  datatype Sender = Sender(alive: bool, k: nat, phase: Phase, off: seq<int>, eos: seq<bool>)

  /**
   * `corrupt` is set when a message cannot be understood or the integrity check fails.  `got` and
   * `seen` say how far each reader is; they are history, not part of the program.
   */
  datatype Receiver = Receiver(
    alive: bool, reading: bool, file: Bytes, done: seq<bool>, trailer: Option<(Bytes, nat)>,
    saved: seq<Bytes>, corrupt: bool, got: seq<int>, seen: seq<bool>)

  datatype State = State(snd: Sender, rcv: Receiver, fwd: seq<seq<Msg>>, back: seq<Msg>, lostDone: bool)

  datatype Step =
    | PutHeader
    | Put(i: nat)
    | PutTrailer
    | GetDone
    | SenderFails
    | GetHeader
    | Get(i: nat)
    | Finish(doneWritten: bool)
    | ReceiverFails

  function Lo(j: Job, src: Bytes, i: nat): int requires i < j.n { RangeOf(|src|, j.n, i).lo }
  function Hi(j: Job, src: Bytes, i: nat): int requires i < j.n { RangeOf(|src|, j.n, i).hi }

  function Lows(j: Job, src: Bytes): seq<int> { seq(j.n, i requires 0 <= i < j.n => Lo(j, src, i)) }
  function Falses(n: nat): seq<bool> { seq(n, _ => false) }

  function Take(off: int, hi: int): int { if hi - off < CHUNK_SIZE then hi - off else CHUNK_SIZE }

  predicate InFile(src: Bytes, off: int, hi: int) { 0 <= off < hi <= |src| < INT64 }

  /** The message for the piece at `off` of a range ending at `hi`. */
  function Piece(src: Bytes, off: int, hi: int): Msg
    requires InFile(src, off, hi)
  {
    DataMsg(EncodeChunk(off, src[off..off + Take(off, hi)]))
  }

  predicate AllTrue(b: seq<bool>) { forall i :: 0 <= i < |b| ==> b[i] }

  // ---------------------------------------------------------------- steps

  predicate SenderCan(j: Job, s: State)
  {
    s.snd.alive && s.snd.k < |j.files| && |s.fwd| == j.n > 0 && |s.snd.off| == |s.snd.eos| == j.n
  }

  predicate ReceiverCan(j: Job, s: State)
  {
    s.rcv.alive && |s.fwd| == j.n > 0 && |s.rcv.done| == |s.rcv.got| == |s.rcv.seen| == j.n
  }

  predicate Enabled(j: Job, s: State, step: Step)
  {
    match step
    case PutHeader => SenderCan(j, s) && s.snd.phase == Idle
    case Put(i) =>
      SenderCan(j, s) && s.snd.phase == Sending && i < j.n && !s.snd.eos[i]
      && (s.snd.off[i] < Hi(j, j.files[s.snd.k], i) ==> InFile(j.files[s.snd.k], s.snd.off[i], Hi(j, j.files[s.snd.k], i)))
    case PutTrailer => SenderCan(j, s) && s.snd.phase == Sending && AllTrue(s.snd.eos)
    case GetDone => SenderCan(j, s) && s.snd.phase == Trailed && s.back != []
    case SenderFails => true
    case GetHeader => ReceiverCan(j, s) && !s.rcv.reading && s.fwd[0] != []
    case Get(i) => ReceiverCan(j, s) && s.rcv.reading && i < j.n && !s.rcv.done[i] && s.fwd[i] != []
    case Finish(_) => ReceiverCan(j, s) && s.rcv.reading && AllTrue(s.rcv.done)
    case ReceiverFails => true
  }

  function Push(s: State, i: nat, m: Msg): State
    requires i < |s.fwd|
  {
    s.(fwd := s.fwd[i := s.fwd[i] + [m]])
  }

  function Pop(s: State, i: nat): State
    requires i < |s.fwd| && s.fwd[i] != []
  {
    s.(fwd := s.fwd[i := s.fwd[i][1..]])
  }

  function SenderNext(j: Job, s: State, step: Step): State
    requires Enabled(j, s, step) && (step.PutHeader? || step.Put? || step.PutTrailer? || step.GetDone?)
  {
    var src := j.files[s.snd.k];
    match step
    case PutHeader =>
      Push(s, 0, HeaderMsg(|src|)).(snd := s.snd.(phase := Sending, off := Lows(j, src), eos := Falses(j.n)))
    case Put(i) =>
      var off, hi := s.snd.off[i], Hi(j, src, i);
      if off < hi then Push(s, i, Piece(src, off, hi)).(snd := s.snd.(off := s.snd.off[i := off + Take(off, hi)]))
      else Push(s, i, Eos).(snd := s.snd.(eos := s.snd.eos[i := true]))
    case PutTrailer =>
      Push(s, 0, TrailerMsg(j.hash(src), |src|)).(snd := s.snd.(phase := Trailed))
    case GetDone =>
      s.(back := s.back[1..], snd := if s.back[0] == Done then s.snd.(phase := Idle, k := s.snd.k + 1) else s.snd)
  }

  /** One message read by reader `i`. */
  function Read(j: Job, r: Receiver, i: nat, m: Msg): Receiver
    requires i < |r.done| == |r.got| == |r.seen|
  {
    match m
    case DataMsg(body) =>
      (match DecodeChunk(body)
       case None => r.(alive := false, corrupt := true)
       case Some((off, data)) =>
         match WriteAt(r.file, off, data)
         case None => r.(alive := false, corrupt := true)
         case Some(f) => r.(file := f, got := r.got[i := r.got[i] + |data|]))
    case Eos => r.(seen := r.seen[i := true], done := r.done[i := r.done[i] || i != 0])
    case TrailerMsg(sum, total) => r.(trailer := Some((sum, total)), done := r.done[i := true])
    case _ => r
  }

  function ReceiverNext(j: Job, s: State, step: Step): State
    requires Enabled(j, s, step) && (step.GetHeader? || step.Get? || step.Finish?)
  {
    match step
    case GetHeader =>
      (match s.fwd[0][0]
       case HeaderMsg(size) =>
         var src := if |s.rcv.saved| < |j.files| then j.files[|s.rcv.saved|] else [];
         Pop(s, 0).(rcv := s.rcv.(reading := true, file := Zeros(size), done := Falses(j.n), trailer := None,
                                  got := Lows(j, src), seen := Falses(j.n)))
       case _ => Pop(s, 0).(rcv := s.rcv.(alive := false, corrupt := true)))
    case Get(i) => Pop(s, i).(rcv := Read(j, s.rcv, i, s.fwd[i][0]))
    case Finish(doneWritten) =>
      var tr := if s.rcv.trailer.Some? then s.rcv.trailer.value else ([], 0);
      if j.hash(s.rcv.file) != tr.0 || |s.rcv.file| != tr.1 then s.(rcv := s.rcv.(alive := false, corrupt := true))
      else s.(rcv := s.rcv.(reading := false, saved := s.rcv.saved + [s.rcv.file]),
              back := if doneWritten then s.back + [Done] else s.back,
              lostDone := s.lostDone || !doneWritten)
  }

  /** A side that has failed does nothing any more. */
  lemma FailureIsFinal(j: Job, s: State, step: Step)
    requires Enabled(j, s, step)
    ensures !s.snd.alive && !step.SenderFails? ==> step.ReceiverFails? || step.GetHeader? || step.Get? || step.Finish?
    ensures !s.rcv.alive && !step.ReceiverFails? ==> step.SenderFails? || step.PutHeader? || step.Put? || step.PutTrailer? || step.GetDone?
  {
  }

  /** A step that is not enabled changes nothing, so every sequence of steps is a run. */
  function Next(j: Job, s: State, step: Step): State
  {
    if !Enabled(j, s, step) then s
    else
      match step
      case SenderFails => s.(snd := s.snd.(alive := false))
      case ReceiverFails => s.(rcv := s.rcv.(alive := false))
      case GetHeader => ReceiverNext(j, s, step)
      case Get(_) => ReceiverNext(j, s, step)
      case Finish(_) => ReceiverNext(j, s, step)
      case _ => SenderNext(j, s, step)
  }

  /** A fault stops its side for good, at any time, and touches nothing else. */
  lemma FaultStops(j: Job, s: State)
    ensures var q := Next(j, s, SenderFails); !q.snd.alive && q == s.(snd := q.snd) && q.snd == s.snd.(alive := false)
    ensures var q := Next(j, s, ReceiverFails); !q.rcv.alive && q == s.(rcv := q.rcv) && q.rcv == s.rcv.(alive := false)
  {
  }

  /** The receiver stops at a first message that is no header, and at a chunk that is short or has a negative offset. */
  lemma StopsAtNonsense(j: Job, s: State, i: nat)
    ensures Enabled(j, s, GetHeader) && !s.fwd[0][0].HeaderMsg? ==>
              var q := Next(j, s, GetHeader); !q.rcv.alive && q.rcv.saved == s.rcv.saved && q.back == s.back
    ensures Enabled(j, s, Get(i)) && s.fwd[i][0].DataMsg? && (|s.fwd[i][0].body| < 8 || s.fwd[i][0].body[0] >= 128) ==>
              var q := Next(j, s, Get(i)); !q.rcv.alive && q.rcv.saved == s.rcv.saved && q.back == s.back
  {
    if Enabled(j, s, Get(i)) && s.fwd[i][0].DataMsg? {
      DecodeIff(s.fwd[i][0].body);
    }
  }

  /**
   * In any state, reachable or not, a file is saved and acknowledged if and only if its hash and its
   * length are those of the trailer; otherwise the receiver stops.
   */
  lemma SavedIffIntact(j: Job, s: State, w: bool)
    requires Enabled(j, s, Finish(w)) && s.rcv.trailer.Some?
    ensures var q := Next(j, s, Finish(w));
            if j.hash(s.rcv.file) == s.rcv.trailer.value.0 && |s.rcv.file| == s.rcv.trailer.value.1 then
              q.rcv.saved == s.rcv.saved + [s.rcv.file] && q.rcv.alive && !q.rcv.reading && q.back == s.back + (if w then [Done] else [])
            else q.rcv.saved == s.rcv.saved && !q.rcv.alive && q.back == s.back
    // Whether the write of DONE succeeds is not up to the receiver, and it does not look at it.
    ensures Enabled(j, s, Finish(!w)) && Next(j, s, Finish(!w)).rcv == Next(j, s, Finish(w)).rcv
  {
  }

  function Start(j: Job): State
  {
    State(Sender(true, 0, Idle, seq(j.n, _ => 0), Falses(j.n)),
          Receiver(true, false, [], Falses(j.n), None, [], false, seq(j.n, _ => 0), Falses(j.n)),
          seq(j.n, _ => []), [], false)
  }

  function Exec(j: Job, steps: seq<Step>): State
  {
    if steps == [] then Start(j) else Next(j, Exec(j, steps[..|steps| - 1]), steps[|steps| - 1])
  }

  // ---------------------------------------------------------------- one stream

  /** The pieces from `from` up to `to`. */
  function Pieces(src: Bytes, from: int, to: int, hi: int): seq<Msg>
    requires 0 <= from <= hi <= |src| < INT64
    decreases hi - from
  {
    if from >= to || from == hi then [] else [Piece(src, from, hi)] + Pieces(src, from + Take(from, hi), to, hi)
  }

  /** `to` is reached from `from` in whole pieces. */
  predicate Reaches(from: int, to: int, hi: int)
    decreases hi - from
  {
    from == to || (from < to <= hi && Reaches(from + Take(from, hi), to, hi))
  }

  lemma {:induction false} PiecesSnoc(src: Bytes, from: int, to: int, hi: int)
    requires 0 <= from <= to < hi <= |src| < INT64 && Reaches(from, to, hi)
    ensures Reaches(from, to + Take(to, hi), hi)
    ensures Pieces(src, from, to + Take(to, hi), hi) == Pieces(src, from, to, hi) + [Piece(src, to, hi)]
    decreases hi - from
  {
    if from == to {
      assert Pieces(src, from + Take(from, hi), to + Take(to, hi), hi) == [];
    } else {
      ReachesBound(from + Take(from, hi), to, hi);
      PiecesSnoc(src, from + Take(from, hi), to, hi);
    }
  }

  lemma ReachesBound(from: int, to: int, hi: int)
    requires Reaches(from, to, hi)
    ensures from <= to
  {
  }

  /**
   * One stream of one file: `off` and `eos` are how far the goroutine has written, `got` and `seen`
   * how far the reader has read, `tail` is a trailer in flight, and `q` is what is between them.
   */
  ghost predicate Lane(src: Bytes, lo: int, hi: int, off: int, eos: bool, got: int, seen: bool, tail: seq<Msg>, q: seq<Msg>)
  {
    && 0 <= lo <= got <= off <= hi <= |src| < INT64 && Reaches(got, off, hi)
    && (eos ==> off == hi) && (seen ==> eos && got == hi) && (tail != [] ==> eos)
    && q == Pieces(src, got, off, hi) + (if eos && !seen then [Eos] else []) + tail
  }

  lemma LanePut(src: Bytes, lo: int, hi: int, off: int, got: int, q: seq<Msg>)
    requires Lane(src, lo, hi, off, false, got, false, [], q) && off < hi
    ensures Lane(src, lo, hi, off + Take(off, hi), false, got, false, [], q + [Piece(src, off, hi)])
  {
    PiecesSnoc(src, got, off, hi);
  }

  lemma LaneEnd(src: Bytes, lo: int, hi: int, got: int, q: seq<Msg>)
    requires Lane(src, lo, hi, hi, false, got, false, [], q)
    ensures Lane(src, lo, hi, hi, true, got, false, [], q + [Eos])
  {
  }

  /** What a reader finds next on its stream. */
  lemma LaneHead(src: Bytes, lo: int, hi: int, off: int, eos: bool, got: int, seen: bool, tail: seq<Msg>, q: seq<Msg>)
    requires Lane(src, lo, hi, off, eos, got, seen, tail, q) && q != [] && |tail| <= 1
    ensures if got < off then q[0] == Piece(src, got, hi) && Lane(src, lo, hi, off, eos, got + Take(got, hi), seen, tail, q[1..])
            else if eos && !seen then q[0] == Eos && Lane(src, lo, hi, off, eos, got, true, tail, q[1..])
            else tail != [] && q[0] == tail[0] && Lane(src, lo, hi, off, eos, got, seen, [], q[1..])
  {
    if got < off {
      ReachesBound(got + Take(got, hi), off, hi);
      var rest := Pieces(src, got + Take(got, hi), off, hi);
      assert Pieces(src, got, off, hi) == [Piece(src, got, hi)] + rest;
      assert q[1..] == rest + (if eos && !seen then [Eos] else []) + tail;
    } else {
      assert Pieces(src, got, off, hi) == [];
      if eos && !seen {
        assert q[1..] == tail;
      } else {
        assert q == tail && q[1..] == [];
      }
    }
  }

  // ---------------------------------------------------------------- the whole transfer

  /** The trailer, while it is written and not yet read. */
  function TailOf(j: Job, src: Bytes, s: State, i: nat): seq<Msg>
  {
    if i == 0 && s.snd.phase == Trailed && !(s.rcv.reading && s.rcv.trailer.Some?) then [TrailerMsg(j.hash(src), |src|)] else []
  }

  ghost predicate Shaped(j: Job, s: State)
  {
    |s.fwd| == |s.snd.off| == |s.snd.eos| == |s.rcv.done| == |s.rcv.got| == |s.rcv.seen| == j.n
  }

  /** Stream `i` while the receiver reads the file. */
  ghost predicate LaneAt(j: Job, src: Bytes, s: State, i: nat)
    requires Shaped(j, s) && i < j.n
  {
    Lane(src, Lo(j, src, i), Hi(j, src, i), s.snd.off[i], s.snd.eos[i], s.rcv.got[i], s.rcv.seen[i], TailOf(j, src, s, i), s.fwd[i])
  }

  /** Stream `i` while the receiver has not read the header, which is at the head of stream 0. */
  ghost predicate LaneUnread(j: Job, src: Bytes, s: State, i: nat)
    requires Shaped(j, s) && i < j.n
  {
    && (i == 0 ==> s.fwd[0] != [] && s.fwd[0][0] == HeaderMsg(|src|))
    && Lane(src, Lo(j, src, i), Hi(j, src, i), s.snd.off[i], s.snd.eos[i], Lo(j, src, i), false, TailOf(j, src, s, i),
            if i == 0 then s.fwd[0][1..] else s.fwd[i])
  }

  ghost predicate SenderBusy(j: Job, src: Bytes, s: State)
  {
    s.snd.phase != Idle && (s.snd.phase == Trailed ==> AllTrue(s.snd.eos)) && s.back == []
  }

  /** What the receiver has so far is right: every byte read is in place. */
  ghost predicate FileRight(j: Job, src: Bytes, r: Receiver)
  {
    && |r.file| == |src| && |r.got| == j.n
    && forall i, b :: 0 <= i < j.n && Lo(j, src, i) <= b < r.got[i] && 0 <= b < |src| ==> r.file[b] == src[b]
  }

  ghost predicate ReadersRight(j: Job, src: Bytes, s: State)
    requires Shaped(j, s)
  {
    && (s.rcv.trailer.Some? ==> s.rcv.trailer.value == (j.hash(src), |src|) && s.snd.phase == Trailed && j.n > 0 && s.rcv.seen[0])
    && (forall i :: 0 <= i < j.n ==> (s.rcv.done[i] <==> if i == 0 then s.rcv.trailer.Some? else s.rcv.seen[i]))
  }

  ghost predicate Reading(j: Job, src: Bytes, s: State)
    requires Shaped(j, s)
  {
    && s.rcv.reading && SenderBusy(j, src, s) && ReadersRight(j, src, s) && FileRight(j, src, s.rcv)
    && (forall i :: 0 <= i < j.n ==> LaneAt(j, src, s, i))
  }

  ghost predicate Unread(j: Job, src: Bytes, s: State)
    requires Shaped(j, s)
  {
    && !s.rcv.reading && SenderBusy(j, src, s)
    && (forall i :: 0 <= i < j.n ==> LaneUnread(j, src, s, i))
  }

  ghost predicate Quiet(s: State) { !s.rcv.reading && forall i :: 0 <= i < |s.fwd| ==> s.fwd[i] == [] }

  /** Between transfers, during one, or done on the receiver's side only. */
  ghost predicate InStep(j: Job, s: State)
    requires Shaped(j, s)
  {
    var k := s.snd.k;
    || (s.snd.phase == Idle && |s.rcv.saved| == k && Quiet(s) && s.back == [])
    || (s.snd.phase == Trailed && |s.rcv.saved| == k + 1 && k < |j.files| && Quiet(s) && (s.back == [Done] || (s.back == [] && s.lostDone)))
    || (|s.rcv.saved| == k < |j.files| && (Unread(j, j.files[k], s) || Reading(j, j.files[k], s)))
  }

  ghost predicate Inv(j: Job, s: State)
  {
    && Shaped(j, s) && InStep(j, s)
    && !s.rcv.corrupt && |s.rcv.saved| <= |j.files| && s.rcv.saved == j.files[..|s.rcv.saved|]
  }

  lemma FileParts(j: Job, k: nat)
    requires JobOk(j) && k < |j.files|
    ensures Partition(RangeList(|j.files[k]|, j.n), |j.files[k]|)
    ensures forall i :: 0 <= i < j.n ==> 0 <= Lo(j, j.files[k], i) <= Hi(j, j.files[k], i) <= |j.files[k]| < INT64
  {
    var src := j.files[k];
    NoOverflowPartitions(|src|, j.n);
    forall i | 0 <= i < j.n ensures 0 <= Lo(j, src, i) <= Hi(j, src, i) <= |src| {
      RangeInside(RangeList(|src|, j.n), |src|, i);
    }
  }

  lemma KeepPutHeader(j: Job, s: State)
    requires JobOk(j) && Inv(j, s) && Enabled(j, s, PutHeader)
    ensures Inv(j, Next(j, s, PutHeader))
  {
    var src, s' := j.files[s.snd.k], Next(j, s, PutHeader);
    FileParts(j, s.snd.k);
    forall i | 0 <= i < j.n ensures LaneUnread(j, src, s', i) {
      assert s.fwd[i] == [];
      assert i == 0 ==> s'.fwd[0] == [HeaderMsg(|src|)];
    }
  }

  lemma PushTail(q: seq<Msg>, m: Msg)
    requires q != []
    ensures (q + [m])[0] == q[0] && (q + [m])[1..] == q[1..] + [m]
  {
  }

  lemma PutUnreadLane(j: Job, src: Bytes, s: State, i: nat, s': State)
    requires Shaped(j, s) && Shaped(j, s') && i < j.n && LaneUnread(j, src, s, i) && !s.snd.eos[i]
    requires s.snd.phase == s'.snd.phase == Sending
    requires var off, hi := s.snd.off[i], Hi(j, src, i);
             if off < hi then s'.fwd[i] == s.fwd[i] + [Piece(src, off, hi)] && s'.snd.off[i] == off + Take(off, hi) && !s'.snd.eos[i]
             else s'.fwd[i] == s.fwd[i] + [Eos] && s'.snd.off[i] == off && s'.snd.eos[i]
    ensures LaneUnread(j, src, s', i)
  {
    var lo, hi, off := Lo(j, src, i), Hi(j, src, i), s.snd.off[i];
    var m := if off < hi then Piece(src, off, hi) else Eos;
    if i == 0 {
      PushTail(s.fwd[0], m);
    }
    var q := if i == 0 then s.fwd[0][1..] else s.fwd[i];
    if off < hi {
      LanePut(src, lo, hi, off, lo, q);
    } else {
      LaneEnd(src, lo, hi, lo, q);
    }
  }

  lemma KeepPutUnread(j: Job, s: State, i: nat)
    requires JobOk(j) && Inv(j, s) && Enabled(j, s, Put(i)) && Unread(j, j.files[s.snd.k], s)
    ensures Unread(j, j.files[s.snd.k], Next(j, s, Put(i)))
  {
    var src, s' := j.files[s.snd.k], Next(j, s, Put(i));
    forall x | 0 <= x < j.n ensures LaneUnread(j, src, s', x) {
      assert LaneUnread(j, src, s, x);
      if x == i {
        PutUnreadLane(j, src, s, i, s');
      }
    }
  }

  lemma KeepPutReading(j: Job, s: State, i: nat)
    requires JobOk(j) && Inv(j, s) && Enabled(j, s, Put(i)) && Reading(j, j.files[s.snd.k], s)
    ensures Reading(j, j.files[s.snd.k], Next(j, s, Put(i)))
  {
    var src, s' := j.files[s.snd.k], Next(j, s, Put(i));
    var lo, hi, off := Lo(j, src, i), Hi(j, src, i), s.snd.off[i];
    assert LaneAt(j, src, s, i);
    if off < hi {
      LanePut(src, lo, hi, off, s.rcv.got[i], s.fwd[i]);
    } else {
      LaneEnd(src, lo, hi, s.rcv.got[i], s.fwd[i]);
    }
    forall x | 0 <= x < j.n ensures LaneAt(j, src, s', x) {
      assert LaneAt(j, src, s, x);
    }
  }

  lemma KeepPut(j: Job, s: State, i: nat)
    requires JobOk(j) && Inv(j, s) && Enabled(j, s, Put(i))
    ensures Inv(j, Next(j, s, Put(i)))
  {
    if Unread(j, j.files[s.snd.k], s) {
      KeepPutUnread(j, s, i);
    } else {
      KeepPutReading(j, s, i);
    }
  }

  lemma KeepPutTrailer(j: Job, s: State)
    requires JobOk(j) && Inv(j, s) && Enabled(j, s, PutTrailer)
    ensures Inv(j, Next(j, s, PutTrailer))
  {
    var src, s' := j.files[s.snd.k], Next(j, s, PutTrailer);
    if Unread(j, src, s) {
      assert LaneUnread(j, src, s, 0);
      PushTail(s.fwd[0], TrailerMsg(j.hash(src), |src|));
      forall x | 0 <= x < j.n ensures LaneUnread(j, src, s', x) {
        assert LaneUnread(j, src, s, x);
      }
    } else {
      forall x | 0 <= x < j.n ensures LaneAt(j, src, s', x) {
        assert LaneAt(j, src, s, x);
      }
    }
  }

  lemma KeepGetHeader(j: Job, s: State)
    requires JobOk(j) && Inv(j, s) && Enabled(j, s, GetHeader)
    ensures Inv(j, Next(j, s, GetHeader))
  {
    var s' := Next(j, s, GetHeader);
    assert Unread(j, j.files[s.snd.k], s);
    var src := j.files[s.snd.k];
    assert LaneUnread(j, src, s, 0);
    forall x | 0 <= x < j.n ensures LaneAt(j, src, s', x) {
      assert LaneUnread(j, src, s, x);
    }
  }

  /** A piece that is read goes where it belongs. */
  lemma ReadPiece(j: Job, src: Bytes, r: Receiver, i: nat, hi: int)
    requires i < j.n && |r.done| == |r.got| == |r.seen| == j.n && FileRight(j, src, r)
    requires InFile(src, r.got[i], hi)
    ensures var r' := Read(j, r, i, Piece(src, r.got[i], hi));
            && FileRight(j, src, r')
            && r' == r.(file := r'.file, got := r.got[i := r.got[i] + Take(r.got[i], hi)])
  {
    var off, m := r.got[i], Take(r.got[i], hi);
    var data := src[off..off + m];
    DecodeEncoded(off, data);
    WritePiece(src, r.file, off, m);
    var file' := WriteAt(r.file, off, data).value;
    var r' := Read(j, r, i, Piece(src, off, hi));
    assert r' == r.(file := file', got := r.got[i := off + m]);
    forall x, b | 0 <= x < j.n && Lo(j, src, x) <= b < r'.got[x] && 0 <= b < |src| ensures file'[b] == src[b] {
      assert x != i ==> r'.got[x] == r.got[x];
    }
  }

  /** Reader `i` takes what is at the head of its stream. */
  lemma KeepGetReading(j: Job, src: Bytes, s: State, i: nat)
    requires Shaped(j, s) && Enabled(j, s, Get(i)) && Reading(j, src, s) && LaneAt(j, src, s, i)
    ensures Shaped(j, Next(j, s, Get(i))) && Reading(j, src, Next(j, s, Get(i)))
    ensures Next(j, s, Get(i)).rcv.saved == s.rcv.saved && Next(j, s, Get(i)).rcv.corrupt == s.rcv.corrupt
  {
    LaneHead(src, Lo(j, src, i), Hi(j, src, i), s.snd.off[i], s.snd.eos[i], s.rcv.got[i], s.rcv.seen[i], TailOf(j, src, s, i), s.fwd[i]);
    if s.rcv.got[i] < s.snd.off[i] {
      GetPiece(j, src, s, i);
    } else if s.snd.eos[i] && !s.rcv.seen[i] {
      GetEos(j, src, s, i);
    } else {
      GetTrailer(j, src, s, i);
    }
  }

  lemma GetPiece(j: Job, src: Bytes, s: State, i: nat)
    requires Shaped(j, s) && Enabled(j, s, Get(i)) && Reading(j, src, s) && s.rcv.got[i] < s.snd.off[i]
    ensures var s' := Next(j, s, Get(i)); Shaped(j, s') && Reading(j, src, s') && s'.rcv.saved == s.rcv.saved && s'.rcv.corrupt == s.rcv.corrupt
  {
    var s' := Next(j, s, Get(i));
    assert LaneAt(j, src, s, i);
    LaneHead(src, Lo(j, src, i), Hi(j, src, i), s.snd.off[i], s.snd.eos[i], s.rcv.got[i], s.rcv.seen[i], TailOf(j, src, s, i), s.fwd[i]);
    ReadPiece(j, src, s.rcv, i, Hi(j, src, i));
    forall x | 0 <= x < j.n ensures LaneAt(j, src, s', x) {
      assert LaneAt(j, src, s, x);
    }
  }

  lemma GetEos(j: Job, src: Bytes, s: State, i: nat)
    requires Shaped(j, s) && Enabled(j, s, Get(i)) && Reading(j, src, s) && s.fwd[i][0] == Eos
    requires s.rcv.got[i] == s.snd.off[i] && s.snd.eos[i] && !s.rcv.seen[i]
    ensures var s' := Next(j, s, Get(i)); Shaped(j, s') && Reading(j, src, s') && s'.rcv.saved == s.rcv.saved && s'.rcv.corrupt == s.rcv.corrupt
  {
    var s' := Next(j, s, Get(i));
    assert LaneAt(j, src, s, i);
    LaneHead(src, Lo(j, src, i), Hi(j, src, i), s.snd.off[i], s.snd.eos[i], s.rcv.got[i], s.rcv.seen[i], TailOf(j, src, s, i), s.fwd[i]);
    forall x | 0 <= x < j.n ensures LaneAt(j, src, s', x) {
      assert LaneAt(j, src, s, x);
    }
  }

  lemma GetTrailer(j: Job, src: Bytes, s: State, i: nat)
    requires Shaped(j, s) && Enabled(j, s, Get(i)) && Reading(j, src, s)
    requires s.rcv.got[i] == s.snd.off[i] && !(s.snd.eos[i] && !s.rcv.seen[i])
    requires TailOf(j, src, s, i) != [] && s.fwd[i][0] == TailOf(j, src, s, i)[0]
    ensures var s' := Next(j, s, Get(i)); Shaped(j, s') && Reading(j, src, s') && s'.rcv.saved == s.rcv.saved && s'.rcv.corrupt == s.rcv.corrupt
  {
    var s' := Next(j, s, Get(i));
    assert LaneAt(j, src, s, i);
    LaneHead(src, Lo(j, src, i), Hi(j, src, i), s.snd.off[i], s.snd.eos[i], s.rcv.got[i], s.rcv.seen[i], TailOf(j, src, s, i), s.fwd[i]);
    forall x | 0 <= x < j.n ensures LaneAt(j, src, s', x) {
      assert LaneAt(j, src, s, x);
    }
  }

  lemma KeepGet(j: Job, s: State, i: nat)
    requires JobOk(j) && Inv(j, s) && Enabled(j, s, Get(i))
    ensures Inv(j, Next(j, s, Get(i)))
  {
    var src := j.files[s.snd.k];
    assert Reading(j, src, s);
    assert LaneAt(j, src, s, i);
    KeepGetReading(j, src, s, i);
  }

  /** When every reader is done, the whole file is there. */
  lemma FileComplete(j: Job, s: State)
    requires JobOk(j) && s.snd.k < |j.files| && Shaped(j, s) && Reading(j, j.files[s.snd.k], s) && AllTrue(s.rcv.done)
    ensures s.rcv.file == j.files[s.snd.k]
    ensures s.rcv.trailer == Some((j.hash(j.files[s.snd.k]), |j.files[s.snd.k]|))
    ensures s.snd.phase == Trailed && forall i :: 0 <= i < j.n ==> s.fwd[i] == []
  {
    var src := j.files[s.snd.k];
    FileParts(j, s.snd.k);
    assert s.rcv.done[0];
    forall i | 0 <= i < j.n ensures s.rcv.got[i] == Hi(j, src, i) && s.fwd[i] == [] {
      assert LaneAt(j, src, s, i);
      assert s.rcv.done[i];
    }
    forall b | 0 <= b < |src| ensures s.rcv.file[b] == src[b] {
      var i := RangeHolding(RangeList(|src|, j.n), |src|, b);
      assert Lo(j, src, i) <= b < s.rcv.got[i];
    }
  }

  lemma KeepFinish(j: Job, s: State, doneWritten: bool)
    requires JobOk(j) && Inv(j, s) && Enabled(j, s, Finish(doneWritten))
    ensures Inv(j, Next(j, s, Finish(doneWritten)))
    ensures Next(j, s, Finish(doneWritten)).rcv.saved == s.rcv.saved + [j.files[s.snd.k]]
  {
    assert Reading(j, j.files[s.snd.k], s);
    FileComplete(j, s);
    assert j.files[..|s.rcv.saved| + 1] == j.files[..|s.rcv.saved|] + [j.files[s.snd.k]];
  }

  lemma NextInv(j: Job, s: State, step: Step)
    requires JobOk(j) && Inv(j, s)
    ensures Inv(j, Next(j, s, step))
  {
    if Enabled(j, s, step) {
      match step {
        case PutHeader => KeepPutHeader(j, s);
        case Put(i) => KeepPut(j, s, i);
        case PutTrailer => KeepPutTrailer(j, s);
        case GetDone => KeepGetDone(j, s);
        case SenderFails => KeepFail(j, s, step);
        case GetHeader => KeepGetHeader(j, s);
        case Get(i) => KeepGet(j, s, i);
        case Finish(w) => KeepFinish(j, s, w);
        case ReceiverFails => KeepFail(j, s, step);
      }
    }
  }

  lemma KeepGetDone(j: Job, s: State)
    requires JobOk(j) && Inv(j, s) && Enabled(j, s, GetDone)
    ensures Inv(j, Next(j, s, GetDone))
    ensures Next(j, s, GetDone).snd.k == s.snd.k + 1
  {
  }

  lemma KeepFail(j: Job, s: State, step: Step)
    requires JobOk(j) && Inv(j, s) && (step.SenderFails? || step.ReceiverFails?)
    ensures Inv(j, Next(j, s, step))
  {
    var s' := Next(j, s, step);
    if s.snd.k < |j.files| {
      var src := j.files[s.snd.k];
      assert forall i :: 0 <= i < j.n ==> (LaneAt(j, src, s, i) <==> LaneAt(j, src, s', i)) && (LaneUnread(j, src, s, i) <==> LaneUnread(j, src, s', i));
    }
  }

  lemma {:induction false} InvAlways(j: Job, steps: seq<Step>)
    requires JobOk(j)
    ensures Inv(j, Exec(j, steps))
  {
    if steps != [] {
      InvAlways(j, steps[..|steps| - 1]);
      NextInv(j, Exec(j, steps[..|steps| - 1]), steps[|steps| - 1]);
    }
  }

  /**
   * Parallel transfer is correct, over every interleaving and with any failures.  The receiver has
   * saved exactly a prefix of the files, byte for byte; its integrity check never fails on them; and
   * the sender reports success for a file only after the receiver has saved it.
   */
  lemma TransferCorrect(j: Job, steps: seq<Step>)
    requires JobOk(j)
    ensures var s := Exec(j, steps);
            && |s.rcv.saved| <= |j.files| && s.rcv.saved == j.files[..|s.rcv.saved|] && !s.rcv.corrupt
            && s.snd.k <= |s.rcv.saved| <= s.snd.k + 1
  {
    InvAlways(j, steps);
  }

  /**
   * Transfers compose: when the sender has been told that a file was saved, every stream is empty
   * in both directions and the receiver is ready for the next file.
   */
  lemma QuietBetweenTransfers(j: Job, steps: seq<Step>)
    requires JobOk(j)
    ensures var s := Exec(j, steps);
            s.snd.phase == Idle ==> s.back == [] && !s.rcv.reading && |s.rcv.saved| == s.snd.k && forall i :: 0 <= i < |s.fwd| ==> s.fwd[i] == []
  {
    InvAlways(j, steps);
  }

  predicate Fault(step: Step)
  {
    step.SenderFails? || step.ReceiverFails? || step == Finish(false)
  }

  lemma BusyProgress(j: Job, s: State)
    requires JobOk(j) && Inv(j, s) && s.snd.alive && s.rcv.alive && s.snd.k < |j.files| && Reading(j, j.files[s.snd.k], s)
    ensures exists step :: !Fault(step) && Enabled(j, s, step)
  {
    var src := j.files[s.snd.k];
    forall i | 0 <= i < j.n ensures LaneAt(j, src, s, i) {
    }
    if i :| 0 <= i < j.n && !s.rcv.done[i] && s.fwd[i] != [] {
      assert Enabled(j, s, Get(i));
    } else if i :| 0 <= i < j.n && !s.snd.eos[i] {
      assert LaneAt(j, src, s, i);
      assert Enabled(j, s, Put(i));
    } else if s.snd.phase == Sending {
      assert Enabled(j, s, PutTrailer);
    } else {
      forall i | 0 <= i < j.n ensures s.rcv.done[i] {
        assert LaneAt(j, src, s, i);
        assert TailOf(j, src, s, i) == [] || s.fwd[i] != [];
      }
      assert Enabled(j, s, Finish(true));
    }
  }

  /**
   * No deadlock: while neither side has failed and no DONE was lost, some step of the protocol can
   * be taken until every file has been sent, saved and acknowledged.
   */
  lemma NoDeadlock(j: Job, steps: seq<Step>)
    requires JobOk(j)
    ensures var s := Exec(j, steps);
            s.snd.alive && s.rcv.alive && !s.lostDone && s.snd.k < |j.files| ==> exists step :: !Fault(step) && Enabled(j, s, step)
  {
    InvAlways(j, steps);
    var s := Exec(j, steps);
    if s.snd.alive && s.rcv.alive && !s.lostDone && s.snd.k < |j.files| {
      if s.snd.phase == Idle {
        assert Enabled(j, s, PutHeader);
      } else if |s.rcv.saved| == s.snd.k + 1 {
        assert Enabled(j, s, GetDone);
      } else if s.rcv.reading {
        BusyProgress(j, s);
      } else {
        assert LaneUnread(j, j.files[s.snd.k], s, 0);
        assert Enabled(j, s, GetHeader);
      }
    }
  }

  // ---------------------------------------------------------------- one goroutine of the sender

  /** `msgs` cut [from, to) of the source into consecutive chunks of at most ChunkSize bytes. */
  ghost predicate Tiles(src: Bytes, from: int, to: int, msgs: seq<Msg>)
    decreases |msgs|
  {
    if msgs == [] then from == to
    else
      && msgs[0].DataMsg? && DecodeChunk(msgs[0].body).Some?
      && var (off, data) := DecodeChunk(msgs[0].body).value;
         && off == from >= 0 && 0 < |data| <= 524288 && from + |data| <= to <= |src|
         && data == src[from..from + |data|]
         && Tiles(src, from + |data|, to, msgs[1..])
  }

  /** What a goroutine sends for its range tiles the range: no gap, no overlap, no byte altered. */
  lemma {:induction false} PiecesTile(src: Bytes, lo: int, hi: int)
    requires 0 <= lo <= hi <= |src| < INT64
    ensures Tiles(src, lo, hi, Pieces(src, lo, hi, hi))
    decreases hi - lo
  {
    if lo < hi {
      var m := Take(lo, hi);
      DecodeEncoded(lo, src[lo..lo + m]);
      PiecesTile(src, lo + m, hi);
    }
  }

  /** Piece `i` of a range starts `i` times 512 KiB after it and is 512 KiB long, or ends with the range. */
  lemma {:induction false} PieceAt(src: Bytes, lo: int, hi: int, i: nat)
    requires 0 <= lo <= hi <= |src| < INT64 && i < |Pieces(src, lo, hi, hi)|
    ensures lo + i * 524288 < hi
    ensures var off := lo + i * 524288;
            Pieces(src, lo, hi, hi)[i] == DataMsg(EncodeChunk(off, if off + 524288 <= hi then src[off..off + 524288] else src[off..hi]))
    decreases i
  {
    if i > 0 {
      PieceAt(src, lo + Take(lo, hi), hi, i - 1);
    }
  }

  lemma PiecesCons(src: Bytes, off: int, hi: int, before: seq<Msg>)
    requires InFile(src, off, hi)
    ensures before + Pieces(src, off, hi, hi) == before + [Piece(src, off, hi)] + Pieces(src, off + Take(off, hi), hi, hi)
  {
  }

  method OnePiece(src: Bytes, off: int, hi: int, n: int) returns (m: Msg)
    requires InFile(src, off, hi) && n == Take(off, hi)
    ensures m == Piece(src, off, hi)
  {
    var chunk := BuildChunk(off, src[off..off + n]);
    m := DataMsg(chunk[..]);
  }

  /** The sending loop of one goroutine: the pieces of its range in order, then EOS. */
  method SendRange(src: Bytes, lo: int, hi: int) returns (sent: seq<Msg>)
    requires 0 <= lo <= hi <= |src| < INT64
    ensures sent == Pieces(src, lo, hi, hi) + [Eos]
  {
    var off := lo;
    sent := [];
    while off < hi
      invariant lo <= off <= hi && sent + Pieces(src, off, hi, hi) == Pieces(src, lo, hi, hi)
    {
      var n := CHUNK_SIZE;
      if hi - off < n {
        n := hi - off;
      }
      var m := OnePiece(src, off, hi, n);
      PiecesCons(src, off, hi, sent);
      sent, off := sent + [m], off + n;
    }
    sent := sent + [Eos];
  }
}
