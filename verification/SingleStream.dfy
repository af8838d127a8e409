/** One file over one message channel, chunks in any order (pkg/transfer, Send and Receive). */
module SingleStream {
  import opened Bytes
  import opened Ranges
  import opened Transfer

  /** A message of the channel, as classify sees it. */
  datatype Note = Header | Data(body: Bytes) | Trailer(sum: Bytes, total: nat) | Other

  datatype Result = Saved(file: Bytes) | Rejected

  // ---------------------------------------------------------------- sending

  function Sum(sizes: seq<nat>): nat
  {
    if sizes == [] then 0 else Sum(sizes[..|sizes| - 1]) + sizes[|sizes| - 1]
  }

  /** `sizes` are the sizes the source's reads return: anything up to a buffer, adding up to the file. */
  predicate Reads(src: Bytes, sizes: seq<nat>)
  {
    Sum(sizes) == |src| < INT64 && forall k :: 0 <= k < |sizes| ==> sizes[k] <= CHUNK_SIZE
  }

  lemma {:induction false} SumPrefix(sizes: seq<nat>, k: nat)
    requires k <= |sizes|
    ensures Sum(sizes[..k]) <= Sum(sizes)
    decreases |sizes|
  {
    if k < |sizes| {
      SumPrefix(sizes[..|sizes| - 1], k);
      assert sizes[..|sizes| - 1][..k] == sizes[..k];
    } else {
      assert sizes[..k] == sizes;
    }
  }

  /** Where read `k` starts in the file. */
  function OffsetOf(src: Bytes, sizes: seq<nat>, k: nat): (off: nat)
    requires Reads(src, sizes) && k < |sizes|
    ensures off + sizes[k] <= |src| < INT64
  {
    SumStep(sizes, k);
    Sum(sizes[..k])
  }

  function BytesOf(src: Bytes, sizes: seq<nat>, k: nat): Bytes
    requires Reads(src, sizes) && k < |sizes|
  {
    src[OffsetOf(src, sizes, k)..OffsetOf(src, sizes, k) + sizes[k]]
  }

  /** The chunk of read `k`; an empty read sends nothing. */
  function ChunkOf(src: Bytes, sizes: seq<nat>, k: nat): Note
    requires Reads(src, sizes) && k < |sizes|
  {
    Data(EncodeChunk(OffsetOf(src, sizes, k), BytesOf(src, sizes, k)))
  }

  lemma SumStep(sizes: seq<nat>, k: nat)
    requires k < |sizes|
    ensures Sum(sizes[..k + 1]) == Sum(sizes[..k]) + sizes[k] <= Sum(sizes)
  {
    assert sizes[..k + 1][..k] == sizes[..k];
    SumPrefix(sizes, k + 1);
  }

  /** The data messages of the reads before `k`. */
  function Sent(src: Bytes, sizes: seq<nat>, k: nat): seq<Note>
    requires Reads(src, sizes) && k <= |sizes|
  {
    if k == 0 then [] else Sent(src, sizes, k - 1) + if sizes[k - 1] == 0 then [] else [ChunkOf(src, sizes, k - 1)]
  }

  method Send(src: Bytes, sizes: seq<nat>, hash: Bytes -> Bytes) returns (out: seq<Note>)
    requires Reads(src, sizes)
    ensures out == [Header] + Sent(src, sizes, |sizes|) + [Trailer(hash(src), |src|)]
  {
    out := [Header];
    var offset := 0;
    var seen: Bytes := [];
    for k := 0 to |sizes|
      invariant offset == Sum(sizes[..k]) <= |src| && seen == src[..offset]
      invariant out == [Header] + Sent(src, sizes, k)
    {
      SumStep(sizes, k);
      var n := sizes[k];
      if n > 0 {
        var chunk := src[offset..offset + n];
        var buf := BuildChunk(offset, chunk);
        out := out + [Data(buf[..])];
        seen := seen + chunk;
        offset := offset + n;
      }
    }
    assert sizes[..|sizes|] == sizes;
    assert seen == src;
    out := out + [Trailer(hash(seen), offset)];
  }

  // ---------------------------------------------------------------- receiving

  datatype Collected = Bad | Open(file: Bytes) | Closed(file: Bytes, sum: Bytes, total: nat)

  /** Writes up to the first trailer. */
  function Collect(file: Bytes, notes: seq<Note>): Collected
    decreases |notes|
  {
    if notes == [] then Open(file)
    else
      match notes[0]
      case Data(body) =>
        (match DecodeChunk(body)
         case None => Bad
         case Some((off, data)) =>
           match WriteAt(file, off, data)
           case None => Bad
           case Some(f) => Collect(f, notes[1..]))
      case Trailer(sum, total) => Closed(file, sum, total)
      case _ => Collect(file, notes[1..])
  }

  function Verdict(hash: Bytes -> Bytes, notes: seq<Note>): Result
  {
    if notes == [] || !notes[0].Header? then Rejected
    else
      match Collect([], notes[1..])
      case Closed(file, sum, total) => if hash(file) == sum && |file| == total then Saved(file) else Rejected
      case _ => Rejected
  }

  method Receive(hash: Bytes -> Bytes, notes: seq<Note>) returns (r: Result)
    ensures r == Verdict(hash, notes)
  {
    if |notes| == 0 || !notes[0].Header? {
      return Rejected;
    }
    var file: Bytes := [];
    var trailer: Option<(Bytes, nat)> := None;
    var k := 1;
    while k < |notes| && trailer.None?
      invariant 1 <= k <= |notes|
      invariant trailer.None? ==> Collect(file, notes[k..]) == Collect([], notes[1..])
      invariant trailer.Some? ==> Collect([], notes[1..]) == Closed(file, trailer.value.0, trailer.value.1)
    {
      assert notes[k..][1..] == notes[k + 1..];
      match notes[k] {
        case Data(body) =>
          var c := DecodeChunk(body);
          if c.None? {
            return Rejected;
          }
          var w := WriteAt(file, c.value.0, c.value.1);
          if w.None? {
            return Rejected;
          }
          file := w.value;
        case Trailer(sum, total) => trailer := Some((sum, total));
        case _ =>
      }
      k := k + 1;
    }
    if trailer.None? || hash(file) != trailer.value.0 || |file| != trailer.value.1 {
      return Rejected;
    }
    return Saved(file);
  }

  /** Where the first trailer is; the end when there is none. */
  function FirstTrailer(notes: seq<Note>): (k: nat)
    ensures k <= |notes|
    ensures forall i :: 0 <= i < k ==> !notes[i].Trailer?
    ensures k < |notes| ==> notes[k].Trailer?
  {
    if notes == [] || notes[0].Trailer? then 0 else 1 + FirstTrailer(notes[1..])
  }

  /**
   * Success is reported only for a file whose hash and length the first trailer announced, and no
   * message after that trailer makes a difference.
   */
  lemma SavedIsAnnounced(hash: Bytes -> Bytes, notes: seq<Note>)
    requires Verdict(hash, notes).Saved?
    ensures var f, k := Verdict(hash, notes).file, FirstTrailer(notes);
            k < |notes| && notes[k] == Trailer(hash(f), |f|) && Verdict(hash, notes[..k + 1]) == Saved(f)
  {
    var k := FirstTrailer(notes);
    ClosedByTrailer([], notes[1..]);
    assert k == 1 + FirstTrailer(notes[1..]);
    assert notes[..k + 1][1..] == notes[1..][..k];
  }

  lemma {:induction false} ClosedByTrailer(file: Bytes, notes: seq<Note>)
    requires Collect(file, notes).Closed?
    ensures var c, k := Collect(file, notes), FirstTrailer(notes);
            k < |notes| && notes[k] == Trailer(c.sum, c.total) && Collect(file, notes[..k + 1]) == c
    decreases |notes|
  {
    match notes[0] {
      case Data(body) =>
        var (off, data) := DecodeChunk(body).value;
        ClosedByTrailer(WriteAt(file, off, data).value, notes[1..]);
        assert notes[..FirstTrailer(notes) + 1][1..] == notes[1..][..FirstTrailer(notes)];
      case Trailer(_, _) =>
      case _ =>
        ClosedByTrailer(file, notes[1..]);
        assert notes[..FirstTrailer(notes) + 1][1..] == notes[1..][..FirstTrailer(notes)];
    }
  }

  /** A data message that cannot be written: too short for an offset, or with a negative one. */
  predicate Malformed(note: Note) { note.Data? && (|note.body| < 8 || note.body[0] >= 128) }

  lemma {:induction false} MalformedCollects(file: Bytes, notes: seq<Note>, k: nat)
    requires k < FirstTrailer(notes) && Malformed(notes[k])
    ensures Collect(file, notes) == Bad
    decreases |notes|
  {
    if notes[0].Data? {
      DecodeIff(notes[0].body);
    }
    if k > 0 {
      match notes[0] {
        case Data(body) =>
          if DecodeChunk(body).Some? {
            var (off, data) := DecodeChunk(body).value;
            if WriteAt(file, off, data).Some? {
              MalformedCollects(WriteAt(file, off, data).value, notes[1..], k - 1);
            }
          }
        case Trailer(_, _) =>
        case Header => MalformedCollects(file, notes[1..], k - 1);
        case Other => MalformedCollects(file, notes[1..], k - 1);
      }
    }
  }

  lemma {:induction false} NoTrailerCollects(file: Bytes, notes: seq<Note>)
    requires FirstTrailer(notes) == |notes|
    ensures !Collect(file, notes).Closed?
    decreases |notes|
  {
    if notes != [] {
      match notes[0] {
        case Data(body) =>
          if DecodeChunk(body).Some? {
            var (off, data) := DecodeChunk(body).value;
            if WriteAt(file, off, data).Some? {
              NoTrailerCollects(WriteAt(file, off, data).value, notes[1..]);
            }
          }
        case Trailer(_, _) =>
        case Header => NoTrailerCollects(file, notes[1..]);
        case Other => NoTrailerCollects(file, notes[1..]);
      }
    }
  }

  /** What Receive turns away: no header first, no trailer, or something unwritable before the trailer. */
  lemma Rejections(hash: Bytes -> Bytes, notes: seq<Note>)
    ensures notes == [] || !notes[0].Header? ==> Verdict(hash, notes) == Rejected
    ensures FirstTrailer(notes) == |notes| ==> Verdict(hash, notes) == Rejected
    ensures (exists k :: 0 <= k < FirstTrailer(notes) && Malformed(notes[k])) ==> Verdict(hash, notes) == Rejected
  {
    if notes != [] && notes[0].Header? {
      assert FirstTrailer(notes) == 1 + FirstTrailer(notes[1..]);
      if FirstTrailer(notes) == |notes| {
        NoTrailerCollects([], notes[1..]);
      }
      if k :| 0 <= k < FirstTrailer(notes) && Malformed(notes[k]) {
        MalformedCollects([], notes[1..], k - 1);
      }
    }
  }

  /** A file read in whole buffers of 512 KiB and a last part is one way to read it. */
  function WholeReads(n: nat): seq<nat>
  {
    if n == 0 then [] else if n <= 524288 then [n] else [524288] + WholeReads(n - 524288)
  }

  lemma {:induction false} SumCons(a: nat, s: seq<nat>)
    ensures Sum([a] + s) == a + Sum(s)
  {
    if s == [] {
      assert [a] + s == [a] && [a][..0] == [];
    } else {
      SumCons(a, s[..|s| - 1]);
      assert ([a] + s)[..|s|] == [a] + s[..|s| - 1];
    }
  }

  lemma {:induction false} WholeReadsSum(n: nat)
    ensures Sum(WholeReads(n)) == n && forall k :: 0 <= k < |WholeReads(n)| ==> WholeReads(n)[k] <= 524288
  {
    if n > 524288 {
      WholeReadsSum(n - 524288);
      SumCons(524288, WholeReads(n - 524288));
    } else if n > 0 {
      SumCons(n, []);
      assert [n] + [] == [n];
    }
  }

  lemma EveryFileReads(src: Bytes)
    requires |src| < INT64
    ensures Reads(src, WholeReads(|src|))
  {
    WholeReadsSum(|src|);
  }

  // ---------------------------------------------------------------- any order, any duplication

  /** A note that is not a trailer, and if it is data, is one of the chunks sent. */
  ghost predicate Harmless(src: Bytes, sizes: seq<nat>, note: Note)
    requires Reads(src, sizes)
  {
    !note.Trailer? && (note.Data? ==> exists k :: 0 <= k < |sizes| && sizes[k] > 0 && note == ChunkOf(src, sizes, k))
  }

  /** Equal chunk messages stand for the same bytes at the same place. */
  lemma SameChunk(src: Bytes, sizes: seq<nat>, i: nat, k: nat)
    requires Reads(src, sizes) && i < |sizes| && k < |sizes| && ChunkOf(src, sizes, i) == ChunkOf(src, sizes, k)
    ensures OffsetOf(src, sizes, i) == OffsetOf(src, sizes, k) && sizes[i] == sizes[k]
  {
    DecodeEncoded(OffsetOf(src, sizes, i), BytesOf(src, sizes, i));
    DecodeEncoded(OffsetOf(src, sizes, k), BytesOf(src, sizes, k));
    assert |BytesOf(src, sizes, i)| == sizes[i] && |BytesOf(src, sizes, k)| == sizes[k];
  }

  /** Every byte of the file belongs to one read. */
  lemma ReadHolding(sizes: seq<nat>, b: int) returns (k: nat)
    requires 0 <= b < Sum(sizes)
    ensures k < |sizes| && Sum(sizes[..k]) <= b < Sum(sizes[..k]) + sizes[k]
  {
    k := 0;
    assert sizes[..|sizes|] == sizes;
    while Sum(sizes[..k + 1]) <= b
      invariant 0 <= k < |sizes| && Sum(sizes[..k]) <= b
      decreases |sizes| - k
    {
      k := k + 1;
    }
    SumStep(sizes, k);
  }

  lemma {:induction false} SentAre(src: Bytes, sizes: seq<nat>, n: nat, note: Note)
    requires Reads(src, sizes) && n <= |sizes|
    ensures note in Sent(src, sizes, n) <==> exists k :: 0 <= k < n && sizes[k] > 0 && note == ChunkOf(src, sizes, k)
  {
    if n > 0 {
      SentAre(src, sizes, n - 1, note);
    }
  }

  /** Byte `b` of the file is in a chunk among the notes. */
  ghost predicate Covered(src: Bytes, sizes: seq<nat>, notes: seq<Note>, b: int)
    requires Reads(src, sizes)
  {
    exists k :: 0 <= k < |sizes| && Carries(src, sizes, notes, k, b)
  }

  ghost predicate Carries(src: Bytes, sizes: seq<nat>, notes: seq<Note>, k: nat, b: int)
    requires Reads(src, sizes) && k < |sizes|
  {
    sizes[k] > 0 && ChunkOf(src, sizes, k) in notes && OffsetOf(src, sizes, k) <= b < OffsetOf(src, sizes, k) + sizes[k]
  }

  /** The bytes of the file that are in a chunk among the notes. */
  ghost function Cover(src: Bytes, sizes: seq<nat>, notes: seq<Note>): set<int>
    requires Reads(src, sizes)
  {
    set b | 0 <= b < |src| && Covered(src, sizes, notes, b)
  }

  /** The file has these bytes of the source, zeros between them, and nothing beyond the last. */
  ghost predicate Exact(src: Bytes, cover: set<int>, file: Bytes)
  {
    && |file| <= |src|
    && (forall b :: 0 <= b < |file| ==> file[b] == if b in cover then src[b] else 0)
    && (forall b :: b in cover ==> 0 <= b < |file|)
    && (file != [] ==> |file| - 1 in cover)
  }

  function Span(off: int, m: nat): (s: set<int>)
    ensures forall b :: b in s <==> off <= b < off + m
  {
    if m == 0 then {} else Span(off, m - 1) + {off + m - 1}
  }

  lemma PlacedExact(src: Bytes, cover: set<int>, file: Bytes, off: int, m: nat, f: Bytes)
    requires Exact(src, cover, file) && 0 <= off && 0 < m && off + m <= |src|
    requires |f| == (if off + m > |file| then off + m else |file|)
    requires forall j :: 0 <= j < |f| ==> f[j] == if off <= j < off + m then src[j] else if j < |file| then file[j] else 0
    ensures Exact(src, cover + Span(off, m), f)
  {
  }

  lemma WriteExact(src: Bytes, cover: set<int>, file: Bytes, off: int, m: int)
    requires Exact(src, cover, file) && 0 <= off && 0 < m && off + m <= |src|
    ensures var f := WriteAt(file, off, src[off..off + m]); f.Some? && Exact(src, cover + Span(off, m), f.value)
  {
    WriteAtIs(file, off, src[off..off + m]);
    PlacedExact(src, cover, file, off, m, WriteAt(file, off, src[off..off + m]).value);
  }

  lemma CoveredSnoc(src: Bytes, sizes: seq<nat>, notes: seq<Note>, k: nat, b: int)
    requires Reads(src, sizes) && k < |sizes| && sizes[k] > 0
    ensures Covered(src, sizes, notes + [ChunkOf(src, sizes, k)], b) <==>
            Covered(src, sizes, notes, b) || OffsetOf(src, sizes, k) <= b < OffsetOf(src, sizes, k) + sizes[k]
  {
    var more := notes + [ChunkOf(src, sizes, k)];
    if Covered(src, sizes, notes, b) {
      var i :| 0 <= i < |sizes| && Carries(src, sizes, notes, i, b);
      assert Carries(src, sizes, more, i, b);
    }
    if OffsetOf(src, sizes, k) <= b < OffsetOf(src, sizes, k) + sizes[k] {
      assert Carries(src, sizes, more, k, b);
    }
    if Covered(src, sizes, more, b) {
      var i :| 0 <= i < |sizes| && Carries(src, sizes, more, i, b);
      if ChunkOf(src, sizes, i) in notes {
        assert Carries(src, sizes, notes, i, b);
      } else {
        SameChunk(src, sizes, i, k);
      }
    }
  }

  lemma CoveredOther(src: Bytes, sizes: seq<nat>, notes: seq<Note>, note: Note, b: int)
    requires Reads(src, sizes) && !note.Data?
    ensures Covered(src, sizes, notes + [note], b) <==> Covered(src, sizes, notes, b)
  {
    if Covered(src, sizes, notes, b) {
      var i :| 0 <= i < |sizes| && Carries(src, sizes, notes, i, b);
      assert Carries(src, sizes, notes + [note], i, b);
    }
    if Covered(src, sizes, notes + [note], b) {
      var i :| 0 <= i < |sizes| && Carries(src, sizes, notes + [note], i, b);
      assert Carries(src, sizes, notes, i, b);
    }
  }

  lemma ExactChunk(src: Bytes, sizes: seq<nat>, notes: seq<Note>, file: Bytes, k: nat)
    requires Reads(src, sizes) && k < |sizes| && sizes[k] > 0 && Exact(src, Cover(src, sizes, notes), file)
    ensures var f := WriteAt(file, OffsetOf(src, sizes, k), BytesOf(src, sizes, k));
            f.Some? && Exact(src, Cover(src, sizes, notes + [ChunkOf(src, sizes, k)]), f.value)
  {
    WriteExact(src, Cover(src, sizes, notes), file, OffsetOf(src, sizes, k), sizes[k]);
    CoverSnoc(src, sizes, notes, k);
  }

  lemma CoverSnoc(src: Bytes, sizes: seq<nat>, notes: seq<Note>, k: nat)
    requires Reads(src, sizes) && k < |sizes| && sizes[k] > 0
    ensures Cover(src, sizes, notes + [ChunkOf(src, sizes, k)]) == Cover(src, sizes, notes) + Span(OffsetOf(src, sizes, k), sizes[k])
  {
    var off, more := OffsetOf(src, sizes, k), notes + [ChunkOf(src, sizes, k)];
    forall b ensures b in Cover(src, sizes, more) <==> b in Cover(src, sizes, notes) + Span(off, sizes[k]) {
      CoveredSnoc(src, sizes, notes, k, b);
    }
  }

  /** The file after any chunks, whatever follows them. */
  lemma {:induction false} CollectExact(src: Bytes, sizes: seq<nat>, file: Bytes, done: seq<Note>, notes: seq<Note>, rest: seq<Note>) returns (f: Bytes)
    requires Reads(src, sizes) && Exact(src, Cover(src, sizes, done), file)
    requires forall i :: 0 <= i < |notes| ==> Harmless(src, sizes, notes[i])
    ensures Collect(file, notes + rest) == Collect(f, rest) && Exact(src, Cover(src, sizes, done + notes), f)
    decreases |notes|
  {
    if notes == [] {
      assert notes + rest == rest && done + notes == done;
      f := file;
    } else {
      assert (notes + rest)[0] == notes[0] && (notes + rest)[1..] == notes[1..] + rest;
      assert done + [notes[0]] + notes[1..] == done + notes;
      var file' := StepExact(src, sizes, file, done, notes + rest);
      f := CollectExact(src, sizes, file', done + [notes[0]], notes[1..], rest);
    }
  }

  lemma StepExact(src: Bytes, sizes: seq<nat>, file: Bytes, done: seq<Note>, notes: seq<Note>) returns (f: Bytes)
    requires Reads(src, sizes) && Exact(src, Cover(src, sizes, done), file) && notes != [] && Harmless(src, sizes, notes[0])
    ensures Collect(file, notes) == Collect(f, notes[1..]) && Exact(src, Cover(src, sizes, done + [notes[0]]), f)
  {
    f := file;
    if notes[0].Data? {
      var k :| 0 <= k < |sizes| && sizes[k] > 0 && notes[0] == ChunkOf(src, sizes, k);
      DecodeEncoded(OffsetOf(src, sizes, k), BytesOf(src, sizes, k));
      ExactChunk(src, sizes, done, file, k);
      f := WriteAt(file, OffsetOf(src, sizes, k), BytesOf(src, sizes, k)).value;
    } else {
      forall b ensures Covered(src, sizes, done + [notes[0]], b) <==> Covered(src, sizes, done, b) {
        CoveredOther(src, sizes, done, notes[0], b);
      }
      assert Cover(src, sizes, done + [notes[0]]) == Cover(src, sizes, done);
    }
  }

  /** Every byte that is not zero, and the last one, is in a chunk among the notes. */
  ghost predicate Enough(src: Bytes, sizes: seq<nat>, notes: seq<Note>)
    requires Reads(src, sizes)
  {
    forall b :: 0 <= b < |src| && (src[b] != 0 || b == |src| - 1) ==> Covered(src, sizes, notes, b)
  }

  lemma ExactIsSource(src: Bytes, cover: set<int>, f: Bytes)
    requires Exact(src, cover, f)
    ensures f == src <==> forall b :: 0 <= b < |src| && (src[b] != 0 || b == |src| - 1) ==> b in cover
  {
    if f == src {
      forall b | 0 <= b < |src| && (src[b] != 0 || b == |src| - 1) ensures b in cover {
        assert f[b] == src[b];
      }
    }
    if forall b :: 0 <= b < |src| && (src[b] != 0 || b == |src| - 1) ==> b in cover {
      if src != [] {
        assert src[|src| - 1] == 0 || |src| - 1 in cover;
      }
      assert f == src;
    }
  }

  lemma CollectsEnough(src: Bytes, sizes: seq<nat>, notes: seq<Note>, rest: seq<Note>) returns (f: Bytes)
    requires Reads(src, sizes)
    requires forall m :: m in notes ==> !m.Trailer? && (m.Data? ==> m in Sent(src, sizes, |sizes|))
    ensures Collect([], notes + rest) == Collect(f, rest) && (f == src <==> Enough(src, sizes, notes))
  {
    forall i | 0 <= i < |notes| ensures Harmless(src, sizes, notes[i]) {
      SentAre(src, sizes, |sizes|, notes[i]);
    }
    f := CollectExact(src, sizes, [], [], notes, rest);
    assert [] + notes == notes;
    ExactIsSource(src, Cover(src, sizes, notes), f);
  }

  /**
   * What a trailer that overtakes its data does.  The chunks before the first trailer, in any order
   * and multiplicity, decide: exactly the file is saved if and only if they hold every byte of it
   * that is not zero, and the last one.  Whatever comes after the trailer is too late.
   */
  lemma SavedIff(src: Bytes, sizes: seq<nat>, hash: Bytes -> Bytes, notes: seq<Note>, rest: seq<Note>)
    requires Reads(src, sizes)
    requires forall m :: m in notes ==> !m.Trailer? && (m.Data? ==> m in Sent(src, sizes, |sizes|))
    ensures Verdict(hash, [Header] + notes + ([Trailer(hash(src), |src|)] + rest)) == Saved(src) <==> Enough(src, sizes, notes)
  {
    var tail := [Trailer(hash(src), |src|)] + rest;
    var f := CollectsEnough(src, sizes, notes, tail);
    VerdictAtTrailer(hash, notes, tail, f);
  }

  lemma VerdictAtTrailer(hash: Bytes -> Bytes, notes: seq<Note>, tail: seq<Note>, f: Bytes)
    requires tail != [] && tail[0].Trailer? && Collect([], notes + tail) == Collect(f, tail)
    ensures Verdict(hash, [Header] + notes + tail) == if hash(f) == tail[0].sum && |f| == tail[0].total then Saved(f) else Rejected
  {
    assert [Header] + notes + tail == [Header] + (notes + tail);
    TailOfAppend([Header], notes + tail);
  }

  /**
   * Out-of-order receive.  Cut the file by reads of any sizes; let the data messages that Send sent
   * arrive in any order and any number of times, each at least once, mixed with anything that is
   * neither data nor a trailer; then the trailer.  Receive saves exactly the file.
   */
  lemma ReceiveRebuilds(src: Bytes, sizes: seq<nat>, hash: Bytes -> Bytes, notes: seq<Note>, rest: seq<Note>)
    requires Reads(src, sizes)
    requires forall m :: m in notes ==> !m.Trailer? && (m.Data? ==> m in Sent(src, sizes, |sizes|))
    requires forall m :: m in Sent(src, sizes, |sizes|) ==> m in notes
    ensures Verdict(hash, [Header] + notes + ([Trailer(hash(src), |src|)] + rest)) == Saved(src)
  {
    forall b | 0 <= b < |src| && (src[b] != 0 || b == |src| - 1) ensures Covered(src, sizes, notes, b) {
      var k := ReadHolding(sizes, b);
      SentAre(src, sizes, |sizes|, ChunkOf(src, sizes, k));
      assert Carries(src, sizes, notes, k, b);
    }
    SavedIff(src, sizes, hash, notes, rest);
  }

  /**
   * When the ring replays a transfer it does so newest first (see ReplayReverses): the trailer comes
   * before all data, and the file is saved only if it is empty; nor is the header first, if it is
   * replayed as well.
   */
  lemma ReplayedTransfer(src: Bytes, sizes: seq<nat>, hash: Bytes -> Bytes)
    requires Reads(src, sizes)
    ensures var notes := Sent(src, sizes, |sizes|) + [Trailer(hash(src), |src|)];
            && (Verdict(hash, [Header] + Reversed(notes)) == Saved(src) <==> src == [])
            && Verdict(hash, Reversed([Header] + notes)) == Rejected
  {
    var trailer, sent := Trailer(hash(src), |src|), Sent(src, sizes, |sizes|);
    var notes := sent + [trailer];
    assert notes[..|sent|] == sent;
    assert Reversed(notes) == [trailer] + Reversed(sent);
    assert [Header] + Reversed(notes) == [Header] + [] + ([trailer] + Reversed(sent));
    SavedIff(src, sizes, hash, [], Reversed(sent));
    if src != [] {
      assert !Covered(src, sizes, [], |src| - 1);
    }
    assert Reversed([Header] + notes)[0] == trailer;
  }
}
