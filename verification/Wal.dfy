/** The write-ahead log (pkg/wal): its bytes, what they mean, and what survives a torn write. */
module Wal {
  import opened Bytes
  import opened PrefixCode

  const OP_SEND: byte := 1
  const OP_ACK: byte := 2
  const RECORD_HEADER: nat := 13

  datatype Record = Record(op: byte, id: u64, payload: Bytes)
  datatype Entry = Entry(id: u64, payload: Bytes)

  /** The image of a record; the length field is 32 bits wide and only that much payload is copied. */
  function RecordBytes(r: Record): (b: Bytes)
    ensures |b| >= RECORD_HEADER && b[0] == r.op
  {
    var n := |r.payload| % 0x1_0000_0000;
    [r.op] + PutBE(n, 4) + PutBE(r.id, 8) + r.payload[..n]
  }

  function ParseRecord(b: Bytes): (p: Parse<Record>)
    ensures p.Item? ==> 0 < p.used <= |b| && p.value.op == b[0] && |p.value.payload| < 0x1_0000_0000
  {
    if |b| < RECORD_HEADER then Stop
    else
      Pow256Values();
      var n := GetBE(b[1..5]);
      if |b| < RECORD_HEADER + n then Stop
      else Item(Record(b[0], GetBE(b[5..13]), b[13..13 + n]), RECORD_HEADER + n)
  }

  function LogBytes(rs: seq<Record>): Bytes { PrintAll(RecordBytes, rs) }
  function Records(file: Bytes): seq<Record> { ParseAll(ParseRecord, file) }
  /** The bytes of a record that was cut short; nothing after them is read as it was written. */
  function TornTail(file: Bytes): Bytes { Leftover(ParseRecord, file) }

  predicate Intact(r: Record) { |r.payload| < 0x1_0000_0000 }
  predicate AllIntact(rs: seq<Record>) { forall i :: 0 <= i < |rs| ==> Intact(rs[i]) }

  // ---------------------------------------------------------------- bytes

  lemma ParseImage(r: Record, rest: Bytes)
    ensures ParseRecord(RecordBytes(r) + rest)
         == Item(Record(r.op, r.id, r.payload[..|r.payload| % 0x1_0000_0000]), |RecordBytes(r)|)
  {
    Pow256Values();
    var n := |r.payload| % 0x1_0000_0000;
    var b := RecordBytes(r) + rest;
    assert b[1..5] == PutBE(n, 4);
    assert b[5..13] == PutBE(r.id, 8);
    assert b[13..13 + n] == r.payload[..n];
    GetPut(n, 4);
    GetPut(r.id, 8);
  }

  /** A record is stored unaltered exactly when its payload is under 4 GiB. */
  lemma StoredIntactIff(r: Record)
    ensures Records(RecordBytes(r)) == [r] <==> Intact(r)
  {
    var b := RecordBytes(r);
    ParseImage(r, []);
    assert b + [] == b && b[|b|..] == [];
    assert Records([]) == [];
    assert Records(b) == [ParseRecord(b).value];
    assert Records(b)[0] == ParseRecord(b).value;
    assert Intact(r) ==> r.payload[..|r.payload|] == r.payload;
  }

  /** Where each field of a record is, most significant byte first. */
  lemma RecordLayout(r: Record)
    requires Intact(r)
    ensures var b := RecordBytes(r);
            |b| == 13 + |r.payload| && b[0] == r.op && At4(b, 1) == |r.payload| && At8(b, 5) == r.id && b[13..] == r.payload
  {
    var b := RecordBytes(r);
    Pow256Values();
    assert b[13..] == r.payload[..|r.payload|] == r.payload;
    assert At4(b, 1) == |r.payload| by {
      assert b[1..5] == PutBE(|r.payload|, 4);
      GetPut(|r.payload|, 4);
      BigEndian(b, 1);
    }
    assert At8(b, 5) == r.id by {
      assert b[5..13] == PutBE(r.id, 8);
      GetPut(r.id, 8);
      BigEndian(b, 5);
    }
  }

  lemma TornImage(r: Record, k: nat)
    requires Intact(r) && k < |RecordBytes(r)|
    ensures ParseRecord(RecordBytes(r)[..k]) == Stop
  {
    if k >= RECORD_HEADER {
      Pow256Values();
      assert RecordBytes(r)[..k][1..5] == RecordBytes(r)[1..5] == PutBE(|r.payload|, 4);
      GetPut(|r.payload|, 4);
    }
  }

  lemma RecordDelimits(r: Record)
    requires Intact(r)
    ensures Delimits(RecordBytes, ParseRecord, r)
  {
    assert r.payload[..|r.payload|] == r.payload;
    forall rest: Bytes ensures ParseRecord(RecordBytes(r) + rest) == Item(r, |RecordBytes(r)|) {
      ParseImage(r, rest);
    }
    forall k: nat | k < |RecordBytes(r)| ensures ParseRecord(RecordBytes(r)[..k]) == Stop {
      TornImage(r, k);
    }
  }

  lemma RecordsDelimit(rs: seq<Record>)
    requires AllIntact(rs)
    ensures AllDelimited(RecordBytes, ParseRecord, rs)
  {
    forall i | 0 <= i < |rs| ensures Delimits(RecordBytes, ParseRecord, rs[i]) {
      RecordDelimits(rs[i]);
    }
  }

  lemma RecordsOfLog(rs: seq<Record>)
    requires AllIntact(rs)
    ensures Records(LogBytes(rs)) == rs && TornTail(LogBytes(rs)) == []
  {
    RecordsDelimit(rs);
    ParsePrinted(RecordBytes, ParseRecord, rs, []);
    assert LogBytes(rs) + [] == LogBytes(rs);
  }

  lemma RecordsIntact(file: Bytes)
    ensures AllIntact(Records(file))
    decreases |file|
  {
    var p := ParseRecord(file);
    if p.Item? {
      RecordsIntact(file[p.used..]);
    }
  }

  lemma AppendAfter(file: Bytes, rs: seq<Record>)
    requires AllIntact(rs) && TornTail(file) == []
    ensures Records(file + LogBytes(rs)) == Records(file) + rs
    ensures TornTail(file + LogBytes(rs)) == []
  {
    ResumesHolds();
    ParseResumes(ParseRecord, file, LogBytes(rs));
    LeftoverResumes(file, LogBytes(rs));
    assert TornTail(file) + LogBytes(rs) == LogBytes(rs);
    RecordsOfLog(rs);
  }

  lemma ResumesHolds()
    ensures forall x: Bytes, y: Bytes :: ParseRecord(x).Item? && 0 < ParseRecord(x).used <= |x| ==> ParseRecord(x + y) == ParseRecord(x)
  {
    forall x: Bytes, y: Bytes | ParseRecord(x).Item? ensures ParseRecord(x + y) == ParseRecord(x) {
      var n := ParseRecord(x).used;
      assert (x + y)[1..5] == x[1..5] && (x + y)[5..13] == x[5..13] && (x + y)[13..n] == x[13..n];
    }
  }

  lemma {:induction false} LeftoverResumes(a: Bytes, b: Bytes)
    ensures TornTail(a + b) == TornTail(TornTail(a) + b)
    decreases |a|
  {
    var p := ParseRecord(a);
    if p.Item? {
      ResumesHolds();
      assert ParseRecord(a + b) == p;
      assert (a + b)[p.used..] == a[p.used..] + b;
      LeftoverResumes(a[p.used..], b);
    }
  }

  lemma LogBytesOne(r: Record)
    ensures LogBytes([r]) == RecordBytes(r)
  {
    assert [r][1..] == [];
    assert PrintAll(RecordBytes, [r]) == RecordBytes(r) + PrintAll(RecordBytes, []);
  }

  lemma AppendRecordReads(file: Bytes, r: Record)
    requires TornTail(file) == [] && Intact(r)
    ensures Records(file + RecordBytes(r)) == Records(file) + [r]
  {
    AppendAfter(file, [r]);
    LogBytesOne(r);
  }

  /** A record whose operation differs from the torn one's is not read back after a torn tail. */
  lemma TornTailHides(file: Bytes, r: Record)
    requires TornTail(file) != [] && r.op != TornTail(file)[0]
    ensures Records(file + RecordBytes(r)) != Records(file) + [r]
  {
    var tail := TornTail(file);
    ResumesHolds();
    ParseResumes(ParseRecord, file, RecordBytes(r));
    var more := Records(tail + RecordBytes(r));
    assert more != [] ==> more[0].op == tail[0];
    assert (Records(file) + more)[|Records(file)|..] == more;
    assert (Records(file) + [r])[|Records(file)|..] == [r];
  }

  /**
   * The next record appended is read back, whatever it is, exactly when the file does not end in
   * a torn record.  The log does not repair a torn tail when it is reopened.
   */
  lemma AppendReadsBackIff(file: Bytes)
    ensures (forall r: Record :: Intact(r) ==> Records(file + RecordBytes(r)) == Records(file) + [r])
       <==> TornTail(file) == []
  {
    if TornTail(file) == [] {
      forall r: Record | Intact(r) ensures Records(file + RecordBytes(r)) == Records(file) + [r] {
        AppendRecordReads(file, r);
      }
    } else {
      var r := Record(if TornTail(file)[0] == OP_SEND then OP_ACK else OP_SEND, 0, []);
      TornTailHides(file, r);
      assert Intact(r);
    }
  }

  lemma ImageOfParsed(b: Bytes)
    requires ParseRecord(b).Item?
    ensures RecordBytes(ParseRecord(b).value) == b[..ParseRecord(b).used]
  {
    var r, n := ParseRecord(b).value, ParseRecord(b).used;
    assert r.payload == b[13..n] && r.payload[..|r.payload|] == r.payload;
    assert PutBE(|r.payload|, 4) == b[1..5] by {
      PutGet(b[1..5]);
    }
    assert PutBE(r.id, 8) == b[5..13] by {
      PutGet(b[5..13]);
    }
    FourParts(b, n);
  }

  lemma FourParts(b: Bytes, n: nat)
    requires 13 <= n <= |b|
    ensures [b[0]] + b[1..5] + b[5..13] + b[13..n] == b[..n]
  {
  }

  /** A file without a torn tail is the image of its records. */
  lemma {:induction false} CleanIsImage(file: Bytes)
    requires TornTail(file) == []
    ensures LogBytes(Records(file)) == file
    decreases |file|
  {
    var p := ParseRecord(file);
    if p.Item? {
      ImageOfParsed(file);
      CleanIsImage(file[p.used..]);
      assert file == file[..p.used] + file[p.used..];
      assert Records(file)[0] == p.value && Records(file)[1..] == Records(file[p.used..]);
    }
  }

  // ---------------------------------------------------------------- meaning

  /** The state of Replay: payloads of unacknowledged sends, and IDs in order of first send. */
  datatype Scan = Scan(pending: map<u64, Bytes>, order: seq<u64>)

  function Step(s: Scan, r: Record): Scan
  {
    if r.op == OP_SEND then
      Scan(s.pending[r.id := r.payload], if r.id in s.pending then s.order else s.order + [r.id])
    else if r.op == OP_ACK then
      Scan(s.pending - {r.id}, s.order)
    else s
  }

  function Fold(rs: seq<Record>): Scan
  {
    if rs == [] then Scan(map[], []) else Step(Fold(rs[..|rs| - 1]), rs[|rs| - 1])
  }

  function Listed(order: seq<u64>, pending: map<u64, Bytes>): seq<Entry>
  {
    if order == [] then []
    else
      var id := order[|order| - 1];
      Listed(order[..|order| - 1], pending) + if id in pending then [Entry(id, pending[id])] else []
  }

  function Entries(rs: seq<Record>): seq<Entry> { Listed(Fold(rs).order, Fold(rs).pending) }
  function Unacked(file: Bytes): map<u64, Bytes> { Fold(Records(file)).pending }

  predicate Touches(r: Record, id: u64) { r.id == id && (r.op == OP_SEND || r.op == OP_ACK) }

  /** The last record about `id` in the log is the send of `payload`. */
  ghost predicate LastIsSend(rs: seq<Record>, id: u64, payload: Bytes)
  {
    exists i :: 0 <= i < |rs| && rs[i] == Record(OP_SEND, id, payload) && forall j :: i < j < |rs| ==> !Touches(rs[j], id)
  }

  /**
   * What the log means, without Replay: a payload is pending for an ID exactly when the last
   * record about that ID sends that payload.
   */
  lemma {:induction false} PendingIff(rs: seq<Record>, id: u64, payload: Bytes)
    ensures id in Fold(rs).pending && Fold(rs).pending[id] == payload <==> LastIsSend(rs, id, payload)
  {
    if rs != [] {
      var n := |rs| - 1;
      var r := rs[n];
      PendingIff(rs[..n], id, payload);
      if Touches(r, id) {
        if r == Record(OP_SEND, id, payload) {
          assert LastIsSend(rs, id, payload);
        }
      } else {
        if LastIsSend(rs[..n], id, payload) {
          var i :| 0 <= i < n && rs[..n][i] == Record(OP_SEND, id, payload) && forall j :: i < j < n ==> !Touches(rs[..n][j], id);
          assert rs[i] == Record(OP_SEND, id, payload);
          assert forall j :: i < j < n ==> rs[j] == rs[..n][j];
          assert forall j :: i < j < |rs| ==> !Touches(rs[j], id);
        }
        if LastIsSend(rs, id, payload) {
          var i :| 0 <= i < |rs| && rs[i] == Record(OP_SEND, id, payload) && forall j :: i < j < |rs| ==> !Touches(rs[j], id);
          assert i < n && rs[..n][i] == rs[i];
          assert LastIsSend(rs[..n], id, payload);
        }
      }
    }
  }

  function Occurrences<T(==)>(s: seq<T>, x: T): nat { multiset(s)[x] }

  /** `rs[i]` sends `id` when no earlier send of it is outstanding: the log is (re)opened for `id`. */
  predicate Opens(rs: seq<Record>, i: nat, id: u64)
    requires i < |rs|
  {
    rs[i].op == OP_SEND && rs[i].id == id &&
    (forall j :: 0 <= j < i && rs[j].op == OP_SEND && rs[j].id == id ==>
       exists k :: j < k < i && rs[k].op == OP_ACK && rs[k].id == id)
  }

  function OpenCount(rs: seq<Record>, id: u64): nat
  {
    if rs == [] then 0
    else OpenCount(rs[..|rs| - 1], id) + if Opens(rs, |rs| - 1, id) then 1 else 0
  }

  lemma OpensWhenNotPending(rs: seq<Record>, id: u64)
    requires rs != [] && rs[|rs| - 1].op == OP_SEND && rs[|rs| - 1].id == id
    ensures Opens(rs, |rs| - 1, id) <==> id !in Fold(rs[..|rs| - 1]).pending
  {
    var n := |rs| - 1;
    var front := rs[..n];
    if id in Fold(front).pending {
      var payload := Fold(front).pending[id];
      PendingIff(front, id, payload);
      var i :| 0 <= i < n && front[i] == Record(OP_SEND, id, payload) && forall j :: i < j < n ==> !Touches(front[j], id);
      assert rs[i] == front[i];
      assert forall k :: i < k < n ==> rs[k] == front[k];
    } else {
      forall j | 0 <= j < n && rs[j].op == OP_SEND && rs[j].id == id
        ensures exists k :: j < k < n && rs[k].op == OP_ACK && rs[k].id == id
      {
        var i := LastTouch(front, id, j);
        assert rs[i] == front[i];
        if rs[i].op == OP_SEND {
          assert LastIsSend(front, id, front[i].payload);
          PendingIff(front, id, front[i].payload);
        }
      }
    }
  }

  /** The last record about `id`, which is at `j` or later. */
  lemma {:induction false} LastTouch(rs: seq<Record>, id: u64, j: nat) returns (i: nat)
    requires j < |rs| && Touches(rs[j], id)
    ensures j <= i < |rs| && Touches(rs[i], id) && forall k :: i < k < |rs| ==> !Touches(rs[k], id)
  {
    i := |rs| - 1;
    while !Touches(rs[i], id)
      invariant j <= i < |rs|
      invariant forall k :: i < k < |rs| ==> !Touches(rs[k], id)
      decreases i
    {
      i := i - 1;
    }
  }

  lemma {:induction false} OrderCounts(rs: seq<Record>, id: u64)
    ensures Occurrences(Fold(rs).order, id) == OpenCount(rs, id)
  {
    if rs != [] {
      var r := rs[|rs| - 1];
      OrderCounts(rs[..|rs| - 1], id);
      if r.op == OP_SEND && r.id == id {
        OpensWhenNotPending(rs, id);
      }
    }
  }

  function Ids(es: seq<Entry>): seq<u64> { seq(|es|, i requires 0 <= i < |es| => es[i].id) }

  lemma {:induction false} ListedCounts(order: seq<u64>, pending: map<u64, Bytes>, id: u64)
    ensures Occurrences(Ids(Listed(order, pending)), id) == if id in pending then Occurrences(order, id) else 0
  {
    if order != [] {
      var n := |order| - 1;
      var front := Listed(order[..n], pending);
      ListedCounts(order[..n], pending, id);
      assert order == order[..n] + [order[n]];
      if order[n] in pending {
        assert Ids(front + [Entry(order[n], pending[order[n]])]) == Ids(front) + [order[n]];
      } else {
        assert front + [] == front;
      }
    }
  }

  lemma {:induction false} ListedFrom(order: seq<u64>, pending: map<u64, Bytes>)
    ensures forall e :: e in Listed(order, pending) ==> e.id in pending && e.payload == pending[e.id] && e.id in order
  {
    if order != [] {
      ListedFrom(order[..|order| - 1], pending);
    }
  }

  /**
   * Replay, exactly: it lists an entry for an ID if and only if the last record about that ID is a
   * send, always with that send's payload, and it lists the ID once for every time the log
   * was opened for it (a send after an acknowledgement lists it again).
   */
  lemma EntriesExactly(rs: seq<Record>, id: u64, payload: Bytes)
    ensures Entry(id, payload) in Entries(rs) <==> LastIsSend(rs, id, payload)
    ensures LastIsSend(rs, id, payload) ==> Occurrences(Ids(Entries(rs)), id) == OpenCount(rs, id) >= 1
  {
    var s := Fold(rs);
    PendingIff(rs, id, payload);
    ListedCounts(s.order, s.pending, id);
    ListedFrom(s.order, s.pending);
    OrderCounts(rs, id);
    PendingOrdered(rs, id);
    if id in s.pending && s.pending[id] == payload {
      assert id in Ids(Entries(rs));
      var i :| 0 <= i < |Entries(rs)| && Ids(Entries(rs))[i] == id;
      assert Entries(rs)[i].id == id;
    }
  }

  lemma {:induction false} PendingOrdered(rs: seq<Record>, id: u64)
    ensures id in Fold(rs).pending ==> id in Fold(rs).order
  {
    if rs != [] {
      PendingOrdered(rs[..|rs| - 1], id);
    }
  }

  /** A prefix of the log lists a prefix of the IDs. */
  lemma {:induction false} OrderOfPrefix(rs: seq<Record>, n: nat)
    requires n <= |rs|
    ensures Fold(rs[..n]).order <= Fold(rs).order
    decreases |rs|
  {
    if n < |rs| {
      OrderOfPrefix(rs[..|rs| - 1], n);
      assert rs[..|rs| - 1][..n] == rs[..n];
    } else {
      assert rs[..n] == rs;
    }
  }

  /**
   * Torn-write recovery.  Cut the file of any records at any byte: Replay sees the records that
   * lie wholly before the cut, which are as many as fit, and nothing else.
   */
  lemma TornWriteRecovery(rs: seq<Record>, k: nat)
    requires AllIntact(rs) && k <= |LogBytes(rs)|
    ensures var n := Whole(RecordBytes, rs, k);
            && Records(LogBytes(rs)[..k]) == rs[..n]
            && |LogBytes(rs[..n])| <= k
            && (n < |rs| ==> |LogBytes(rs[..n + 1])| > k)
  {
    RecordsOfCut(rs, k);
    WholeIsLargest(RecordBytes, rs, k);
  }

  lemma RecordsOfCut(rs: seq<Record>, k: nat)
    requires AllIntact(rs) && k <= |LogBytes(rs)|
    ensures Records(LogBytes(rs)[..k]) == rs[..Whole(RecordBytes, rs, k)]
  {
    RecordsDelimit(rs);
    ParseTruncated(RecordBytes, ParseRecord, rs, k);
  }

  /** No entry is invented or corrupted by a cut: each one listed was sent so, and not acknowledged, before it. */
  lemma TornEntries(rs: seq<Record>, k: nat, e: Entry)
    requires AllIntact(rs) && k <= |LogBytes(rs)|
    ensures e in Entries(Records(LogBytes(rs)[..k])) <==> LastIsSend(rs[..Whole(RecordBytes, rs, k)], e.id, e.payload)
  {
    TornWriteRecovery(rs, k);
    EntriesExactly(rs[..Whole(RecordBytes, rs, k)], e.id, e.payload);
  }
}
