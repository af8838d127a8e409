/** Rewriting the log so that it holds only unacknowledged sends (pkg/wal, Compact). */
module Compaction {
  import opened Bytes
  import opened PrefixCode
  import opened Wal

  function Sends(es: seq<Entry>): seq<Record>
  {
    seq(|es|, i requires 0 <= i < |es| => Record(OP_SEND, es[i].id, es[i].payload))
  }

  /** What Compact writes to the temporary file and renames over the log. */
  function CompactBytes(file: Bytes): Bytes
  {
    LogBytes(Sends(Entries(Records(file))))
  }

  ghost predicate DistinctIds(es: seq<Entry>)
  {
    forall i, j :: 0 <= i < j < |es| ==> es[i].id != es[j].id
  }

  /** Entries of one ID agree on the payload; Replay only ever lists such entries. */
  ghost predicate Consistent(es: seq<Entry>)
  {
    forall i, j :: 0 <= i < j < |es| && es[i].id == es[j].id ==> es[i].payload == es[j].payload
  }

  /** Only the first entry of each ID. */
  function Dedup(es: seq<Entry>): seq<Entry>
  {
    if es == [] then []
    else
      var e, front := es[|es| - 1], es[..|es| - 1];
      if e.id in Ids(front) then Dedup(front) else Dedup(front) + [e]
  }

  lemma DistinctSnoc(es: seq<Entry>)
    requires es != []
    ensures var n := |es| - 1; DistinctIds(es) <==> DistinctIds(es[..n]) && es[n].id !in Ids(es[..n])
  {
    var n := |es| - 1;
    assert forall i :: 0 <= i < n ==> Ids(es[..n])[i] == es[i].id;
    if DistinctIds(es[..n]) && es[n].id !in Ids(es[..n]) {
      forall i, j | 0 <= i < j < |es| ensures es[i].id != es[j].id {
        assert j < n ==> es[..n][i] == es[i] && es[..n][j] == es[j];
        assert j == n ==> Ids(es[..n])[i] in Ids(es[..n]);
      }
    }
  }

  lemma {:induction false} DedupShrinks(es: seq<Entry>)
    ensures |Dedup(es)| <= |es|
    ensures Dedup(es) == es <==> DistinctIds(es)
  {
    if es != [] {
      var front, e := es[..|es| - 1], es[|es| - 1];
      DedupShrinks(front);
      DistinctSnoc(es);
      assert es == front + [e];
      assert (Dedup(front) + [e])[..|Dedup(front)|] == Dedup(front);
    }
  }

  lemma {:induction false} ListedOutside(order: seq<u64>, pending: map<u64, Bytes>, id: u64, payload: Bytes)
    requires id !in order
    ensures Listed(order, pending[id := payload]) == Listed(order, pending)
  {
    if order != [] {
      ListedOutside(order[..|order| - 1], pending, id, payload);
    }
  }

  lemma {:induction false} SendsPending(es: seq<Entry>)
    requires Consistent(es)
    ensures forall id :: id in Fold(Sends(es)).pending <==> id in Ids(es)
    ensures forall id :: id in Fold(Sends(es)).order <==> id in Ids(es)
    ensures forall i :: 0 <= i < |es| ==> es[i].id in Fold(Sends(es)).pending && Fold(Sends(es)).pending[es[i].id] == es[i].payload
  {
    if es != [] {
      var n := |es| - 1;
      var s := Fold(Sends(es[..n]));
      SendsPending(es[..n]);
      SendsSnoc(es);
      forall i | 0 <= i < |es| ensures es[i].id in Fold(Sends(es)).pending && Fold(Sends(es)).pending[es[i].id] == es[i].payload {
        assert i < n ==> es[..n][i] == es[i];
      }
    }
  }

  lemma SendsSnoc(es: seq<Entry>)
    requires es != []
    ensures var n := |es| - 1;
            && Fold(Sends(es)) == Step(Fold(Sends(es[..n])), Record(OP_SEND, es[n].id, es[n].payload))
            && Ids(es) == Ids(es[..n]) + [es[n].id]
  {
    assert Sends(es)[..|es| - 1] == Sends(es[..|es| - 1]);
  }

  lemma ListedStep(s: Scan, e: Entry)
    requires e.id in s.pending ==> s.pending[e.id] == e.payload
    requires e.id in s.order <==> e.id in s.pending
    ensures var t := Step(s, Record(OP_SEND, e.id, e.payload));
            Listed(t.order, t.pending) == Listed(s.order, s.pending) + if e.id in s.pending then [] else [e]
  {
    if e.id in s.pending {
      assert s.pending[e.id := e.payload] == s.pending;
    } else {
      ListedOutside(s.order, s.pending, e.id, e.payload);
      assert (s.order + [e.id])[..|s.order|] == s.order;
    }
  }

  /** Replaying a rewritten log lists each ID once, in place of its first entry. */
  lemma {:induction false} ReplayOfSends(es: seq<Entry>)
    requires Consistent(es)
    ensures Entries(Sends(es)) == Dedup(es)
  {
    if es != [] {
      var front, e := es[..|es| - 1], es[|es| - 1];
      ReplayOfSends(front);
      SendsPending(front);
      SendsSnoc(es);
      SendsPayload(es);
      ListedStep(Fold(Sends(front)), e);
    }
  }

  lemma SendsPayload(es: seq<Entry>)
    requires es != [] && Consistent(es)
    ensures var front, e := Fold(Sends(es[..|es| - 1])), es[|es| - 1];
            e.id in front.pending ==> front.pending[e.id] == e.payload
  {
    var front, e := es[..|es| - 1], es[|es| - 1];
    SendsPending(front);
    if e.id in Ids(front) {
      var i :| 0 <= i < |front| && Ids(front)[i] == e.id;
      assert front[i] == es[i];
    }
  }

  /** What Replay lists of any log. */
  lemma EntriesOf(rs: seq<Record>)
    ensures Consistent(Entries(rs))
    ensures forall id :: id in Fold(rs).pending <==> id in Ids(Entries(rs))
    ensures forall i :: 0 <= i < |Entries(rs)| ==> Entries(rs)[i].id in Fold(rs).pending && Entries(rs)[i].payload == Fold(rs).pending[Entries(rs)[i].id]
  {
    var s, es := Fold(rs), Entries(rs);
    ListedFrom(s.order, s.pending);
    forall i | 0 <= i < |es| ensures es[i].id in s.pending && es[i].payload == s.pending[es[i].id] {
      assert es[i] in es;
    }
    forall id ensures id in s.pending <==> id in Ids(es) {
      ListedCounts(s.order, s.pending, id);
      PendingOrdered(rs, id);
    }
  }

  lemma {:induction false} FoldIntact(rs: seq<Record>, id: u64)
    requires AllIntact(rs)
    ensures id in Fold(rs).pending ==> |Fold(rs).pending[id]| < 0x1_0000_0000
  {
    if rs != [] {
      assert AllIntact(rs[..|rs| - 1]);
      FoldIntact(rs[..|rs| - 1], id);
    }
  }

  lemma RecordsOfCompacted(file: Bytes)
    ensures Records(CompactBytes(file)) == Sends(Entries(Records(file)))
    ensures TornTail(CompactBytes(file)) == []
  {
    var es := Entries(Records(file));
    RecordsIntact(file);
    EntriesOf(Records(file));
    forall i | 0 <= i < |es| ensures Intact(Sends(es)[i]) {
      FoldIntact(Records(file), es[i].id);
    }
    RecordsOfLog(Sends(es));
  }

  /** Compaction preserves meaning: the same IDs are unacknowledged, with the same payloads. */
  lemma CompactKeepsUnacked(file: Bytes)
    ensures Unacked(CompactBytes(file)) == Unacked(file)
  {
    var rs := Records(file);
    var es := Entries(rs);
    RecordsOfCompacted(file);
    EntriesOf(rs);
    SendsPending(es);
    forall id | id in Fold(rs).pending ensures Fold(Sends(es)).pending[id] == Fold(rs).pending[id] {
      var i :| 0 <= i < |es| && Ids(es)[i] == id;
      assert es[i].id == id;
    }
  }

  lemma EntriesOfCompacted(file: Bytes)
    ensures Entries(Records(CompactBytes(file))) == Dedup(Entries(Records(file)))
  {
    RecordsOfCompacted(file);
    EntriesOf(Records(file));
    ReplayOfSends(Entries(Records(file)));
  }

  /** Replay lists the very same entries after compaction exactly when it listed no ID twice. */
  lemma CompactKeepsListIff(file: Bytes)
    ensures Entries(Records(CompactBytes(file))) == Entries(Records(file)) <==> DistinctIds(Entries(Records(file)))
  {
    EntriesOfCompacted(file);
    DedupShrinks(Entries(Records(file)));
  }

  lemma SendsInjective(a: seq<Entry>, b: seq<Entry>)
    requires Sends(a) == Sends(b)
    ensures a == b
  {
    assert |a| == |Sends(a)| && |b| == |Sends(b)|;
    forall i | 0 <= i < |a| ensures a[i] == b[i] {
      assert Sends(a)[i] == Sends(b)[i];
    }
  }

  lemma {:induction false} SendsOrderDistinct(es: seq<Entry>)
    requires Consistent(es)
    ensures forall i, j :: 0 <= i < j < |Fold(Sends(es)).order| ==> Fold(Sends(es)).order[i] != Fold(Sends(es)).order[j]
  {
    if es != [] {
      var front := es[..|es| - 1];
      SendsOrderDistinct(front);
      SendsPending(front);
      SendsSnoc(es);
    }
  }

  /** The IDs a compacted log mentions are listed once each, and were mentioned before. */
  lemma CompactedOrder(file: Bytes)
    ensures var order := Fold(Records(CompactBytes(file))).order;
            && (forall i, j :: 0 <= i < j < |order| ==> order[i] != order[j])
            && (forall id :: id in order ==> id in Fold(Records(file)).order && id in Unacked(file))
  {
    var rs := Records(file);
    RecordsOfCompacted(file);
    EntriesOf(rs);
    SendsPending(Entries(rs));
    SendsOrderDistinct(Entries(rs));
    forall id | id in Fold(rs).pending ensures id in Fold(rs).order {
      PendingOrdered(rs, id);
    }
  }

  lemma AppendOne(file: Bytes, r: Record)
    requires TornTail(file) == [] && Intact(r)
    ensures TornTail(file + RecordBytes(r)) == []
    ensures Fold(Records(file + RecordBytes(r))) == Wal.Step(Fold(Records(file)), r)
  {
    AppendAfter(file, [r]);
    LogBytesOne(r);
    assert (Records(file) + [r])[..|Records(file)|] == Records(file);
  }

  /**
   * A second compaction changes no byte exactly when the first one listed no ID twice, which is
   * when no unacknowledged ID was sent again after an acknowledgement (see ListsOnceIff).
   */
  lemma CompactTwiceIff(file: Bytes)
    ensures CompactBytes(CompactBytes(file)) == CompactBytes(file) <==> DistinctIds(Entries(Records(file)))
  {
    var once := CompactBytes(file);
    EntriesOfCompacted(file);
    DedupShrinks(Entries(Records(file)));
    RecordsOfCompacted(file);
    RecordsOfCompacted(once);
    if CompactBytes(once) == once {
      SendsInjective(Entries(Records(once)), Entries(Records(file)));
    }
  }

  lemma {:induction false} DedupDistinct(es: seq<Entry>)
    ensures DistinctIds(Dedup(es))
    ensures forall i :: 0 <= i < |Dedup(es)| ==> Dedup(es)[i].id in Ids(es)
  {
    if es != [] {
      var n := |es| - 1;
      DedupDistinct(es[..n]);
      assert Ids(es) == Ids(es[..n]) + [es[n].id];
    }
  }

  /** From the second compaction on, compaction is the identity. */
  lemma CompactSettles(file: Bytes)
    ensures CompactBytes(CompactBytes(CompactBytes(file))) == CompactBytes(CompactBytes(file))
  {
    EntriesOfCompacted(file);
    DedupDistinct(Entries(Records(file)));
    CompactTwiceIff(CompactBytes(file));
  }

  /** Replay lists a pending ID as often as the log was opened for it. */
  lemma ListedAsOpened(rs: seq<Record>, id: u64)
    requires id in Fold(rs).pending
    ensures Occurrences(Ids(Entries(rs)), id) == OpenCount(rs, id) >= 1
  {
    ListedCounts(Fold(rs).order, Fold(rs).pending, id);
    OrderCounts(rs, id);
    PendingOrdered(rs, id);
  }

  /** Replay lists no ID twice exactly when the log was opened once for each unacknowledged ID. */
  lemma ListsOnceIff(rs: seq<Record>)
    ensures DistinctIds(Entries(rs)) <==> forall id :: id in Fold(rs).pending ==> OpenCount(rs, id) == 1
  {
    var ids := Ids(Entries(rs));
    EntriesOf(rs);
    if DistinctIds(Entries(rs)) {
      forall id | id in Fold(rs).pending ensures OpenCount(rs, id) == 1 {
        ListedAsOpened(rs, id);
        DistinctOnce(ids, id);
      }
    } else {
      var i, j :| 0 <= i < j < |ids| && Entries(rs)[i].id == Entries(rs)[j].id;
      ListedAsOpened(rs, ids[i]);
      TwiceAtLeast(ids, i, j);
    }
  }

  lemma DistinctOnce<T>(s: seq<T>, x: T)
    requires forall i, j :: 0 <= i < j < |s| ==> s[i] != s[j]
    ensures multiset(s)[x] == if x in s then 1 else 0
  {
    if s != [] {
      var n := |s| - 1;
      DistinctOnce(s[..n], x);
      assert s == s[..n] + [s[n]];
    }
  }

  lemma TwiceAtLeast<T>(s: seq<T>, i: nat, j: nat)
    requires i < j < |s| && s[i] == s[j]
    ensures multiset(s)[s[i]] >= 2
  {
    assert s == s[..j] + [s[j]] + s[j + 1..];
    assert s[..j][i] == s[i];
  }

  lemma FoldSnoc(rs: seq<Record>, more: seq<Record>)
    requires more != []
    ensures Fold(rs + more) == Step(Fold(rs + more[..|more| - 1]), more[|more| - 1])
  {
    assert (rs + more)[..|rs + more| - 1] == rs + more[..|more| - 1];
  }

  lemma {:induction false} FoldAfter(a: seq<Record>, b: seq<Record>, more: seq<Record>)
    requires Fold(a).pending == Fold(b).pending
    ensures Fold(a + more).pending == Fold(b + more).pending
  {
    if more == [] {
      assert a + more == a && b + more == b;
    } else {
      var n := |more| - 1;
      FoldAfter(a, b, more[..n]);
      FoldSnoc(a, more);
      FoldSnoc(b, more);
    }
  }

  /**
   * Compaction also repairs a torn tail: records appended after it mean what they would have meant
   * after the records that were readable before it.
   */
  lemma CompactThenAppend(file: Bytes, more: seq<Record>)
    requires AllIntact(more)
    ensures Unacked(CompactBytes(file) + LogBytes(more)) == Fold(Records(file) + more).pending
    ensures TornTail(CompactBytes(file) + LogBytes(more)) == []
  {
    RecordsOfCompacted(file);
    AppendAfter(CompactBytes(file), more);
    CompactKeepsUnacked(file);
    FoldAfter(Records(CompactBytes(file)), Records(file), more);
  }

  /** `rs[i]` is the last record about its ID. */
  predicate LastWord(rs: seq<Record>, i: nat)
    requires i < |rs|
  {
    Touches(rs[i], rs[i].id) && forall j :: i < j < |rs| ==> !Touches(rs[j], rs[i].id)
  }

  /** The last word of `more` about each ID is what `pending` has of it already. */
  predicate NothingNew(pending: map<u64, Bytes>, more: seq<Record>)
  {
    forall i :: 0 <= i < |more| && LastWord(more, i) ==>
      if more[i].op == OP_SEND then more[i].id in pending && pending[more[i].id] == more[i].payload else more[i].id !in pending
  }

  lemma {:induction false} FoldTouched(rs: seq<Record>, more: seq<Record>, i: nat)
    requires i < |more| && LastWord(more, i)
    ensures var p := Fold(rs + more).pending;
            if more[i].op == OP_SEND then more[i].id in p && p[more[i].id] == more[i].payload else more[i].id !in p
  {
    var n := |more| - 1;
    FoldSnoc(rs, more);
    if i < n {
      assert more[..n][i] == more[i];
      FoldTouched(rs, more[..n], i);
      assert !Touches(more[n], more[i].id);
    }
  }

  lemma {:induction false} FoldUntouched(rs: seq<Record>, more: seq<Record>, id: u64)
    requires forall j :: 0 <= j < |more| ==> !Touches(more[j], id)
    ensures var p, q := Fold(rs + more).pending, Fold(rs).pending; (id in p <==> id in q) && (id in q ==> p[id] == q[id])
  {
    if more == [] {
      assert rs + more == rs;
    } else {
      FoldSnoc(rs, more);
      FoldUntouched(rs, more[..|more| - 1], id);
      assert !Touches(more[|more| - 1], id);
    }
  }

  lemma SamePending(rs: seq<Record>, more: seq<Record>, id: u64)
    requires NothingNew(Fold(rs).pending, more)
    ensures var p, q := Fold(rs + more).pending, Fold(rs).pending; (id in p <==> id in q) && (id in q ==> p[id] == q[id])
  {
    if j :| 0 <= j < |more| && Touches(more[j], id) {
      var i := LastTouch(more, id, j);
      assert LastWord(more, i);
      FoldTouched(rs, more, i);
    } else {
      FoldUntouched(rs, more, id);
    }
  }

  lemma UnchangedIff(rs: seq<Record>, more: seq<Record>)
    ensures Fold(rs + more).pending == Fold(rs).pending <==> NothingNew(Fold(rs).pending, more)
  {
    var p, q := Fold(rs + more).pending, Fold(rs).pending;
    if NothingNew(q, more) {
      forall id: u64 ensures (id in p <==> id in q) && (id in q ==> p[id] == q[id]) {
        SamePending(rs, more, id);
      }
      assert p == q;
    }
    if p == q {
      forall i | 0 <= i < |more| && LastWord(more, i)
        ensures if more[i].op == OP_SEND then more[i].id in q && q[more[i].id] == more[i].payload else more[i].id !in q
      {
        FoldTouched(rs, more, i);
      }
    }
  }

  /**
   * Records written between the snapshot and the rename of a compaction, any number of them, are
   * overwritten by it.  The log still means the same exactly when they said nothing new: the last
   * one about each ID is a send already pending with that payload, or an acknowledgement of an ID
   * that is not pending.
   */
  lemma ConcurrentWritesKeptIff(file: Bytes, more: seq<Record>)
    requires TornTail(file) == [] && AllIntact(more)
    ensures Unacked(CompactBytes(file)) == Unacked(file + LogBytes(more)) <==> NothingNew(Unacked(file), more)
  {
    CompactKeepsUnacked(file);
    AppendAfter(file, more);
    UnchangedIff(Records(file), more);
  }

  // ---------------------------------------------------------------- the log as an object

  /** Where a compaction may stop: an error at one of its steps, or none. */
  datatype Fault = NoFault | AtCreate | AtWrite(entry: nat) | AtSync | AtRename(reopened: bool) | AtReopen

  datatype Disk = Disk(log: Bytes, tmp: Option<Bytes>)

  /** The serialised record, field by field. */
  method BuildRecord(op: byte, id: u64, payload: Bytes) returns (buf: array<byte>)
    ensures fresh(buf) && buf[..] == RecordBytes(Record(op, id, payload))
  {
    var n := |payload| % 0x1_0000_0000;
    buf := new byte[RECORD_HEADER + n](i => if RECORD_HEADER <= i < RECORD_HEADER + n then payload[i - RECORD_HEADER] else 0);
    assert buf[13..] == payload[..n];
    buf[0] := op;
    assert buf[13..] == payload[..n];
    PutUint(buf, 1, 4, n);
    assert buf[..5] == [op] + PutBE(n, 4) && buf[13..] == payload[..n];
    PutUint(buf, 5, 8, id);
    assert buf[..13] == [op] + PutBE(n, 4) + PutBE(id, 8) && buf[13..] == payload[..n];
    assert buf[..] == buf[..13] + buf[13..];
  }

  lemma ScanStep(log: Bytes, pos: nat, seen: seq<Record>, r: Record, used: nat)
    requires pos <= |log| && ParseRecord(log[pos..]) == Item(r, used) && Records(log) == seen + Records(log[pos..])
    ensures pos + used <= |log| && Records(log) == (seen + [r]) + Records(log[pos + used..])
    ensures Fold(seen + [r]) == Wal.Step(Fold(seen), r)
  {
    ParseStep(ParseRecord, log, seen, log[pos..]);
    assert log[pos..][used..] == log[pos + used..];
    assert (seen + [r])[..|seen|] == seen;
  }

  /** The disk while the temporary file grows from nothing to the first `n` entries. */
  function TmpGrows(log: Bytes, es: seq<Entry>, n: nat): seq<Disk>
    requires n <= |es|
  {
    seq(n + 1, i requires 0 <= i <= n => Disk(log, Some(LogBytes(Sends(es[..i])))))
  }

  class WalFile {
    var log: Bytes
    var tmp: Option<Bytes>
    var writable: bool
    /** Every state the disk has been in since the file was opened; a crash may keep any of them. */
    ghost var past: seq<Disk>

    constructor (log: Bytes)
      ensures this.log == log && tmp == None && writable && past == [Disk(log, None)]
    {
      this.log, tmp, writable, past := log, None, true, [Disk(log, None)];
    }

    method WriteRecord(op: byte, id: u64, payload: Bytes) returns (ok: bool)
      modifies this
      ensures ok == old(writable) && writable == old(writable) && tmp == old(tmp)
      ensures log == old(log) + if ok then RecordBytes(Record(op, id, payload)) else []
      ensures past == old(past) + if ok then [Disk(log, tmp)] else []
    {
      var buf := BuildRecord(op, id, payload);
      ok := writable;
      if ok {
        log := log + buf[..];
        past := past + [Disk(log, tmp)];
      }
    }

    /** Read one record at `pos`; `found` is false at the end of the file and at a torn record. */
    method ReadRecord(pos: nat) returns (found: bool, r: Record, used: nat)
      requires pos <= |log|
      ensures found == ParseRecord(log[pos..]).Item?
      ensures found ==> ParseRecord(log[pos..]) == Item(r, used)
    {
      var b := log[pos..];
      r, used := Record(0, 0, []), 0;
      if |b| < RECORD_HEADER {
        return false, r, used;
      }
      Pow256Values();
      var payLen := GetBE(b[1..5]);
      if |b| < RECORD_HEADER + payLen {
        return false, r, used;
      }
      r := Record(b[0], GetBE(b[5..13]), b[13..13 + payLen]);
      return true, r, RECORD_HEADER + payLen;
    }

    /** What one record does to the scan. */
    static method Absorb(s: Scan, r: Record) returns (s': Scan)
      ensures s' == Wal.Step(s, r)
    {
      s' := s;
      if r.op == OP_SEND {
        if r.id !in s.pending {
          s' := s'.(order := s.order + [r.id]);
        }
        s' := s'.(pending := s.pending[r.id := r.payload]);
      } else if r.op == OP_ACK {
        s' := s'.(pending := s.pending - {r.id});
      }
    }

    /** The scanning loop over the file. */
    method Replay() returns (entries: seq<Entry>)
      ensures entries == Entries(Records(log))
    {
      var pos, scan := 0, Scan(map[], []);
      ghost var seen: seq<Record> := [];
      var found, r, used := ReadRecord(pos);
      assert log[0..] == log;
      while found
        invariant 0 <= pos <= |log| && found == ParseRecord(log[pos..]).Item?
        invariant found ==> ParseRecord(log[pos..]) == Item(r, used)
        invariant Records(log) == seen + Records(log[pos..]) && scan == Fold(seen)
        decreases |log| - pos
      {
        ScanStep(log, pos, seen, r, used);
        seen, pos := seen + [r], pos + used;
        scan := Absorb(scan, r);
        found, r, used := ReadRecord(pos);
      }
      assert seen + [] == seen;
      entries := ListPending(scan.order, scan.pending);
    }

    static method ListPending(order: seq<u64>, pending: map<u64, Bytes>) returns (entries: seq<Entry>)
      ensures entries == Listed(order, pending)
    {
      entries := [];
      for i := 0 to |order|
        invariant entries == Listed(order[..i], pending)
      {
        assert order[..i + 1][..i] == order[..i];
        if order[i] in pending {
          entries := entries + [Entry(order[i], pending[order[i]])];
        }
      }
      assert order[..|order|] == order;
    }

    /** Fill the temporary file; `failAt` is the entry whose write fails, if it is one of them. */
    method WriteTmp(entries: seq<Entry>, failAt: Option<nat>) returns (ok: bool)
      modifies this
      ensures ok == !(failAt.Some? && failAt.value < |entries|)
      ensures tmp == if ok then Some(LogBytes(Sends(entries))) else None
      ensures log == old(log) && writable == old(writable) && old(past) <= past
      ensures forall j :: |old(past)| <= j < |past| ==> past[j].log == log
      ensures past == old(past) + if ok then TmpGrows(log, entries, |entries|) else TmpGrows(log, entries, failAt.value) + [Disk(log, None)]
    {
      tmp := Some([]);
      past := past + [Disk(log, tmp)];
      assert entries[..0] == [];
      for i := 0 to |entries|
        invariant log == old(log) && writable == old(writable)
        invariant !(failAt.Some? && failAt.value < i)
        invariant tmp == Some(LogBytes(Sends(entries[..i])))
        invariant past == old(past) + TmpGrows(log, entries, i)
      {
        if failAt == Some(i) {
          tmp := None;
          past := past + [Disk(log, tmp)];
          return false;
        }
        var r := Record(OP_SEND, entries[i].id, entries[i].payload);
        assert Sends(entries[..i + 1]) == Sends(entries[..i]) + [r];
        PrintAllAppend(RecordBytes, Sends(entries[..i]), [r]);
        LogBytesOne(r);
        tmp := Some(tmp.value + RecordBytes(r));
        past := past + [Disk(log, tmp)];
        assert TmpGrows(log, entries, i + 1) == TmpGrows(log, entries, i) + [Disk(log, tmp)];
      }
      assert entries[..|entries|] == entries;
      ok := true;
    }

    /**
     * Crash safety: in every state the disk passes through, and so after a crash at any step and
     * after any failed step, the log still means what it meant before.
     */
    method Compact(fault: Fault) returns (ok: bool)
      modifies this
      ensures ok == (fault != AtCreate && fault != AtSync && !fault.AtRename? && fault != AtReopen
                     && !(fault.AtWrite? && fault.entry < |Entries(Records(old(log)))|))
      ensures ok ==> log == CompactBytes(old(log)) && tmp == None && writable
      ensures fault == AtReopen ==> log == CompactBytes(old(log)) && tmp == None && !writable
      ensures !ok && fault != AtReopen ==> log == old(log) && writable == if fault.AtRename? then fault.reopened else old(writable)
      ensures !ok && (fault.AtWrite? || fault == AtSync) ==> tmp == None
      ensures fault.AtRename? ==> tmp == Some(CompactBytes(old(log)))
      ensures fault == AtCreate ==> tmp == old(tmp) && past == old(past)
      ensures log == old(log) || log == CompactBytes(old(log))
      ensures var es := Entries(Records(old(log)));
              (fault == NoFault || fault == AtReopen ==>
                 past == old(past) + TmpGrows(old(log), es, |es|) + [Disk(CompactBytes(old(log)), None)])
      ensures Unacked(log) == Unacked(old(log))
      ensures old(past) <= past
      ensures forall i :: |old(past)| <= i < |past| ==> Unacked(past[i].log) == Unacked(old(log))
    {
      ghost var before := log;
      CompactKeepsUnacked(before);
      var entries := Replay();
      if fault == AtCreate {
        return false;
      }
      var written := WriteTmp(entries, if fault.AtWrite? then Some(fault.entry) else None);
      if !written {
        return false;
      }
      if fault == AtSync {
        tmp := None;
        past := past + [Disk(log, tmp)];
        return false;
      }
      if fault.AtRename? {
        // The old handle is closed; opening the file again may fail as well.
        writable := fault.reopened;
        return false;
      }
      log, tmp := tmp.value, None;
      past := past + [Disk(log, tmp)];
      writable := fault != AtReopen;
      ok := writable;
    }
  }
}
