/** A new broker over an existing log: replayWAL (pkg/broker). */
module Restart {
  import opened Bytes
  import PrefixCode
  import opened Chunker
  import opened Reassembly
  import opened Slots
  import opened Wal
  import opened Compaction
  import opened Broker
  import opened BrokerLog

  /** `Blocked`: New waits for a free slot that nothing can free yet, and never returns. */
  datatype Boot = Ready(state: State) | Blocked

  predicate Splits(cfg: Config, e: Entry)
  {
    var o := UnpackWal(e.payload);
    Split(cfg.codec, e.id, o.ct, o.pri, o.payload).Some?
  }

  function Reenter(cfg: Config, s: State, e: Entry, now: int): Boot
  {
    var o := UnpackWal(e.payload);
    if !Splits(cfg, e) then Ready(s)
    else if s.ring.free == [] || s.ring.free[|s.ring.free| - 1] >= |s.ring.slots| then Blocked
    else Ready(Enter(cfg, s, e.id, o, now).(counter := if e.id > s.counter then e.id else s.counter))
  }

  function ReenterAll(cfg: Config, n: nat, log: Bytes, es: seq<Entry>, now: int): Boot
  {
    if es == [] then Ready(Start(n).(log := log))
    else
      match ReenterAll(cfg, n, log, es[..|es| - 1], now)
      case Blocked => Blocked
      case Ready(s) => Reenter(cfg, s, es[|es| - 1], now)
  }

  /** New, on a ring of `n` slots and a log file. */
  function Open(cfg: Config, n: nat, log: Bytes, now: int): Boot
  {
    ReenterAll(cfg, n, log, Entries(Records(log)), now)
  }

  ghost predicate AllSplit(cfg: Config, es: seq<Entry>)
  {
    forall i :: 0 <= i < |es| ==> Splits(cfg, es[i])
  }

  ghost predicate IsMax(m: u64, ids: seq<u64>)
  {
    (forall i :: 0 <= i < |ids| ==> ids[i] <= m) && (ids == [] ==> m == 0) && (ids != [] ==> m in ids)
  }

  /** What re-entering gives, even when an ID is listed twice. */
  ghost predicate Filled(cfg: Config, n: nat, log: Bytes, es: seq<Entry>, s: State)
  {
    && FreeOk(s.ring) && |s.ring.slots| == n && |s.ring.free| + |es| == n
    && (forall id :: id in ActiveIds(s.ring.slots) <==> id in Ids(es))
    && (forall id :: id in s.sent <==> id in Ids(es))
    && s.log == log && s.snap == None && s.ended == [] && s.stale == {} && s.taken == {} && s.logging == {} && s.writing == {}
    && IsMax(s.counter, Ids(es))
  }

  lemma ReenterFilled(cfg: Config, n: nat, log: Bytes, es: seq<Entry>, s: State, now: int)
    requires es != [] && Splits(cfg, es[|es| - 1]) && Filled(cfg, n, log, es[..|es| - 1], s)
    ensures var b := Reenter(cfg, s, es[|es| - 1], now);
            && (b == Blocked <==> |es| > n)
            && (b.Ready? ==> Filled(cfg, n, log, es, b.state))
  {
    var e, front := es[|es| - 1], es[..|es| - 1];
    var o := UnpackWal(e.payload);
    assert Ids(es) == Ids(front) + [e.id];
    if s.ring.free != [] {
      EnqueueFree(s.ring, e.id, Frags(cfg.codec, e.id, o), now);
      var s' := Reenter(cfg, s, e, now).state;
      assert IsMax(s'.counter, Ids(es)) by {
        assert Ids(es)[|front|] == e.id;
        assert forall i :: 0 <= i < |front| ==> Ids(es)[i] == Ids(front)[i];
      }
    }
  }

  lemma {:induction false} OpenFilled(cfg: Config, n: nat, log: Bytes, es: seq<Entry>, now: int)
    requires AllSplit(cfg, es)
    ensures var b := ReenterAll(cfg, n, log, es, now);
            && (b == Blocked <==> |es| > n)
            && (b.Ready? ==> Filled(cfg, n, log, es, b.state))
  {
    if es == [] {
      NewRingOk(n);
    } else {
      OpenFilled(cfg, n, log, es[..|es| - 1], now);
      var b := ReenterAll(cfg, n, log, es[..|es| - 1], now);
      if b.Ready? {
        ReenterFilled(cfg, n, log, es, b.state, now);
      }
    }
  }

  /** The entries whose payloads Split accepts. */
  function Accepted(cfg: Config, es: seq<Entry>): seq<Entry>
  {
    if es == [] then [] else Accepted(cfg, es[..|es| - 1]) + if Splits(cfg, es[|es| - 1]) then [es[|es| - 1]] else []
  }

  /** An entry that Split refuses is passed over: it takes no slot, and its ID does not move the counter. */
  lemma {:induction false} RefusedArePassedOver(cfg: Config, n: nat, log: Bytes, es: seq<Entry>, now: int)
    ensures ReenterAll(cfg, n, log, es, now) == ReenterAll(cfg, n, log, Accepted(cfg, es), now)
    ensures AllSplit(cfg, Accepted(cfg, es))
  {
    if es != [] {
      var front, e := es[..|es| - 1], es[|es| - 1];
      RefusedArePassedOver(cfg, n, log, front, now);
      if Splits(cfg, e) {
        assert (Accepted(cfg, front) + [e])[..|Accepted(cfg, front)|] == Accepted(cfg, front);
      } else {
        assert Accepted(cfg, es) == Accepted(cfg, front);
      }
    }
  }

  /** The slots from the highest down hold the entries in their order, fresh; the rest is free. */
  ghost predicate FromTheTop(cfg: Config, n: nat, es: seq<Entry>, now: int, r: Ring)
    requires |es| <= n
  {
    && |r.slots| == n && r.free == seq(n - |es|, i => i)
    && (forall i :: 0 <= i < n - |es| ==> r.slots[i] == Slot(0, [], 0, 0, false, false))
    && forall i :: n - |es| <= i < n ==>
         var e := es[n - 1 - i];
         var o := UnpackWal(e.payload);
         r.slots[i] == Slot(e.id, Frags(cfg.codec, e.id, o), now, 0, false, true)
  }

  /** Entries are entered one after the other, each in its own slot, with all retries and a fresh window. */
  lemma {:induction false} EnteredInOrder(cfg: Config, n: nat, log: Bytes, es: seq<Entry>, now: int)
    requires AllSplit(cfg, es) && |es| <= n
    ensures var b := ReenterAll(cfg, n, log, es, now);
            b.Ready? && FromTheTop(cfg, n, es, now, b.state.ring)
  {
    if es != [] {
      var front, e := es[..|es| - 1], es[|es| - 1];
      EnteredInOrder(cfg, n, log, front, now);
      var r := ReenterAll(cfg, n, log, front, now).state.ring;
      var top := n - |es|;
      assert r.free[|r.free| - 1] == top;
      var r' := Enqueue(r, e.id, Frags(cfg.codec, e.id, UnpackWal(e.payload)), now);
      assert r'.free == seq(top, i => i);
      forall i | 0 <= i < n ensures i != top ==> r'.slots[i] == r.slots[i] && (i > top ==> es[n - 1 - i] == front[n - 1 - i]) {
      }
    }
  }

  /** The entries are in the ledger of the new broker as they were packed. */
  ghost predicate Restored(cfg: Config, es: seq<Entry>, s: State)
  {
    Ledger(cfg, s) && forall i :: 0 <= i < |es| ==> es[i].id in s.sent && s.sent[es[i].id] == UnpackWal(es[i].payload)
  }

  lemma ReenterLedger(cfg: Config, s: State, e: Entry, now: int)
    requires Ledger(cfg, s) && Splits(cfg, e) && s.ring.free != [] && e.id !in s.sent
    ensures var b := Reenter(cfg, s, e, now);
            b.Ready? && Ledger(cfg, b.state) && b.state.sent == s.sent[e.id := UnpackWal(e.payload)]
  {
    assert e.id !in s.sent.Keys;
    EnqueueOk(s.ring, e.id, Frags(cfg.codec, e.id, UnpackWal(e.payload)), now);
  }

  lemma ReenterRestored(cfg: Config, es: seq<Entry>, s: State, now: int)
    requires es != [] && Restored(cfg, es[..|es| - 1], s)
    requires Splits(cfg, es[|es| - 1]) && s.ring.free != [] && es[|es| - 1].id !in s.sent
    ensures var b := Reenter(cfg, s, es[|es| - 1], now); b.Ready? && Restored(cfg, es, b.state)
  {
    var front := es[..|es| - 1];
    ReenterLedger(cfg, s, es[|es| - 1], now);
    forall i | 0 <= i < |es| ensures var s' := Reenter(cfg, s, es[|es| - 1], now).state; es[i].id in s'.sent && s'.sent[es[i].id] == UnpackWal(es[i].payload) {
      assert i < |front| ==> front[i] == es[i] && front[i].id in s.sent;
    }
  }

  lemma RoomForLast(cfg: Config, n: nat, log: Bytes, es: seq<Entry>, s: State)
    requires es != [] && DistinctIds(es) && |es| <= n && Filled(cfg, n, log, es[..|es| - 1], s)
    ensures s.ring.free != [] && es[|es| - 1].id !in s.sent
  {
    var front := es[..|es| - 1];
    assert forall i :: 0 <= i < |front| ==> Ids(front)[i] == es[i].id;
  }

  lemma {:induction false} OpenLedger(cfg: Config, n: nat, log: Bytes, es: seq<Entry>, now: int)
    requires AllSplit(cfg, es) && DistinctIds(es) && |es| <= n
    ensures var b := ReenterAll(cfg, n, log, es, now); b.Ready? && Restored(cfg, es, b.state)
  {
    if es == [] {
      StartLedger(cfg, n);
      LedgerFrame(cfg, Start(n), Start(n).(log := log));
    } else {
      var front := es[..|es| - 1];
      OpenLedger(cfg, n, log, front, now);
      OpenFilled(cfg, n, log, front, now);
      var s := ReenterAll(cfg, n, log, front, now).state;
      RoomForLast(cfg, n, log, es, s);
      ReenterRestored(cfg, es, s, now);
    }
  }

  lemma IdSetSize(es: seq<Entry>, ids: set<u64>)
    requires forall id :: id in ids <==> id in Ids(es)
    ensures |ids| <= |es|
    ensures |ids| == |es| <==> DistinctIds(es)
  {
    if es == [] {
      assert forall id :: id in ids ==> id in Ids(es);
      assert ids == {};
    } else {
      var front, e := es[..|es| - 1], es[|es| - 1];
      assert Ids(es) == Ids(front) + [e.id];
      if e.id in Ids(front) {
        IdSetSize(front, ids);
        var i :| 0 <= i < |front| && Ids(front)[i] == e.id;
        assert es[i].id == es[|es| - 1].id;
      } else {
        IdSetSize(front, ids - {e.id});
        assert forall i :: 0 <= i < |front| ==> Ids(front)[i] == es[i].id;
        assert DistinctIds(es) <==> DistinctIds(front);
      }
    }
  }

  /**
   * After a restart no two slots carry the same ID exactly when Replay listed no ID twice.
   * Otherwise one acknowledgement frees one of the slots and the other is retried until it dies.
   */
  lemma OpenDistinctIff(cfg: Config, n: nat, log: Bytes, now: int)
    requires AllSplit(cfg, Entries(Records(log))) && |Entries(Records(log))| <= n
    ensures Open(cfg, n, log, now).Ready?
    ensures RingOk(Open(cfg, n, log, now).state.ring) <==> DistinctIds(Entries(Records(log)))
  {
    var es := Entries(Records(log));
    OpenFilled(cfg, n, log, es, now);
    var s := Open(cfg, n, log, now).state;
    IdSetSize(es, ActiveIds(s.ring.slots));
    if RingOk(s.ring) {
      SlotsAccounted(s.ring);
    }
    if DistinctIds(es) {
      OpenLedger(cfg, n, log, es, now);
    }
  }

  /** An ID sent again after its acknowledgement is listed, and so entered into the ring, twice. */
  lemma SentAckedSentAgain(id: u64, p: Bytes, q: Bytes)
    ensures Entries([Record(OP_SEND, id, p), Record(OP_ACK, id, []), Record(OP_SEND, id, q)]) == [Entry(id, q), Entry(id, q)]
  {
    var a, b, c := Record(OP_SEND, id, p), Record(OP_ACK, id, []), Record(OP_SEND, id, q);
    assert [a, b, c][..2] == [a, b] && [a, b][..1] == [a] && [a][..0] == [];
    assert Fold([a]) == Scan(map[id := p], [id]);
    assert Fold([a, b]) == Scan(map[], [id]);
    assert Fold([a, b, c]) == Scan(map[id := q], [id, id]);
    assert [id, id][..1] == [id] && [id][..0] == [];
    assert Listed([id], map[id := q]) == Listed([], map[id := q]) + [Entry(id, q)];
  }

  // ---------------------------------------------------------------- restart after a run

  /** `es` are the IDs `live`, once each and as they were sent. */
  ghost predicate Lists(cfg: Config, sent: World, live: set<u64>, es: seq<Entry>)
  {
    && DistinctIds(es) && AllSplit(cfg, es)
    && (forall id :: id in Ids(es) <==> id in live)
    && |es| == |live|
    && (forall i :: 0 <= i < |es| ==> es[i].id in sent && UnpackWal(es[i].payload) == sent[es[i].id])
  }

  ghost predicate AllSend(cfg: Config, sent: World)
  {
    forall id :: id in sent ==> Split(cfg.codec, id, sent[id].ct, sent[id].pri, sent[id].payload).Some?
  }

  /** A file that lists no ID twice and whose records are of messages of `sent`. */
  ghost predicate Faithful(cfg: Config, sent: World, file: Bytes)
  {
    AllSend(cfg, sent) && AsSent(Records(file), sent) && Distinct(Fold(Records(file)).order)
  }

  lemma ListedOf(cfg: Config, sent: World, file: Bytes)
    requires Faithful(cfg, sent, file)
    ensures Lists(cfg, sent, Unacked(file).Keys, Entries(Records(file)))
  {
    var rs := Records(file);
    var es := Entries(rs);
    EntriesOf(rs);
    FoldAsSent(rs, sent);
    ListedDistinct(Fold(rs).order, Fold(rs).pending);
    IdSetSize(es, Unacked(file).Keys);
    forall i | 0 <= i < |es| ensures es[i].id in sent && UnpackWal(es[i].payload) == sent[es[i].id] && Splits(cfg, es[i]) {
      UnpackPack(sent[es[i].id]);
    }
  }

  lemma {:induction false} ListedDistinct(order: seq<u64>, pending: map<u64, Bytes>)
    requires Distinct(order)
    ensures DistinctIds(Listed(order, pending))
  {
    if order != [] {
      var n := |order| - 1;
      ListedDistinct(order[..n], pending);
      ListedFrom(order[..n], pending);
      var front := Listed(order[..n], pending);
      forall i | 0 <= i < |front| ensures front[i].id != order[n] {
        assert front[i] in front;
      }
    }
  }

  /**
   * What a restart should give when the messages `live` are to be restored: it blocks forever
   * exactly when the ring is too small for them; otherwise the ring holds exactly those, each with
   * its original payload, and the counter is at the largest of their IDs.
   */
  ghost predicate Restores(cfg: Config, sent: World, live: set<u64>, n: nat, b: Boot)
  {
    && (b == Blocked <==> |live| > n)
    && (b.Ready? ==>
          && Ledger(cfg, b.state)
          && ActiveIds(b.state.ring.slots) == live == b.state.sent.Keys
          && (forall id :: id in live ==> id in sent && b.state.sent[id] == sent[id] && id <= b.state.counter)
          && (if live == {} then b.state.counter == 0 else b.state.counter in live))
  }

  lemma SameMessages(cfg: Config, sent: World, live: set<u64>, es: seq<Entry>, s': State, id: u64)
    requires Lists(cfg, sent, live, es) && Restored(cfg, es, s') && IsMax(s'.counter, Ids(es))
    requires id in live
    ensures id in sent && id in s'.sent && s'.sent[id] == sent[id] && id <= s'.counter
  {
    var i :| 0 <= i < |es| && Ids(es)[i] == id;
    assert es[i].id == id;
  }

  lemma SameIds(es: seq<Entry>, live: set<u64>, active: set<u64>, sent: World)
    requires forall id :: id in Ids(es) <==> id in live
    requires forall id :: id in active <==> id in Ids(es)
    requires forall id :: id in sent <==> id in Ids(es)
    ensures active == live == sent.Keys
  {
    assert active == live;
  }

  lemma SameSent(cfg: Config, sent: World, live: set<u64>, es: seq<Entry>, s': State)
    requires Lists(cfg, sent, live, es) && Restored(cfg, es, s') && IsMax(s'.counter, Ids(es))
    ensures forall id :: id in live ==> id in sent && id in s'.sent && s'.sent[id] == sent[id] && id <= s'.counter
  {
    forall id | id in live ensures id in sent && id in s'.sent && s'.sent[id] == sent[id] && id <= s'.counter {
      SameMessages(cfg, sent, live, es, s', id);
    }
  }

  lemma MaxOfLive(cfg: Config, sent: World, live: set<u64>, es: seq<Entry>, m: u64)
    requires Lists(cfg, sent, live, es) && IsMax(m, Ids(es))
    ensures if live == {} then m == 0 else m in live
  {
    assert es == [] <==> Ids(es) == [];
    assert es == [] <==> live == {};
  }

  lemma ReadyRestores(cfg: Config, sent: World, live: set<u64>, es: seq<Entry>, n: nat, log: Bytes, s': State)
    requires Lists(cfg, sent, live, es) && Filled(cfg, n, log, es, s') && Restored(cfg, es, s')
    ensures Restores(cfg, sent, live, n, Ready(s'))
  {
    SameIds(es, live, ActiveIds(s'.ring.slots), s'.sent);
    SameSent(cfg, sent, live, es, s');
    MaxOfLive(cfg, sent, live, es, s'.counter);
  }

  /** A new broker over any such file, torn or not: the unacknowledged messages and nothing else. */
  lemma OpenRestores(cfg: Config, sent: World, file: Bytes, n: nat, now: int)
    requires Faithful(cfg, sent, file)
    ensures Restores(cfg, sent, Unacked(file).Keys, n, Open(cfg, n, file, now))
  {
    var es, live := Entries(Records(file)), Unacked(file).Keys;
    ListedOf(cfg, sent, file);
    OpenFilled(cfg, n, file, es, now);
    match Open(cfg, n, file, now) {
      case Blocked =>
      case Ready(s') =>
        OpenLedger(cfg, n, file, es, now);
        ReadyRestores(cfg, sent, live, es, n, file, s');
    }
  }

  /**
   * Restart, after any run from an empty log: exactly the messages that were in the ring and in the
   * log, and those that left the ring unlogged (even ones reported dead), come back.
   */
  lemma RestartRestores(cfg: Config, n: nat, steps: seq<Broker.Step>, n': nat, now: int)
    requires cfg.wal && Legal(cfg, Start(n), steps) && AllTidy(cfg, Start(n), steps)
    ensures var s := Exec(cfg, Start(n), steps); Restores(cfg, s.sent, Live(s), n', Open(cfg, n', s.log, now))
  {
    AsSentAlways(cfg, n, steps);
    var s := Exec(cfg, Start(n), steps);
    OpenRestores(cfg, s.sent, s.log, n', now);
  }

  /**
   * Restart after a crash that also cut the file, anywhere: what comes back is what the records
   * wholly before the cut leave unacknowledged, each message as it was sent.
   */
  lemma TornRestart(cfg: Config, n: nat, steps: seq<Broker.Step>, k: nat, n': nat, now: int)
    requires cfg.wal && Legal(cfg, Start(n), steps) && AllTidy(cfg, Start(n), steps)
    requires k <= |Exec(cfg, Start(n), steps).log|
    ensures var s := Exec(cfg, Start(n), steps);
            var rs := Records(s.log)[..PrefixCode.Whole(RecordBytes, Records(s.log), k)];
            && Restores(cfg, s.sent, Fold(rs).pending.Keys, n', Open(cfg, n', s.log[..k], now))
            && (forall id :: id in Fold(rs).pending <==> id in s.sent && LastIsSend(rs, id, PackWal(s.sent[id])))
  {
    AsSentAlways(cfg, n, steps);
    var s := Exec(cfg, Start(n), steps);
    var rs := Records(s.log)[..PrefixCode.Whole(RecordBytes, Records(s.log), k)];
    CutFaithful(cfg, s.sent, s.log, k);
    OpenRestores(cfg, s.sent, s.log[..k], n', now);
    PendingAsSent(rs, s.sent);
  }

  lemma CutFaithful(cfg: Config, sent: World, file: Bytes, k: nat)
    requires Faithful(cfg, sent, file) && TornTail(file) == [] && k <= |file|
    ensures Faithful(cfg, sent, file[..k])
    ensures Records(file[..k]) == Records(file)[..PrefixCode.Whole(RecordBytes, Records(file), k)]
  {
    var rs := Records(file);
    CleanIsImage(file);
    RecordsIntact(file);
    TornWriteRecovery(rs, k);
    OrderOfPrefix(rs, PrefixCode.Whole(RecordBytes, rs, k));
  }

  lemma PendingAsSent(rs: seq<Record>, sent: World)
    requires AsSent(rs, sent)
    ensures forall id :: id in Fold(rs).pending <==> id in sent && LastIsSend(rs, id, PackWal(sent[id]))
  {
    FoldAsSent(rs, sent);
    forall id ensures id in Fold(rs).pending <==> id in sent && LastIsSend(rs, id, PackWal(sent[id])) {
      if id in sent {
        PendingIff(rs, id, PackWal(sent[id]));
      }
    }
  }

  /** When the counter is ahead of the log's IDs, the new broker starts another life like the first. */
  lemma NextLifeAgrees(cfg: Config, sent: World, file: Bytes, n: nat, now: int)
    requires Faithful(cfg, sent, file) && TornTail(file) == [] && Open(cfg, n, file, now).Ready?
    requires forall id :: id in Fold(Records(file)).order ==> id <= Open(cfg, n, file, now).state.counter
    ensures var s' := Open(cfg, n, file, now).state; Ledger(cfg, s') && LogOk(s')
  {
    var s' := Open(cfg, n, file, now).state;
    OpenRestores(cfg, sent, file, n, now);
    ListedOf(cfg, sent, file);
    OpenFilled(cfg, n, file, Entries(Records(file)), now);
    FoldAsSent(Records(file), sent);
    assert Live(s') == ActiveIds(s'.ring.slots);
    assert s'.taken + s'.logging == {};
  }

  // ---------------------------------------------------------------- reused IDs

  /** Nothing was sent, or the message with the largest ID is among the live ones. */
  ghost predicate LargestLives(sent: World, live: set<u64>)
  {
    sent == map[] || exists m :: m in live && forall id :: id in sent ==> id <= m
  }

  /**
   * After a restart over any such file, torn or not and in any life, the counter is ahead of every
   * ID used exactly when the message with the largest ID is unacknowledged in what is readable.
   */
  lemma FreshIff(cfg: Config, sent: World, file: Bytes, n: nat, now: int)
    requires Faithful(cfg, sent, file) && forall id :: id in sent ==> id > 0
    ensures var b := Open(cfg, n, file, now);
            b.Ready? ==> ((forall id :: id in sent ==> id <= b.state.counter) <==> LargestLives(sent, Unacked(file).Keys))
  {
    var b := Open(cfg, n, file, now);
    OpenRestores(cfg, sent, file, n, now);
    if b.Ready? && sent != map[] && forall id :: id in sent ==> id <= b.state.counter {
      var id :| id in sent;
      assert b.state.counter in Unacked(file).Keys;
    }
  }

  /**
   * After any run and a restart the counter is ahead of every ID the broker used exactly when nothing
   * was sent, or the message with the largest ID is still live in the log.  Otherwise a later Send
   * uses an ID again.  An acknowledged ID does not count even while the log mentions it.
   */
  lemma NextIdFreshIff(cfg: Config, n: nat, steps: seq<Broker.Step>, n': nat, now: int)
    requires cfg.wal && Legal(cfg, Start(n), steps) && AllTidy(cfg, Start(n), steps)
    ensures var s := Exec(cfg, Start(n), steps);
            var b := Open(cfg, n', s.log, now);
            b.Ready? ==> ((forall id :: id in s.sent ==> id <= b.state.counter) <==> LargestLives(s.sent, Live(s)))
  {
    AsSentAlways(cfg, n, steps);
    PositiveAlways(cfg, n, steps);
    var s := Exec(cfg, Start(n), steps);
    FreshIff(cfg, s.sent, s.log, n', now);
  }

  /** The same when the crash also cut the log: only the records wholly before the cut count. */
  lemma TornFreshIff(cfg: Config, n: nat, steps: seq<Broker.Step>, k: nat, n': nat, now: int)
    requires cfg.wal && Legal(cfg, Start(n), steps) && AllTidy(cfg, Start(n), steps)
    requires k <= |Exec(cfg, Start(n), steps).log|
    ensures var s := Exec(cfg, Start(n), steps);
            var rs := Records(s.log)[..PrefixCode.Whole(RecordBytes, Records(s.log), k)];
            var b := Open(cfg, n', s.log[..k], now);
            b.Ready? ==> ((forall id :: id in s.sent ==> id <= b.state.counter) <==> LargestLives(s.sent, Fold(rs).pending.Keys))
  {
    AsSentAlways(cfg, n, steps);
    PositiveAlways(cfg, n, steps);
    var s := Exec(cfg, Start(n), steps);
    CutFaithful(cfg, s.sent, s.log, k);
    FreshIff(cfg, s.sent, s.log[..k], n', now);
  }
}
