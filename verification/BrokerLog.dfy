/** The ring and the write-ahead log agree, and a restart puts back what the log holds (pkg/broker, pkg/wal). */
module BrokerLog {
  import opened Bytes
  import PrefixCode
  import opened Chunker
  import opened Reassembly
  import opened Slots
  import opened Wal
  import opened Compaction
  import opened Broker

  ghost predicate Distinct<T(!new)>(s: seq<T>) { forall i, j :: 0 <= i < j < |s| ==> s[i] != s[j] }

  /** The unacknowledged entries of `log` are the IDs `live`, each as it was sent. */
  ghost predicate Holds(log: Bytes, live: set<u64>, sent: World)
  {
    && TornTail(log) == []
    && Unacked(log).Keys == live
    && (forall id :: id in live ==> id in sent && Unacked(log)[id] == PackWal(sent[id]))
  }

  /** Every ID in the log was sent once, is not ahead of the counter and is not to be logged again. */
  ghost predicate NoReuse(log: Bytes, counter: u64, ahead: set<u64>)
  {
    var order := Fold(Records(log)).order;
    Distinct(order) && forall id :: id in order ==> id <= counter && id !in ahead
  }

  /**
   * What the log should hold: the messages in the ring that have been appended, plus those that
   * left it without a record of that (retry exhaustion, a failed acknowledgement write, or an
   * acknowledgement that came before the append).
   */
  function Live(s: State): set<u64> { (ActiveIds(s.ring.slots) - s.logging) + s.stale }

  /** The log is what a compaction under way has read, and the records written since. */
  ghost predicate SnapOk(log: Bytes, snap: Option<Snap>)
  {
    snap.Some? ==>
      TornTail(snap.value.base) == [] && AllIntact(snap.value.since) && log == snap.value.base + LogBytes(snap.value.since)
  }

  lemma SnapNoted(log: Bytes, snap: Option<Snap>, r: Record)
    requires SnapOk(log, snap) && Intact(r)
    ensures SnapOk(log + RecordBytes(r), Noted(snap, r))
  {
    if snap.Some? {
      var base, since := snap.value.base, snap.value.since;
      PrefixCode.PrintAllAppend(RecordBytes, since, [r]);
      LogBytesOne(r);
      Assoc(base, LogBytes(since), RecordBytes(r));
    }
  }

  ghost predicate LogOk(s: State)
  {
    && s.stale <= EndedIds(s.ended)
    && Holds(s.log, Live(s), s.sent)
    && NoReuse(s.log, s.counter, s.taken + s.logging)
    && SnapOk(s.log, s.snap)
    && (forall id :: id in s.logging ==> id in s.sent && Intact(SendRecord(id, s.sent[id])))
  }

  lemma AppendSend(log: Bytes, live: set<u64>, sent: World, counter: u64, ahead: set<u64>, id: u64)
    requires Holds(log, live, sent) && NoReuse(log, counter, ahead)
    requires id in ahead && id <= counter && id in sent && Intact(SendRecord(id, sent[id]))
    ensures Holds(log + RecordBytes(SendRecord(id, sent[id])), live + {id}, sent)
    ensures NoReuse(log + RecordBytes(SendRecord(id, sent[id])), counter, ahead - {id})
  {
    AppendOne(log, SendRecord(id, sent[id]));
    var order := Fold(Records(log)).order;
    assert forall i :: 0 <= i < |order| ==> order[i] in order;
  }

  lemma AppendAck(log: Bytes, live: set<u64>, sent: World, counter: u64, ahead: set<u64>, id: u64)
    requires Holds(log, live, sent) && NoReuse(log, counter, ahead)
    ensures Holds(log + RecordBytes(AckRecord(id)), live - {id}, sent)
    ensures NoReuse(log + RecordBytes(AckRecord(id)), counter, ahead)
  {
    AppendOne(log, AckRecord(id));
  }

  /** What ending a message leaves of the live ones, with and without a record of it. */
  lemma LiveAfterEnd(active: set<u64>, logging: set<u64>, stale: set<u64>, id: u64)
    requires id in active && id !in stale
    ensures ((active - {id}) - logging) + stale == ((active - logging) + stale) - {id}
    ensures id in logging ==> ((active - {id}) - logging) + stale == (active - logging) + stale
    ensures id !in logging ==> ((active - {id}) - logging) + (stale + {id}) == (active - logging) + stale
  {
  }

  lemma EndLive(cfg: Config, s: State, id: u64, cause: Cause, ackOk: bool)
    requires cfg.wal && Ledger(cfg, s) && s.stale <= EndedIds(s.ended) && id in ActiveIds(s.ring.slots)
    ensures var s' := End(cfg, s, id, cause, ackOk);
            s'.stale <= EndedIds(s'.ended) && Live(s') == if ackOk then Live(s) - {id} else Live(s)
  {
    ReleaseOk(s.ring, id);
    EndedSnoc(s.ended, Ended(id, cause));
    LiveAfterEnd(ActiveIds(s.ring.slots), s.logging, s.stale, id);
  }

  lemma EndLogOk(cfg: Config, s: State, id: u64, cause: Cause, ackOk: bool)
    requires cfg.wal && Ledger(cfg, s) && LogOk(s)
    ensures LogOk(End(cfg, s, id, cause, ackOk))
  {
    if id in ActiveIds(s.ring.slots) {
      EndLive(cfg, s, id, cause, ackOk);
      AppendAck(s.log, Live(s), s.sent, s.counter, s.taken + s.logging, id);
      SnapNoted(s.log, s.snap, AckRecord(id));
    }
  }

  lemma AppendedLive(s: State, s': State, id: u64)
    requires id in s.logging && id !in s.taken
    requires s'.ring == s.ring && s'.taken == s.taken && s'.logging == s.logging - {id}
    requires s'.stale == if id in ActiveIds(s.ring.slots) then s.stale else s.stale + {id}
    ensures Live(s') == Live(s) + {id}
    ensures s'.taken + s'.logging == (s.taken + s.logging) - {id}
  {
  }

  lemma AppendedLogOk(cfg: Config, s: State, id: u64, ackOk: bool)
    requires cfg.wal && Ledger(cfg, s) && LogOk(s) && id in s.logging
    ensures LogOk(Logged(cfg, s, id, true, ackOk))
  {
    assert id in s.sent.Keys;
    AppendSend(s.log, Live(s), s.sent, s.counter, s.taken + s.logging, id);
    SnapNoted(s.log, s.snap, SendRecord(id, s.sent[id]));
    AppendedLive(s, Logged(cfg, s, id, true, ackOk), id);
  }

  lemma NotAppendedLogOk(cfg: Config, s: State, id: u64, ackOk: bool)
    requires cfg.wal && Ledger(cfg, s) && LogOk(s) && id in s.logging
    ensures LogOk(Logged(cfg, s, id, false, ackOk))
  {
    var q, s' := End(cfg, s, id, Failed, ackOk), Logged(cfg, s, id, false, ackOk);
    EndLogOk(cfg, s, id, Failed, ackOk);
    ReleaseOk(s.ring, id);
    assert Live(s') == Live(q);
  }

  lemma EnterLogOk(cfg: Config, s: State, step: Broker.Step)
    requires cfg.wal && Ledger(cfg, s) && LogOk(s) && step.EnterRing? && Enabled(cfg, s, step) && Loggable(step)
    ensures LogOk(Next(cfg, s, step))
  {
    EnterCases(cfg, s, step);
    if Split(cfg.codec, step.id, step.msg.ct, step.msg.pri, step.msg.payload).Some? {
      EnteredLogOk(cfg, s, step.id, step.msg, step.now);
    }
  }

  lemma EnteredLogOk(cfg: Config, s: State, id: u64, o: Outgoing, now: int)
    requires cfg.wal && Ledger(cfg, s) && LogOk(s) && id in s.taken && Intact(SendRecord(id, o))
    requires s.ring.free != [] && s.ring.free[|s.ring.free| - 1] < |s.ring.slots|
    ensures var q := Enter(cfg, s, id, o, now); LogOk(q.(logging := q.logging + {id}))
  {
    var q := Enter(cfg, s, id, o, now);
    var s' := q.(logging := q.logging + {id});
    assert id !in s.sent.Keys;
    EnqueueOk(s.ring, id, Frags(cfg.codec, id, o), now);
    assert Live(s') == Live(s);
    assert s'.taken + s'.logging == s.taken + s.logging;
  }

  lemma TickLogOk(cfg: Config, s: State, now: int)
    requires cfg.wal && Ledger(cfg, s) && LogOk(s)
    ensures LogOk(Next(cfg, s, Tick(now)))
  {
    TickLive(cfg, s, now);
    var s' := Next(cfg, s, Tick(now));
    assert s'.log == s.log && s'.snap == s.snap && s'.sent == s.sent && s'.logging == s.logging;
  }

  lemma TickLive(cfg: Config, s: State, now: int)
    requires cfg.wal && Ledger(cfg, s) && s.stale <= EndedIds(s.ended)
    ensures var s' := Next(cfg, s, Tick(now)); s'.stale <= EndedIds(s'.ended) && Live(s') == Live(s)
  {
    var dying := DyingIds(cfg.timing, s.ring.slots, now);
    TimeoutsOk(cfg.timing, s.ring, now);
    DeadListIds(cfg.timing, s.ring.slots, now);
    EndedAppend(s.ended, DeadList(cfg.timing, s.ring.slots, now));
    LiveAfterDying(ActiveIds(s.ring.slots), s.logging, s.stale, dying);
  }

  lemma LiveAfterDying(active: set<u64>, logging: set<u64>, stale: set<u64>, dying: set<u64>)
    requires dying <= active
    ensures ((active - dying) - logging) + (stale + (dying - logging)) == (active - logging) + stale
  {
  }

  lemma SnapshotLogOk(cfg: Config, s: State)
    requires cfg.wal && LogOk(s)
    ensures LogOk(Next(cfg, s, Snapshot))
  {
    assert LogBytes([]) == [] && s.log + [] == s.log;
  }

  /** What was written while the compaction was under way said nothing new. */
  predicate Undisturbed(s: State) { s.snap.Some? ==> NothingNew(Unacked(s.snap.value.base), s.snap.value.since) }

  /** The IDs of the part the compaction has read are among those of the whole log. */
  lemma BaseOrder(s: State)
    requires LogOk(s) && s.snap.Some?
    ensures forall id :: id in Fold(Records(s.snap.value.base)).order ==> id in Fold(Records(s.log)).order
  {
    var base, since := s.snap.value.base, s.snap.value.since;
    AppendAfter(base, since);
    OrderOfPrefix(Records(base) + since, |Records(base)|);
    assert (Records(base) + since)[..|Records(base)|] == Records(base);
  }

  lemma SwapNoReuse(s: State)
    requires LogOk(s) && s.snap.Some?
    ensures NoReuse(CompactBytes(s.snap.value.base), s.counter, s.taken + s.logging)
    ensures TornTail(CompactBytes(s.snap.value.base)) == []
  {
    CompactedOrder(s.snap.value.base);
    RecordsOfCompacted(s.snap.value.base);
    BaseOrder(s);
  }

  /** An agreeing log determines what is unacknowledged. */
  lemma SameHolds(log: Bytes, log': Bytes, live: set<u64>, sent: World)
    requires Holds(log, live, sent) && TornTail(log') == []
    ensures Holds(log', live, sent) <==> Unacked(log') == Unacked(log)
  {
  }

  /**
   * The rename of a compaction keeps ring and log in agreement exactly when the records written
   * since its snapshot said nothing new.
   */
  lemma SwapLogOkIff(cfg: Config, s: State)
    requires LogOk(s) && s.snap.Some?
    ensures LogOk(Next(cfg, s, Swap)) <==> Undisturbed(s)
  {
    var s' := Next(cfg, s, Swap);
    SwapNoReuse(s);
    SwapHoldsIff(s);
    assert Live(s') == Live(s) && s'.log == CompactBytes(s.snap.value.base) && s'.sent == s.sent;
  }

  lemma SwapHoldsIff(s: State)
    requires LogOk(s) && s.snap.Some?
    ensures Holds(CompactBytes(s.snap.value.base), Live(s), s.sent) <==> Undisturbed(s)
  {
    var base, since := s.snap.value.base, s.snap.value.since;
    RecordsOfCompacted(base);
    ConcurrentWritesKeptIff(base, since);
    SameHolds(s.log, CompactBytes(base), Live(s), s.sent);
  }

  /** The message fits a log record, which holds less than 4 GiB. */
  predicate Loggable(step: Broker.Step) { step.EnterRing? ==> Intact(SendRecord(0, step.msg)) }

  /** The step logs only what fits a record, and renames no compaction over something new. */
  predicate Tidy(s: State, step: Broker.Step) { Loggable(step) && (step.Swap? ==> Undisturbed(s)) }

  predicate AllTidy(cfg: Config, s: State, steps: seq<Broker.Step>)
  {
    steps != [] ==>
      var front := steps[..|steps| - 1];
      AllTidy(cfg, s, front) && Tidy(Exec(cfg, s, front), steps[|steps| - 1])
  }

  lemma NextLogOk(cfg: Config, s: State, step: Broker.Step)
    requires cfg.wal && Ledger(cfg, s) && LogOk(s) && Enabled(cfg, s, step) && Tidy(s, step)
    ensures LogOk(Next(cfg, s, step))
  {
    match step {
      case TakeId =>
      case EnterRing(_, _, _) => EnterLogOk(cfg, s, step);
      case AppendLog(id, appendOk, ackOk) =>
        if appendOk {
          AppendedLogOk(cfg, s, id, ackOk);
        } else {
          NotAppendedLogOk(cfg, s, id, ackOk);
        }
      case SendReturns(_) =>
      case WriteFails(id, ackOk) => EndLogOk(cfg, s, id, Failed, ackOk);
      case GetAck(id, ackOk) => EndLogOk(cfg, s, id, Acked, ackOk);
      case GetNack(id, ackOk) => EndLogOk(cfg, s, id, Nacked, ackOk);
      case Tick(now) => TickLogOk(cfg, s, now);
      case Reconnect(now) => ReplayOk(s.ring, now);
      case Snapshot => SnapshotLogOk(cfg, s);
      case Swap => SwapLogOkIff(cfg, s);
    }
  }

  /** The ring and the log agree after every step of every run. */
  lemma {:induction false} LogOkAlways(cfg: Config, s: State, steps: seq<Broker.Step>)
    requires cfg.wal && Ledger(cfg, s) && LogOk(s) && Legal(cfg, s, steps) && AllTidy(cfg, s, steps)
    ensures LogOk(Exec(cfg, s, steps)) && Ledger(cfg, Exec(cfg, s, steps))
  {
    LedgerAlways(cfg, s, steps);
    if steps != [] {
      var front := steps[..|steps| - 1];
      LogOkAlways(cfg, s, front);
      NextLogOk(cfg, Exec(cfg, s, front), steps[|steps| - 1]);
    }
  }

  lemma StartLogOk(n: nat)
    ensures LogOk(Start(n))
  {
    NewRingOk(n);
  }

  // ---------------------------------------------------------------- every record, also the acknowledged ones

  /** Every send in the records is of a message of `w`, as it was sent. */
  ghost predicate AsSent(rs: seq<Record>, w: World)
  {
    forall i :: 0 <= i < |rs| && rs[i].op == OP_SEND ==> rs[i].id in w && rs[i].payload == PackWal(w[rs[i].id])
  }

  lemma {:induction false} FoldAsSent(rs: seq<Record>, w: World)
    requires AsSent(rs, w)
    ensures forall id :: id in Fold(rs).pending ==> id in w && Fold(rs).pending[id] == PackWal(w[id])
    ensures forall id :: id in Fold(rs).order ==> id in w
  {
    if rs != [] {
      FoldAsSent(rs[..|rs| - 1], w);
    }
  }

  lemma AppendAsSent(log: Bytes, r: Record, w: World)
    requires TornTail(log) == [] && AsSent(Records(log), w) && Intact(r)
    requires r.op == OP_SEND ==> r.id in w && r.payload == PackWal(w[r.id])
    ensures AsSent(Records(log + RecordBytes(r)), w)
  {
    AppendRecordReads(log, r);
  }

  lemma CompactAsSent(log: Bytes, w: World)
    requires AsSent(Records(log), w)
    ensures AsSent(Records(CompactBytes(log)), w)
  {
    FoldAsSent(Records(log), w);
    RecordsOfCompacted(log);
    EntriesOf(Records(log));
  }

  lemma BaseAsSent(s: State, w: World)
    requires LogOk(s) && s.snap.Some? && AsSent(Records(s.log), w)
    ensures AsSent(Records(CompactBytes(s.snap.value.base)), w)
  {
    var base, since := s.snap.value.base, s.snap.value.since;
    AppendAfter(base, since);
    assert forall i :: 0 <= i < |Records(base)| ==> Records(s.log)[i] == Records(base)[i];
    CompactAsSent(base, w);
  }

  lemma NextAsSent(cfg: Config, s: State, step: Broker.Step, w: World)
    requires LogOk(s) && AsSent(Records(s.log), w) && Grows(s.sent, w) && Enabled(cfg, s, step)
    ensures AsSent(Records(Next(cfg, s, step).log), w)
  {
    match step {
      case AppendLog(id, appendOk, ackOk) =>
        AppendAsSent(s.log, SendRecord(id, s.sent[id]), w);
        AppendAsSent(s.log, AckRecord(id), w);
      case WriteFails(id, ackOk) => AppendAsSent(s.log, AckRecord(id), w);
      case GetAck(id, ackOk) => AppendAsSent(s.log, AckRecord(id), w);
      case GetNack(id, ackOk) => AppendAsSent(s.log, AckRecord(id), w);
      case Swap => BaseAsSent(s, w);
      case EnterRing(_, _, _) =>
      case _ =>
    }
  }

  /** After every run every record of the log is of a message that was sent, as it was sent. */
  lemma {:induction false} AsSentAlways(cfg: Config, n: nat, steps: seq<Broker.Step>)
    requires cfg.wal && Legal(cfg, Start(n), steps) && AllTidy(cfg, Start(n), steps)
    ensures var s := Exec(cfg, Start(n), steps); Ledger(cfg, s) && LogOk(s) && AsSent(Records(s.log), s.sent)
  {
    StartLedger(cfg, n);
    StartLogOk(n);
    LogOkAlways(cfg, Start(n), steps);
    if steps != [] {
      var front, step := steps[..|steps| - 1], steps[|steps| - 1];
      AsSentAlways(cfg, n, front);
      GrowAsSent(cfg, Exec(cfg, Start(n), front), step);
    }
  }

  lemma GrowAsSent(cfg: Config, s: State, step: Broker.Step)
    requires Ledger(cfg, s) && LogOk(s) && AsSent(Records(s.log), s.sent) && Enabled(cfg, s, step)
    ensures AsSent(Records(Next(cfg, s, step).log), Next(cfg, s, step).sent)
  {
    NextGrows(cfg, s, step);
    NextAsSent(cfg, s, step, Next(cfg, s, step).sent);
  }
}
