/** Runs that a restart does not undo as one would hope: a reused ID, and a message that comes back. */
module RestartRuns {
  import opened Bytes
  import opened Chunker
  import opened Reassembly
  import opened Slots
  import opened Wal
  import opened Compaction
  import opened Broker
  import opened BrokerLog
  import opened Restart

  /** The steps of a Send up to its log append, and of a whole Send. */
  function Entering(id: u64, o: Outgoing): seq<Broker.Step> { [TakeId, EnterRing(id, o, 0)] }
  function Sending(id: u64, o: Outgoing): seq<Broker.Step> { Entering(id, o) + [AppendLog(id, true, true)] }

  ghost predicate CanSend(cfg: Config, s: State, o: Outgoing)
  {
    && s.counter + 1 < UINT64 && s.ring.free != [] && s.taken == {} && s.logging == {} && Intact(SendRecord(0, o))
    && Split(cfg.codec, s.counter + 1, o.ct, o.pri, o.payload).Some?
  }

  /** The log that a compaction under way has read. */
  function Base(s: State): Option<Bytes> { if s.snap.Some? then Some(s.snap.value.base) else None }

  /** Between `s` and `s'` one message took the next ID and a slot. */
  ghost predicate HasEntered(s: State, s': State, o: Outgoing)
  {
    && s.counter + 1 < UINT64 && s'.counter == s.counter + 1 && s'.taken == {} && s'.stale == s.stale
    && s'.sent == s.sent[s'.counter := o] && s'.ended == s.ended && Base(s') == Base(s)
    && ActiveIds(s'.ring.slots) == ActiveIds(s.ring.slots) + {s'.counter} && |s'.ring.free| == |s.ring.free| - 1
  }

  lemma EnterOnce(cfg: Config, s: State, o: Outgoing)
    requires cfg.wal && Ledger(cfg, s) && CanSend(cfg, s, o)
    ensures var id := s.counter + 1;
            var s1 := Next(cfg, s, TakeId);
            var s2 := Next(cfg, s1, EnterRing(id, o, 0));
            Enabled(cfg, s, TakeId) && Enabled(cfg, s1, EnterRing(id, o, 0)) && HasEntered(s, s2, o) && s2.logging == {id}
  {
    var id := s.counter + 1;
    assert id !in s.sent.Keys;
    EnterCases(cfg, Next(cfg, s, TakeId), EnterRing(id, o, 0));
    EnqueueOk(s.ring, id, Frags(cfg.codec, id, o), 0);
  }

  /** `run` is legal and tidy from a fresh broker of `n` slots and ends in `s`. */
  ghost predicate EndsIn(cfg: Config, n: nat, run: seq<Broker.Step>, s: State)
  {
    Legal(cfg, Start(n), run) && AllTidy(cfg, Start(n), run) && Exec(cfg, Start(n), run) == s && Ledger(cfg, s)
  }

  lemma OneMore(cfg: Config, n: nat, run: seq<Broker.Step>, s: State, step: Broker.Step)
    requires EndsIn(cfg, n, run, s) && Enabled(cfg, s, step) && Tidy(s, step)
    ensures EndsIn(cfg, n, run + [step], Next(cfg, s, step))
  {
    assert (run + [step])[..|run|] == run;
    ExecSnoc(cfg, Start(n), run, step);
    NextLedger(cfg, s, step);
  }

  lemma EnterMore(cfg: Config, n: nat, run: seq<Broker.Step>, s: State, o: Outgoing) returns (s': State)
    requires cfg.wal && EndsIn(cfg, n, run, s) && CanSend(cfg, s, o)
    ensures EndsIn(cfg, n, run + Entering(s.counter + 1, o), s') && HasEntered(s, s', o) && s'.logging == {s.counter + 1}
  {
    var id, s1 := s.counter + 1, Next(cfg, s, TakeId);
    EnterOnce(cfg, s, o);
    OneMore(cfg, n, run, s, TakeId);
    OneMore(cfg, n, run + [TakeId], s1, EnterRing(id, o, 0));
    s' := Next(cfg, s1, EnterRing(id, o, 0));
    assert run + Entering(id, o) == run + [TakeId] + [EnterRing(id, o, 0)];
  }

  lemma SendMore(cfg: Config, n: nat, run: seq<Broker.Step>, s: State, o: Outgoing) returns (s': State)
    requires cfg.wal && EndsIn(cfg, n, run, s) && CanSend(cfg, s, o)
    ensures EndsIn(cfg, n, run + Sending(s.counter + 1, o), s') && HasEntered(s, s', o) && s'.logging == {}
  {
    var id := s.counter + 1;
    var q := EnterMore(cfg, n, run, s, o);
    OneMore(cfg, n, run + Entering(id, o), q, AppendLog(id, true, true));
    s' := Next(cfg, q, AppendLog(id, true, true));
    assert run + Sending(id, o) == run + Entering(id, o) + [AppendLog(id, true, true)];
  }

  lemma SmallSends(c: Codec, id: u64, o: Outgoing)
    requires |o.payload| <= THRESHOLD
    ensures Split(c, id, o.ct, o.pri, o.payload).Some? && Intact(SendRecord(id, o))
  {
  }

  lemma FreshEnds(cfg: Config, n: nat) returns (s: State)
    ensures EndsIn(cfg, n, [], s) && s.counter == 0 && |s.ring.free| == n && ActiveIds(s.ring.slots) == {}
    ensures s.sent == map[] && s.ended == [] && s.taken == {} && s.logging == {} && s.stale == {}
  {
    s := Start(n);
    NewRingOk(n);
    StartLedger(cfg, n);
  }

  lemma OneSent(cfg: Config, n: nat, o: Outgoing) returns (s: State)
    requires cfg.wal && n > 0 && |o.payload| <= THRESHOLD
    ensures EndsIn(cfg, n, Sending(1, o), s) && s.counter == 1 && |s.ring.free| == n - 1 && s.taken == {} && s.logging == {}
    ensures s.sent == map[1 := o] && s.ended == [] && s.stale == {} && ActiveIds(s.ring.slots) == {1}
  {
    var start := FreshEnds(cfg, n);
    SmallSends(cfg.codec, 1, o);
    s := SendMore(cfg, n, [], start, o);
    assert [] + Sending(1, o) == Sending(1, o);
  }

  lemma TwoSent(cfg: Config, o: Outgoing) returns (s: State)
    requires cfg.wal && |o.payload| <= THRESHOLD
    ensures EndsIn(cfg, 2, Sending(1, o) + Sending(2, o), s)
    ensures s.sent == map[1 := o, 2 := o] && s.logging == {} && s.stale == {} && ActiveIds(s.ring.slots) == {1, 2}
  {
    var s1 := OneSent(cfg, 2, o);
    SmallSends(cfg.codec, 2, o);
    s := SendMore(cfg, 2, Sending(1, o), s1, o);
  }

  lemma AckAndCompact(cfg: Config, n: nat, run: seq<Broker.Step>, s: State, id: u64) returns (s': State)
    requires cfg.wal && EndsIn(cfg, n, run, s) && s.logging == {} && s.stale == {} && id in ActiveIds(s.ring.slots)
    ensures EndsIn(cfg, n, run + [GetAck(id, true)] + [Snapshot] + [Swap], s')
    ensures s'.sent == s.sent && Live(s') == ActiveIds(s.ring.slots) - {id}
    ensures forall k :: k in Fold(Records(s'.log)).order ==> k in Unacked(s'.log)
  {
    var q := AckMore(cfg, n, run, s, id);
    s' := CompactMore(cfg, n, run + [GetAck(id, true)], q);
  }

  lemma AckMore(cfg: Config, n: nat, run: seq<Broker.Step>, s: State, id: u64) returns (q: State)
    requires cfg.wal && EndsIn(cfg, n, run, s) && s.logging == {} && s.stale == {} && id in ActiveIds(s.ring.slots)
    ensures EndsIn(cfg, n, run + [GetAck(id, true)], q) && q.sent == s.sent && Live(q) == ActiveIds(s.ring.slots) - {id}
  {
    q := Next(cfg, s, GetAck(id, true));
    OneMore(cfg, n, run, s, GetAck(id, true));
    AckedLive(cfg, s, id);
  }

  /** A compaction without a write in between. */
  lemma CompactMore(cfg: Config, n: nat, run: seq<Broker.Step>, s: State) returns (s': State)
    requires cfg.wal && EndsIn(cfg, n, run, s)
    ensures EndsIn(cfg, n, run + [Snapshot] + [Swap], s') && s'.sent == s.sent && Live(s') == Live(s)
    ensures forall k :: k in Fold(Records(s'.log)).order ==> k in Unacked(s'.log)
  {
    var q := Next(cfg, s, Snapshot);
    OneMore(cfg, n, run, s, Snapshot);
    assert Undisturbed(q);
    OneMore(cfg, n, run + [Snapshot], q, Swap);
    s' := Next(cfg, q, Swap);
    CompactedOrder(s.log);
    CompactKeepsUnacked(s.log);
  }

  lemma AckedLive(cfg: Config, s: State, id: u64)
    requires cfg.wal && Ledger(cfg, s) && s.logging == {} && s.stale == {} && id in ActiveIds(s.ring.slots)
    ensures var q := Next(cfg, s, GetAck(id, true)); q.sent == s.sent && Live(q) == ActiveIds(s.ring.slots) - {id}
  {
    ReleaseOk(s.ring, id);
  }

  /** Two Sends, the second acknowledged, and a compaction that removes every trace of it. */
  function SecondAcked(o: Outgoing): seq<Broker.Step>
  {
    Sending(1, o) + Sending(2, o) + [GetAck(2, true)] + [Snapshot] + [Swap]
  }

  lemma SecondAckedEnds(cfg: Config, o: Outgoing) returns (s: State)
    requires cfg.wal && |o.payload| <= THRESHOLD
    ensures EndsIn(cfg, 2, SecondAcked(o), s) && s.sent == map[1 := o, 2 := o] && Live(s) == {1}
    ensures forall id :: id in Fold(Records(s.log)).order ==> id in Unacked(s.log)
  {
    var s2 := TwoSent(cfg, o);
    s := AckAndCompact(cfg, 2, Sending(1, o) + Sending(2, o), s2, 2);
    assert {1, 2} - {2} == {1};
  }

  /** That run's restart uses ID 2 again, although no ID but 1 is left in the log. */
  lemma ReusesIdAfterCompaction(cfg: Config, o: Outgoing, n: nat, now: int) returns (s: State)
    requires cfg.wal && n > 0 && |o.payload| <= THRESHOLD
    ensures Legal(cfg, Start(2), SecondAcked(o)) && s == Exec(cfg, Start(2), SecondAcked(o)) && 2 in s.sent
    ensures forall id :: id in Fold(Records(s.log)).order ==> id == 1
    ensures Open(cfg, n, s.log, now).Ready? && Open(cfg, n, s.log, now).state.counter + 1 == 2
  {
    s := SecondAckedEnds(cfg, o);
    RestartAt(cfg, 2, SecondAcked(o), s, n, now);
    OnlyOneLeft(cfg, s.sent, n, Open(cfg, n, s.log, now));
  }

  lemma OnlyOneLeft(cfg: Config, sent: World, n: nat, b: Boot)
    requires n > 0 && Restores(cfg, sent, {1}, n, b)
    ensures b.Ready? && b.state.counter == 1
  {
    var one: set<u64> := {1};
    assert |one| == 1;
  }

  lemma RestartAt(cfg: Config, n: nat, run: seq<Broker.Step>, s: State, n': nat, now: int)
    requires cfg.wal && EndsIn(cfg, n, run, s)
    ensures Unacked(s.log).Keys == Live(s) && Restores(cfg, s.sent, Live(s), n', Open(cfg, n', s.log, now))
  {
    RestartRestores(cfg, n, run, n', now);
    AsSentAlways(cfg, n, run);
  }

  // ---------------------------------------------------------------- an acknowledgement before the append

  /**
   * A message can be retransmitted, and so acknowledged, between its entry into the ring and its
   * log append.  The append then comes last, and the message is live in the log for good.
   */
  lemma AckedBeforeAppend(cfg: Config, o: Outgoing) returns (s: State)
    requires cfg.wal && |o.payload| <= THRESHOLD
    ensures EndsIn(cfg, 1, Entering(1, o) + [GetAck(1, true)] + [AppendLog(1, true, true)], s)
    ensures s.ended == [Ended(1, Acked)] && Live(s) == {1}
  {
    var s0 := FreshEnds(cfg, 1);
    SmallSends(cfg.codec, 1, o);
    var q := EnterMore(cfg, 1, [], s0, o);
    assert [] + Entering(1, o) == Entering(1, o);
    s := AckThenAppend(cfg, 1, Entering(1, o), q, 1);
  }

  lemma AckThenAppend(cfg: Config, n: nat, run: seq<Broker.Step>, s: State, id: u64) returns (s': State)
    requires cfg.wal && EndsIn(cfg, n, run, s) && ActiveIds(s.ring.slots) == {id} == s.logging && s.stale == {}
    ensures EndsIn(cfg, n, run + [GetAck(id, true)] + [AppendLog(id, true, true)], s')
    ensures s'.ended == s.ended + [Ended(id, Acked)] && Live(s') == {id}
  {
    var q := Next(cfg, s, GetAck(id, true));
    AckedFirst(cfg, s, id);
    OneMore(cfg, n, run, s, GetAck(id, true));
    OneMore(cfg, n, run + [GetAck(id, true)], q, AppendLog(id, true, true));
    s' := Next(cfg, q, AppendLog(id, true, true));
  }

  lemma AckedFirst(cfg: Config, s: State, id: u64)
    requires cfg.wal && Ledger(cfg, s) && ActiveIds(s.ring.slots) == {id} == s.logging && s.stale == {}
    ensures var q := Next(cfg, s, GetAck(id, true));
            && Enabled(cfg, q, AppendLog(id, true, true)) && q.ended == s.ended + [Ended(id, Acked)]
            && Next(cfg, q, AppendLog(id, true, true)).ended == q.ended && Live(Next(cfg, q, AppendLog(id, true, true))) == {id}
  {
    assert id in s.sent.Keys;
    ReleaseOk(s.ring, id);
  }

  // ---------------------------------------------------------------- a Send during a compaction

  /** A Send that falls between the snapshot and the rename of a compaction. */
  function SendDuringCompaction(o: Outgoing): seq<Broker.Step> { [Snapshot] + Sending(1, o) + [Swap] }

  lemma SentDuringCompaction(cfg: Config, o: Outgoing) returns (s: State)
    requires cfg.wal && |o.payload| <= THRESHOLD
    ensures EndsIn(cfg, 1, [Snapshot] + Sending(1, o), s) && ActiveIds(s.ring.slots) == {1} && Base(s) == Some([])
  {
    var s0 := FreshEnds(cfg, 1);
    OneMore(cfg, 1, [], s0, Snapshot);
    assert [] + [Snapshot] == [Snapshot];
    SmallSends(cfg.codec, 1, o);
    s := SendMore(cfg, 1, [Snapshot], Next(cfg, s0, Snapshot), o);
  }

  /** The rename overwrites its record: the message is in the ring, and a restart does not know of it. */
  lemma CompactionLosesSend(cfg: Config, o: Outgoing, n: nat, now: int) returns (s: State)
    requires cfg.wal && |o.payload| <= THRESHOLD
    ensures Legal(cfg, Start(1), SendDuringCompaction(o)) && s == Exec(cfg, Start(1), SendDuringCompaction(o))
    ensures ActiveIds(s.ring.slots) == {1} && s.log == []
    ensures Open(cfg, n, s.log, now) == Ready(Start(n))
  {
    var q := SentDuringCompaction(cfg, o);
    s := Next(cfg, q, Swap);
    ExecSnoc(cfg, Start(1), [Snapshot] + Sending(1, o), Swap);
    EmptyCompacts();
    EmptyOpens(cfg, n, now);
  }

  lemma EmptyCompacts()
    ensures CompactBytes([]) == []
  {
    assert Entries(Records([])) == [];
    assert Sends([]) == [];
  }

  lemma EmptyOpens(cfg: Config, n: nat, now: int)
    ensures Open(cfg, n, [], now) == Ready(Start(n))
  {
    assert Entries(Records([])) == [];
    assert Start(n).(log := []) == Start(n);
  }
}
