/**
 * Why nothing may be left of an ID that a restart is going to use again: an acknowledgement under way
 * can settle the new message, which is then never delivered; and a stream that the receiver began for the
 * old message, and never purges, mixes the two or makes it run past its fragment table.
 */
module ReusedIds {
  import opened Bytes
  import opened Protocol
  import opened Chunker
  import opened Reassembly
  import opened Slots
  import opened Wal
  import opened Broker
  import opened BrokerLog
  import opened Restart
  import opened RestartRuns
  import opened Delivery
  import opened Retransmission

  function Mine(step: Broker.Step): Move { Move(true, Local(step)) }

  /** `x'` is `x` after sending `o` with the next ID. */
  ghost predicate SentBy(x: Peer, x': Peer, o: Outgoing)
  {
    && HasEntered(x.out, x'.out, o) && x'.out.logging == {} && x'.out.counter in x'.out.writing && Ledger(x.cfg, x'.out)
    && x'.cfg == x.cfg && x'.tidy == x.tidy && x'.asm == x.asm && x'.inbound == x.inbound && x'.panicked == x.panicked
    && x'.net == x.net + FragSet(x.cfg.codec, x'.out.counter, o)
  }

  lemma AppendOnce(cfg: Config, s: State, id: u64)
    requires cfg.wal && Ledger(cfg, s) && s.logging == {id} && id in ActiveIds(s.ring.slots)
    ensures var s' := Next(cfg, s, AppendLog(id, true, true));
            && Enabled(cfg, s, AppendLog(id, true, true)) && Ledger(cfg, s')
            && s' == s.(log := s'.log, snap := s'.snap, logging := {}, writing := s.writing + {id}) && Base(s') == Base(s)
            && id in s.sent && Emits(cfg, s, AppendLog(id, true, true)) == FragSet(cfg.codec, id, s.sent[id])
  {
    assert id in s.sent.Keys;
    NextLedger(cfg, s, AppendLog(id, true, true));
  }

  lemma EnterLedgers(cfg: Config, s: State, o: Outgoing)
    requires cfg.wal && Ledger(cfg, s) && CanSend(cfg, s, o)
    ensures Ledger(cfg, Next(cfg, Next(cfg, s, TakeId), EnterRing(s.counter + 1, o, 0)))
  {
    EnterOnce(cfg, s, o);
    NextLedger(cfg, s, TakeId);
    NextLedger(cfg, Next(cfg, s, TakeId), EnterRing(s.counter + 1, o, 0));
  }

  /** `x'` differs from `x` only in its broker and in the history. */
  ghost predicate OnlyBroker(x: Peer, x': Peer)
  {
    && x'.cfg == x.cfg && x'.tidy == x.tidy && x'.asm == x.asm && x'.inbound == x.inbound && x'.panicked == x.panicked
    && x'.net == x.net
  }

  lemma QuietAct(x: Peer, y: Peer, step: Broker.Step) returns (x': Peer)
    requires Emits(x.cfg, x.out, step) == {} && Tidy(x.out, step) && Enabled(x.cfg, x.out, step) && !step.GetAck? && !step.GetNack?
    ensures x' == PeerNext(x, Local(step)) && CanAct(x, y, Local(step)) && x'.out == Next(x.cfg, x.out, step) && OnlyBroker(x, x')
  {
    x' := PeerNext(x, Local(step));
    PeerStep(x, step);
    assert x.net + {} == x.net;
  }

  lemma PeerEnters(x: Peer, y: Peer, o: Outgoing) returns (p: Broker.Step, q: Broker.Step, x1: Peer, x2: Peer)
    requires x.cfg.wal && Ledger(x.cfg, x.out) && CanSend(x.cfg, x.out, o)
    ensures x1 == PeerNext(x, Local(p)) && x2 == PeerNext(x1, Local(q)) && CanAct(x, y, Local(p)) && CanAct(x1, y, Local(q))
    ensures HasEntered(x.out, x2.out, o) && x2.out.logging == {x2.out.counter} && Ledger(x.cfg, x2.out) && OnlyBroker(x, x2)
  {
    var s1, s2;
    p, q, s1, s2 := EnterSteps(x.cfg, x.out, o);
    x1 := QuietAct(x, y, p);
    x2 := QuietAct(x1, y, q);
    assert x2.out == s2;
  }

  /** The two steps, their states, and that they write nothing. */
  lemma EnterSteps(cfg: Config, s: State, o: Outgoing) returns (p: Broker.Step, q: Broker.Step, s1: State, s2: State)
    requires cfg.wal && Ledger(cfg, s) && CanSend(cfg, s, o)
    ensures s1 == Next(cfg, s, p) && s2 == Next(cfg, s1, q) && Enabled(cfg, s, p) && Enabled(cfg, s1, q)
    ensures Emits(cfg, s, p) == {} == Emits(cfg, s1, q) && Tidy(s, p) && Tidy(s1, q)
    ensures !p.GetAck? && !p.GetNack? && !q.GetAck? && !q.GetNack?
    ensures HasEntered(s, s2, o) && s2.logging == {s2.counter} && Ledger(cfg, s2)
  {
    p, q := TakeId, EnterRing(s.counter + 1, o, 0);
    s1 := Next(cfg, s, p);
    s2 := Next(cfg, s1, q);
    EnterOnce(cfg, s, o);
    EnterLedgers(cfg, s, o);
    EntersQuietly(cfg, s, o);
  }

  lemma EntersQuietly(cfg: Config, s: State, o: Outgoing)
    requires cfg.wal && CanSend(cfg, s, o)
    ensures var q := EnterRing(s.counter + 1, o, 0);
            && Emits(cfg, s, TakeId) == {} && Tidy(s, TakeId)
            && Emits(cfg, Next(cfg, s, TakeId), q) == {} && Tidy(Next(cfg, s, TakeId), q)
  {
  }

  lemma PeerAppends(x: Peer, x2: Peer, y: Peer, o: Outgoing) returns (r: Broker.Step, x3: Peer)
    requires x.cfg.wal && OnlyBroker(x, x2) && HasEntered(x.out, x2.out, o) && x2.out.logging == {x2.out.counter} && Ledger(x.cfg, x2.out)
    ensures x3 == PeerNext(x2, Local(r)) && CanAct(x2, y, Local(r)) && SentBy(x, x3, o)
  {
    r := AppendLog(x2.out.counter, true, true);
    AppendOnce(x.cfg, x2.out, x2.out.counter);
    PeerStep(x2, r);
    x3 := PeerNext(x2, Local(r));
  }

  /** Three broker steps of the first peer, as moves of the system. */
  lemma ThreeMoves(s: System, p: Broker.Step, q: Broker.Step, r: Broker.Step, x1: Peer, x2: Peer, x3: Peer)
    requires x1 == PeerNext(s.a, Local(p)) && x2 == PeerNext(x1, Local(q)) && x3 == PeerNext(x2, Local(r))
    requires CanAct(s.a, s.b, Local(p)) && CanAct(x1, s.b, Local(q)) && CanAct(x2, s.b, Local(r))
    ensures Leads(s, [Mine(p)] + [Mine(q)] + [Mine(r)], System(x3, s.b))
  {
    assert Leads(s, [], System(s.a, s.b)) && [] + [Mine(p)] == [Mine(p)];
    LeadsByA(s, [], s.a, s.b, Local(p), x1);
    LeadsByA(s, [Mine(p)], x1, s.b, Local(q), x2);
    LeadsByA(s, [Mine(p)] + [Mine(q)], x2, s.b, Local(r), x3);
  }

  /** A Send of the first peer. */
  lemma SystemSends(s: System, o: Outgoing) returns (moves: seq<Move>, s3: System)
    requires s.a.cfg.wal && Ledger(s.a.cfg, s.a.out) && CanSend(s.a.cfg, s.a.out, o)
    ensures Leads(s, moves, s3) && s3.b == s.b && SentBy(s.a, s3.a, o)
  {
    var p, q, x1, x2 := PeerEnters(s.a, s.b, o);
    var r, x3 := PeerAppends(s.a, x2, s.b, o);
    ThreeMoves(s, p, q, r, x1, x2, x3);
    moves, s3 := [Mine(p)] + [Mine(q)] + [Mine(r)], System(x3, s.b);
  }

  /** A small payload is one fragment, which completes its message at once. */
  lemma OneFragment(c: Codec, id: u64, o: Outgoing, st: Streams, now: int) returns (m: Message)
    requires |o.payload| <= THRESHOLD
    ensures Frags(c, id, o) == [m] && m.header.msgType == MSG_DATA && m.header.msgID == id && m.header.contentType == o.ct
    ensures Add(c, st, m, now) == (st, Complete(o.payload))
  {
    assert Chunks(o.payload) == [o.payload];
    m := Frags(c, id, o)[0];
  }

  lemma HandsUp(y: Peer, m: Message, id: u64, o: Outgoing)
    requires m.header.msgType == MSG_DATA && m.header.msgID == id && m.header.contentType == o.ct
    requires Add(y.cfg.codec, y.asm, m, 0) == (y.asm, Complete(o.payload))
    ensures PeerNext(y, Receive(m, 0, true)) ==
            y.(inbound := y.inbound + [Inbound(id, o.ct, o.payload)], net := y.net + {Control(MSG_ACK, id)})
  {
  }

  /** The sender after the acknowledgement of its only message. */
  lemma Settled(x: Peer, id: u64)
    requires Ledger(x.cfg, x.out) && ActiveIds(x.out.ring.slots) == {id} && x.out.logging == {} && x.out.stale == {}
    ensures var x' := PeerNext(x, Receive(Control(MSG_ACK, id), 0, true));
            && x'.cfg == x.cfg && x'.tidy == x.tidy && x'.out.sent == x.out.sent
            && x'.out.ended == x.out.ended + [Ended(id, Acked)] && Live(x'.out) == {}
  {
    ReleaseOk(x.out.ring, id);
  }

  /** The message can be split, and fits a log record. */
  ghost predicate Ordinary(c: Codec, o: Outgoing)
  {
    Split(c, 1, o.ct, o.pri, o.payload).Some? && Intact(SendRecord(0, o))
  }

  lemma FreshCanSend(cfg: Config, o: Outgoing)
    requires Ordinary(cfg.codec, o)
    requires cfg.wal
    ensures Afresh(Fresh(cfg, 1, cfg, 1), o)
  {
    var s := FreshEnds(cfg, 1);
  }

  /** After a Send the receiver hands the message up and the sender takes the acknowledgement. */
  lemma SystemSettles(s: System, m: Message, id: u64, o: Outgoing) returns (moves: seq<Move>, s2: System)
    requires m in s.a.net && m.header.msgType == MSG_DATA && m.header.msgID == id && m.header.contentType == o.ct
    requires Add(s.b.cfg.codec, s.b.asm, m, 0) == (s.b.asm, Complete(o.payload))
    ensures Leads(s, moves, s2) && s2.a == PeerNext(s.a, Receive(Control(MSG_ACK, id), 0, true))
    ensures s2.b.inbound == s.b.inbound + [Inbound(id, o.ct, o.payload)] && Control(MSG_ACK, id) in s2.b.net && s2.b.cfg == s.b.cfg
  {
    var m1, m2 := Move(false, Receive(m, 0, true)), Move(true, Receive(Control(MSG_ACK, id), 0, true));
    HandsUp(s.b, m, id, o);
    s2 := SysNext(SysNext(s, m1), m2);
    assert [] + [m1] == [m1];
    PlaySnoc(s, [], m1);
    PlaySnoc(s, [m1], m2);
    moves := [m1] + [m2];
  }

  /** A first life from which a restart begins with an empty ring and a counter at zero. */
  ghost predicate Over(cfg: Config, moves: seq<Move>, s: System)
  {
    && Leads(Fresh(cfg, 1, cfg, 1), moves, s) && Sound(cfg.codec, s)
    && s.a.cfg == cfg && s.b.cfg == cfg && s.a.tidy && Live(s.a.out) == {}
  }

  /** A sender whose next message gets ID 1. */
  ghost predicate Afresh(s: System, o: Outgoing)
  {
    && s.a.cfg.wal && Ledger(s.a.cfg, s.a.out) && CanSend(s.a.cfg, s.a.out, o) && s.a.out.counter == 0
    && ActiveIds(s.a.out.ring.slots) == {} && s.a.out.stale == {} && s.a.out.ended == [] && s.a.out.sent == map[]
  }

  /** A sender whose one message, with ID 1, is in the ring and in the log, and still being written. */
  ghost predicate HasOne(x: Peer, o: Outgoing)
  {
    && x.cfg.wal && Ledger(x.cfg, x.out) && ActiveIds(x.out.ring.slots) == {1} && x.out.logging == {} && x.out.stale == {}
    && 1 in x.out.writing && x.out.sent == map[1 := o] && x.out.ended == []
  }

  lemma SendsOne(s: System, o: Outgoing) returns (moves: seq<Move>, s1: System)
    requires Afresh(s, o)
    ensures Leads(s, moves, s1) && s1.b == s.b
    ensures HasOne(s1.a, o) && s1.a.cfg == s.a.cfg && s1.a.tidy == s.a.tidy && s1.a.net == s.a.net + FragSet(s.a.cfg.codec, 1, o)
  {
    moves, s1 := SystemSends(s, o);
    OneFromSent(s.a, s1.a, o);
  }

  lemma OneFromSent(x: Peer, x': Peer, o: Outgoing)
    requires SentBy(x, x', o) && x.cfg.wal && x.out.counter == 0 && ActiveIds(x.out.ring.slots) == {}
    requires x.out.stale == {} && x.out.ended == [] && x.out.sent == map[]
    ensures HasOne(x', o) && x'.net == x.net + FragSet(x.cfg.codec, 1, o)
  {
    assert {} + {1} == {1};
  }

  lemma FirstSend(cfg: Config, o: Outgoing) returns (moves: seq<Move>, s: System)
    requires cfg.wal && Ordinary(cfg.codec, o)
    ensures Leads(Fresh(cfg, 1, cfg, 1), moves, s)
    ensures HasOne(s.a, o) && s.a.cfg == cfg && s.a.tidy && s.a.net == FragSet(cfg.codec, 1, o) && s.b == FreshPeer(cfg, 1)
  {
    FreshCanSend(cfg, o);
    moves, s := SendsOne(Fresh(cfg, 1, cfg, 1), o);
    assert {} + FragSet(cfg.codec, 1, o) == FragSet(cfg.codec, 1, o);
  }

  lemma OverAfter(cfg: Config, moves: seq<Move>, s1: System, more: seq<Move>, s: System)
    requires RoundTrips(cfg.codec) && Leads(Fresh(cfg, 1, cfg, 1), moves, s1) && Leads(s1, more, s)
    requires s.a.cfg == cfg && s.b.cfg == cfg && s.a.tidy && Live(s.a.out) == {}
    ensures Over(cfg, moves + more, s)
  {
    LeadsOn(Fresh(cfg, 1, cfg, 1), moves, s1, more, s);
    FreshSound(cfg, 1, cfg, 1);
    SoundAlways(cfg.codec, Fresh(cfg, 1, cfg, 1), moves + more);
  }

  /** The first life: one message sent, delivered and acknowledged. */
  lemma FirstLife(cfg: Config, o: Outgoing) returns (moves: seq<Move>, s: System)
    requires cfg.wal && RoundTrips(cfg.codec) && |o.payload| <= THRESHOLD
    ensures Over(cfg, moves, s) && Control(MSG_ACK, 1) in s.b.net && s.b.inbound == [Inbound(1, o.ct, o.payload)]
  {
    SmallSends(cfg.codec, 1, o);
    var m := OneFragment(cfg.codec, 1, o, map[], 0);
    var first, s1 := FirstSend(cfg, o);
    assert m in FragSet(cfg.codec, 1, o);
    var more;
    more, s := SystemSettles(s1, m, 1, o);
    Settled(s1.a, 1);
    moves := first + more;
    OverAfter(cfg, first, s1, more, s);
  }

  /** The restart over a log without live messages: an empty ring, and the counter at zero again. */
  lemma EmptyRestart(x: Peer, o: Outgoing)
    requires x.cfg.wal && x.tidy && WorldOk(x) && DiskOk(x) && Live(x.out) == {} && Ordinary(x.cfg.codec, o)
    ensures Open(x.cfg, 1, x.out.log, 0).Ready?
    ensures var out := Open(x.cfg, 1, x.out.log, 0).state;
            && Ledger(x.cfg, out) && CanSend(x.cfg, out, o) && out.counter == 0 && ActiveIds(out.ring.slots) == {}
            && out.stale == {} && out.ended == [] && out.sent == map[]
  {
    var log := x.out.log;
    OpenRestores(x.cfg, x.world, log, 1, 0);
    ListedOf(x.cfg, x.world, log);
    OpenFilled(x.cfg, 1, log, Entries(Records(log)), 0);
    assert |Unacked(log).Keys| == 0;
    assert Open(x.cfg, 1, log, 0).state.sent.Keys == {};
  }

  function Rebooted(s: System): System { SysNext(s, Move(true, Reopen(1, |s.a.out.log|, 0))) }

  lemma Restarted(cfg: Config, moves: seq<Move>, s: System, o: Outgoing) returns (q: System)
    requires cfg.wal && Over(cfg, moves, s) && Ordinary(cfg.codec, o)
    ensures Open(cfg, 1, s.a.out.log, 0).Ready? && Open(cfg, 1, s.a.out.log, 0).state.counter == 0
    ensures q == Rebooted(s) && q.b == s.b && q.a.cfg == s.a.cfg && q.a.net == s.a.net && Afresh(q, o)
  {
    EmptyRestart(s.a, o);
    assert Surviving(s.a.out.log, |s.a.out.log|) == s.a.out.log;
    q := Rebooted(s);
  }

  /** The second life: the old acknowledgement settles the new message, which the receiver never saw. */
  lemma SecondLife(s: System, o: Outgoing) returns (moves: seq<Move>, s': System)
    requires Afresh(s, o) && Control(MSG_ACK, 1) in s.b.net
    ensures Leads(s, moves, s') && s'.b == s.b
    ensures s'.a.out.sent == map[1 := o] && s'.a.out.ended == [Ended(1, Acked)]
  {
    var first, s1 := SendsOne(s, o);
    Settled(s1.a, 1);
    var mv := Move(true, Receive(Control(MSG_ACK, 1), 0, true));
    moves, s' := LastMove(s, first, s1, mv);
  }

  lemma LastMove(s: System, moves: seq<Move>, s1: System, mv: Move) returns (more: seq<Move>, s': System)
    requires Leads(s, moves, s1) && CanMove(s1, mv)
    ensures Leads(s, more, s') && s' == SysNext(s1, mv)
  {
    more, s' := moves + [mv], SysNext(s1, mv);
    PlaySnoc(s, moves, mv);
  }

  /**
   * An acknowledgement under way.  A message is sent, delivered and acknowledged; the sender restarts
   * over its log, which leaves its counter at zero; it sends another message, with the same ID; and the
   * old acknowledgement, delivered again, settles it.  Every move is possible but for what is left of
   * ID 1 at the restart.
   */
  lemma StaleAckSettlesNewMessage(cfg: Config, o: Outgoing, o': Outgoing)
    returns (before: seq<Move>, s: System, after: seq<Move>, s': System)
    requires cfg.wal && RoundTrips(cfg.codec) && |o.payload| <= THRESHOLD && |o'.payload| <= THRESHOLD && o.payload != o'.payload
    ensures Over(cfg, before, s) && Open(cfg, 1, s.a.out.log, 0).Ready?
    ensures Leads(Rebooted(s), after, s')
    ensures s'.a.out.sent == map[1 := o'] && s'.a.out.ended == [Ended(1, Acked)] && !Delivered(s'.b.inbound, s'.a.out.sent, 1)
  {
    before, s := FirstLife(cfg, o);
    SmallSends(cfg.codec, 1, o');
    var q := Restarted(cfg, before, s, o');
    after, s' := SecondLife(q, o');
  }

  // ---------------------------------------------------------------- data under way

  lemma FailedSend(x: Peer, id: u64)
    requires x.cfg.wal && Ledger(x.cfg, x.out) && ActiveIds(x.out.ring.slots) == {id} && x.out.logging == {} && x.out.stale == {}
    requires id in x.out.writing
    ensures var x' := PeerNext(x, Local(WriteFails(id, true)));
            && Enabled(x.cfg, x.out, WriteFails(id, true)) && x'.cfg == x.cfg && x'.tidy == x.tidy && x'.net == x.net && Live(x'.out) == {}
  {
    ReleaseOk(x.out.ring, id);
    PeerStep(x, WriteFails(id, true));
    assert x.net + {} == x.net;
  }

  /** A first life whose one Send fails after it wrote its frame. */
  lemma WrittenInVain(cfg: Config, o: Outgoing) returns (moves: seq<Move>, s: System)
    requires cfg.wal && RoundTrips(cfg.codec) && Ordinary(cfg.codec, o)
    ensures Over(cfg, moves, s) && s.a.net == FragSet(cfg.codec, 1, o) && s.b == FreshPeer(cfg, 1)
  {
    var first, s1 := FirstSend(cfg, o);
    FailedSend(s1.a, 1);
    var mv := Mine(WriteFails(1, true));
    moves, s := LastMove(Fresh(cfg, 1, cfg, 1), first, s1, mv);
    assert moves + [] == moves;
    OverAfter(cfg, moves, s, [], s);
  }

  /**
   * Data under way.  The old message arrives after the new one, with its ID, was sent: it is handed up,
   * and its acknowledgement settles the new one.
   */
  lemma StaleDataSettlesNewMessage(cfg: Config, o: Outgoing, o': Outgoing)
    returns (before: seq<Move>, s: System, after: seq<Move>, s': System)
    requires cfg.wal && RoundTrips(cfg.codec) && |o.payload| <= THRESHOLD && |o'.payload| <= THRESHOLD && o.payload != o'.payload
    ensures Over(cfg, before, s) && s.b == FreshPeer(cfg, 1) && Open(cfg, 1, s.a.out.log, 0).Ready?
    ensures Leads(Rebooted(s), after, s')
    ensures s'.a.out.sent == map[1 := o'] && s'.a.out.ended == [Ended(1, Acked)] && !Delivered(s'.b.inbound, s'.a.out.sent, 1)
  {
    SmallSends(cfg.codec, 1, o);
    SmallSends(cfg.codec, 1, o');
    before, s := WrittenInVain(cfg, o);
    var q := Restarted(cfg, before, s, o');
    var m := OneFragment(cfg.codec, 1, o, map[], 0);
    assert m in FragSet(cfg.codec, 1, o);
    after, s' := OldArrives(q, m, o, o');
    NotBoth(s'.b.inbound, o, o');
  }

  lemma NotBoth(inbound: seq<Inbound>, o: Outgoing, o': Outgoing)
    requires inbound == [] + [Inbound(1, o.ct, o.payload)] && o.payload != o'.payload
    ensures !Delivered(inbound, map[1 := o'], 1)
  {
    assert inbound == [Inbound(1, o.ct, o.payload)];
  }

  lemma OldArrives(s: System, m: Message, o: Outgoing, o': Outgoing) returns (moves: seq<Move>, s': System)
    requires Afresh(s, o') && m in s.a.net && m.header.msgType == MSG_DATA && m.header.msgID == 1 && m.header.contentType == o.ct
    requires Add(s.b.cfg.codec, s.b.asm, m, 0) == (s.b.asm, Complete(o.payload))
    ensures Leads(s, moves, s') && s'.b.inbound == s.b.inbound + [Inbound(1, o.ct, o.payload)]
    ensures s'.a.out.sent == map[1 := o'] && s'.a.out.ended == [Ended(1, Acked)]
  {
    var first, s1 := SendsOne(s, o');
    var more;
    more, s' := SystemSettles(s1, m, 1, o);
    Settled(s1.a, 1);
    moves := first + more;
    LeadsOn(s, first, s1, more, s');
  }

  // ---------------------------------------------------------------- an unfinished stream

  /** A payload that is packed into more than one chunk and at most two, or more than two and at most three. */
  lemma FragmentsOf(c: Codec, id: u64, o: Outgoing, n: nat)
    requires 2 <= n <= 3 && (n - 1) * CHUNK_SIZE < |Pack(c, o.payload).0| <= n * CHUNK_SIZE
    ensures var fs := Frags(c, id, o);
            && |fs| == n && Split(c, id, o.ct, o.pri, o.payload).Some?
            && forall i :: 0 <= i < n ==>
                 var h := fs[i].header;
                 && h.msgID == id && h.msgType == MSG_DATA && h.contentType == o.ct && h.fragIndex == i && h.fragTotal == n
                 && ValidFragment(h, fs[i].payload)
  {
    var data := Pack(c, o.payload).0;
    var rest := data[CHUNK_SIZE..];
    assert Chunks(data) == [data[..CHUNK_SIZE]] + Chunks(rest);
    if n == 2 {
      assert Chunks(rest) == [rest];
    } else {
      assert Chunks(rest[CHUNK_SIZE..]) == [rest[CHUNK_SIZE..]];
      assert Chunks(rest) == [rest[..CHUNK_SIZE]] + [rest[CHUNK_SIZE..]];
    }
  }

  /** The first of two fragments opens a stream. */
  lemma FirstOpens(c: Codec, m: Message)
    requires ValidFragment(m.header, m.payload) && m.header.fragIndex == 0 && m.header.fragTotal == 2
    ensures Add(c, map[], m, 0) == (map[m.header.msgID := Stream([Some(m.payload), None], 1, 0)], Incomplete)
  {
    var s := GetOrCreate(map[], m.header, 0).value;
    assert s.frags == [None, None];
    assert s.frags[0 := Some(m.payload)] == [Some(m.payload), None];
  }

  /** A second fragment of another message completes it, with the first fragment of the old one. */
  lemma SecondMixes(c: Codec, a: Bytes, m: Message)
    requires ValidFragment(m.header, m.payload) && m.header.fragIndex == 1 && m.header.fragTotal == 2
    ensures var st := map[m.header.msgID := Stream([Some(a), None], 1, 0)];
            Add(c, st, m, 0) == (st - {m.header.msgID}, Finish(c, a + m.payload, m.header.flags))
  {
    var s := Stream([Some(a), None], 1, 0);
    var st := map[m.header.msgID := s];
    assert GetOrCreate(st, m.header, 0) == Some(s) && s.frags[1] == None;
    var frags := s.frags[1 := Some(m.payload)];
    assert |frags| == 2 && frags == [Some(a), Some(m.payload)];
    assert Bodies(frags) == [a] + [m.payload];
    JoinCons(a, [m.payload]);
    JoinCons(m.payload, []);
    assert [m.payload] + [] == [m.payload] && m.payload + [] == m.payload;
    assert Join(Bodies(frags)) == a + m.payload;
  }

  /** A third fragment lies past the table of two. */
  lemma ThirdPanics(c: Codec, a: Bytes, m: Message)
    requires ValidFragment(m.header, m.payload) && m.header.fragIndex == 2 && m.header.fragTotal == 3
    ensures Add(c, map[m.header.msgID := Stream([Some(a), None], 1, 0)], m, 0).1 == Panic
  {
  }

  /** One act of the second peer, then three of the first. */
  lemma FourActs(s: System, p: Act, q: Act, r: Act, u: Act, y: Peer, x1: Peer, x2: Peer, x3: Peer)
    requires CanAct(s.b, s.a, p) && y == PeerNext(s.b, p) && CanAct(s.a, y, q) && x1 == PeerNext(s.a, q)
    requires CanAct(x1, y, r) && x2 == PeerNext(x1, r) && CanAct(x2, y, u) && x3 == PeerNext(x2, u)
    ensures Leads(s, [Move(false, p)] + [Move(true, q)] + [Move(true, r)] + [Move(true, u)], System(x3, y))
  {
    assert [] + [Move(false, p)] == [Move(false, p)];
    PlaySnoc(s, [], Move(false, p));
    assert Leads(s, [Move(false, p)], System(s.a, y));
    LeadsByA(s, [Move(false, p)], s.a, y, q, x1);
    LeadsByA(s, [Move(false, p)] + [Move(true, q)], x1, y, r, x2);
    LeadsByA(s, [Move(false, p)] + [Move(true, q)] + [Move(true, r)], x2, y, u, x3);
  }

  /** The receiver takes one fragment; the Send then fails, and everything in flight is lost. */
  lemma SystemAbandons(s: System, o: Outgoing, m: Message, n: Message) returns (moves: seq<Move>, s': System)
    requires HasOne(s.a, o) && s.a.net == {m, n} && m != n && s.b.asm == map[] && m.header.msgID == 1 && m.header.msgType == MSG_DATA
    requires ValidFragment(m.header, m.payload) && m.header.fragIndex == 0 && m.header.fragTotal == 2
    ensures Leads(s, moves, s')
    ensures s'.a.cfg == s.a.cfg && s'.a.tidy == s.a.tidy && s'.a.net == {} && Live(s'.a.out) == {}
    ensures s'.b == s.b.(asm := map[1 := Stream([Some(m.payload), None], 1, 0)])
  {
    var y := OpensStream(s.b, m);
    FailedSend(s.a, 1);
    var x1 := PeerNext(s.a, Local(WriteFails(1, true)));
    var x2 := x1.(net := x1.net - {m});
    var x3 := x2.(net := x2.net - {n});
    assert x3.net == {};
    var p, q, r, u := Receive(m, 0, true), Local(WriteFails(1, true)), Lose(m), Lose(n);
    FourActs(s, p, q, r, u, y, x1, x2, x3);
    moves, s' := [Move(false, p)] + [Move(true, q)] + [Move(true, r)] + [Move(true, u)], System(x3, y);
  }

  lemma OpensStream(y: Peer, m: Message) returns (y': Peer)
    requires y.asm == map[] && m.header.msgType == MSG_DATA
    requires ValidFragment(m.header, m.payload) && m.header.fragIndex == 0 && m.header.fragTotal == 2
    ensures y' == PeerNext(y, Receive(m, 0, true)) && y' == y.(asm := map[m.header.msgID := Stream([Some(m.payload), None], 1, 0)])
  {
    FirstOpens(y.cfg.codec, m);
    y' := PeerNext(y, Receive(m, 0, true));
  }

  /** The payload is packed into `n` chunks, and fits a log record. */
  ghost predicate InChunks(c: Codec, o: Outgoing, n: nat)
  {
    (n - 1) * CHUNK_SIZE < |Pack(c, o.payload).0| <= n * CHUNK_SIZE && Intact(SendRecord(0, o))
  }

  /** A first life that leaves half a message at the receiver, and nothing in flight. */
  lemma HalfReceived(cfg: Config, o: Outgoing) returns (moves: seq<Move>, s: System)
    requires cfg.wal && RoundTrips(cfg.codec) && InChunks(cfg.codec, o, 2)
    ensures Over(cfg, moves, s) && s.a.net == {} && s.b.net == {} && s.b.inbound == [] && !s.b.panicked
    ensures |Frags(cfg.codec, 1, o)| == 2 && s.b.asm == map[1 := Stream([Some(Frags(cfg.codec, 1, o)[0].payload), None], 1, 0)]
  {
    FragmentsOf(cfg.codec, 1, o, 2);
    var fs := Frags(cfg.codec, 1, o);
    var first, s1 := FirstSend(cfg, o);
    TwoFrames(cfg.codec, o, fs);
    var more;
    more, s := SystemAbandons(s1, o, fs[0], fs[1]);
    moves := first + more;
    OverAfter(cfg, first, s1, more, s);
  }

  lemma TwoFrames(c: Codec, o: Outgoing, fs: seq<Message>)
    requires fs == Frags(c, 1, o) && |fs| == 2 && fs[0].header.fragIndex != fs[1].header.fragIndex
    ensures FragSet(c, 1, o) == {fs[0], fs[1]} && fs[0] != fs[1]
  {
    assert forall m :: m in fs <==> m == fs[0] || m == fs[1];
  }

  /** The second life sends a message with ID 1 and the receiver takes one fragment of it. */
  lemma TakesOne(cfg: Config, before: seq<Move>, s: System, o: Outgoing, n: nat, i: nat) returns (after: seq<Move>, s': System)
    requires cfg.wal && Over(cfg, before, s) && 2 <= n <= 3 && InChunks(cfg.codec, o, n) && i < n
    ensures |Frags(cfg.codec, 1, o)| == n && Open(cfg, 1, s.a.out.log, 0).Ready?
    ensures Leads(Rebooted(s), after, s') && s'.b == PeerNext(s.b, Receive(Frags(cfg.codec, 1, o)[i], 0, true))
    ensures s'.a.out.sent == map[1 := o]
  {
    FragmentsOf(cfg.codec, 1, o, n);
    var m := Frags(cfg.codec, 1, o)[i];
    var q := Restarted(cfg, before, s, o);
    var first, s1 := SendsOne(q, o);
    assert m in FragSet(cfg.codec, 1, o);
    after, s' := LastMove(q, first, s1, Move(false, Receive(m, 0, true)));
  }

  /**
   * An unfinished stream, and no frame in flight.  The receiver has the first half of a message whose
   * Send failed; the sender restarts and uses its ID for another message of as many fragments; the
   * second of these completes the stream, and what is handed up and acknowledged, if it unpacks at
   * all, is half of one message and half of the other.
   */
  lemma StreamMixesMessages(cfg: Config, o: Outgoing, o': Outgoing)
    returns (before: seq<Move>, s: System, after: seq<Move>, s': System)
    requires cfg.wal && RoundTrips(cfg.codec) && InChunks(cfg.codec, o, 2) && InChunks(cfg.codec, o', 2)
    ensures |Frags(cfg.codec, 1, o)| == 2 == |Frags(cfg.codec, 1, o')|
    ensures Over(cfg, before, s) && s.a.net == {} && s.b.net == {} && Open(cfg, 1, s.a.out.log, 0).Ready?
    ensures Leads(Rebooted(s), after, s') && s'.a.out.sent == map[1 := o']
    ensures var f, g := Frags(cfg.codec, 1, o)[0], Frags(cfg.codec, 1, o')[1];
            match Finish(cfg.codec, f.payload + g.payload, g.header.flags)
            case Complete(p) => s'.b.inbound == [Inbound(1, o'.ct, p)] && s'.b.net == {Control(MSG_ACK, 1)}
            case _ => s'.b.inbound == []
  {
    before, s := HalfReceived(cfg, o);
    FragmentsOf(cfg.codec, 1, o', 2);
    after, s' := TakesOne(cfg, before, s, o', 2, 1);
    PeerMixes(s.b, Frags(cfg.codec, 1, o)[0].payload, Frags(cfg.codec, 1, o')[1]);
  }

  lemma PeerMixes(y: Peer, a: Bytes, m: Message)
    requires y.asm == map[1 := Stream([Some(a), None], 1, 0)] && y.inbound == [] && y.net == {}
    requires ValidFragment(m.header, m.payload) && m.header.fragIndex == 1 && m.header.fragTotal == 2
    requires m.header.msgID == 1 && m.header.msgType == MSG_DATA
    ensures var y' := PeerNext(y, Receive(m, 0, true));
            match Finish(y.cfg.codec, a + m.payload, m.header.flags)
            case Complete(p) => y'.inbound == [Inbound(1, m.header.contentType, p)] && y'.net == {Control(MSG_ACK, 1)}
            case _ => y'.inbound == []
  {
    SecondMixes(y.cfg.codec, a, m);
  }

  /** Where packing changes nothing, it is neither of the two unless they share a half. */
  lemma MixOfPlain(c: Codec, o: Outgoing, o': Outgoing)
    requires (forall x: Bytes :: c.compress(x) == x && c.decompress(x) == Some(x)) && InChunks(c, o, 2) && InChunks(c, o', 2)
    ensures |Frags(c, 1, o)| == 2 == |Frags(c, 1, o')|
    ensures var f, g := Frags(c, 1, o)[0], Frags(c, 1, o')[1];
            Finish(c, f.payload + g.payload, g.header.flags) == Complete(o.payload[..CHUNK_SIZE] + o'.payload[CHUNK_SIZE..])
  {
    FragmentsOf(c, 1, o, 2);
    FragmentsOf(c, 1, o', 2);
    assert Chunks(o.payload) == [o.payload[..CHUNK_SIZE]] + Chunks(o.payload[CHUNK_SIZE..]);
    assert Chunks(o'.payload) == [o'.payload[..CHUNK_SIZE]] + Chunks(o'.payload[CHUNK_SIZE..]);
  }

  /** With a message of more fragments the receiver runs past its table: it panics. */
  lemma StreamPanics(cfg: Config, o: Outgoing, o': Outgoing)
    returns (before: seq<Move>, s: System, after: seq<Move>, s': System)
    requires cfg.wal && RoundTrips(cfg.codec) && InChunks(cfg.codec, o, 2) && InChunks(cfg.codec, o', 3)
    ensures Over(cfg, before, s) && s.a.net == {} && s.b.net == {} && Open(cfg, 1, s.a.out.log, 0).Ready?
    ensures Leads(Rebooted(s), after, s') && s'.b.panicked
  {
    before, s := HalfReceived(cfg, o);
    FragmentsOf(cfg.codec, 1, o', 3);
    after, s' := TakesOne(cfg, before, s, o', 3, 2);
    PeerPanics(s.b, Frags(cfg.codec, 1, o)[0].payload, Frags(cfg.codec, 1, o')[2]);
  }

  lemma PeerPanics(y: Peer, a: Bytes, m: Message)
    requires y.asm == map[1 := Stream([Some(a), None], 1, 0)]
    requires ValidFragment(m.header, m.payload) && m.header.fragIndex == 2 && m.header.fragTotal == 3
    requires m.header.msgID == 1 && m.header.msgType == MSG_DATA
    ensures PeerNext(y, Receive(m, 0, true)).panicked
  {
    ThirdPanics(y.cfg.codec, a, m);
  }
}
