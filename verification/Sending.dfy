/**
 * What Send and a restart achieve by themselves (pkg/broker, Send and New): a message that nothing
 * disturbs is delivered without any retry, and one that the log holds is delivered in the next life.
 */
module Sending {
  import opened Bytes
  import opened Protocol
  import opened Chunker
  import opened Reassembly
  import opened Slots
  import opened Wal
  import opened Broker
  import opened BrokerLog
  import opened Restart
  import opened Delivery
  import opened Retransmission

  // ---------------------------------------------------------------- what Send writes

  /** Without a log, Send writes every fragment of the message as soon as it is in the ring. */
  lemma EnterWrites(x: Peer, id: u64, o: Outgoing, now: int)
    requires !x.cfg.wal && Enabled(x.cfg, x.out, EnterRing(id, o, now)) && Split(x.cfg.codec, id, o.ct, o.pri, o.payload).Some?
    ensures var x' := PeerNext(x, Local(EnterRing(id, o, now)));
            forall m :: m in x'.net <==> m in x.net || m in Frags(x.cfg.codec, id, o)
  {
  }

  /** With a log, it writes nothing before the message has been appended, and then every fragment. */
  lemma AppendWrites(x: Peer, id: u64, appendOk: bool, ackOk: bool)
    requires Enabled(x.cfg, x.out, AppendLog(id, appendOk, ackOk))
    ensures var x' := PeerNext(x, Local(AppendLog(id, appendOk, ackOk)));
            forall m :: m in x'.net <==> m in x.net || (appendOk && m in Frags(x.cfg.codec, id, x.out.sent[id]))
  {
  }

  lemma LoggedEnterIsSilent(x: Peer, id: u64, o: Outgoing, now: int)
    requires x.cfg.wal
    ensures PeerNext(x, Local(EnterRing(id, o, now))).net == x.net
  {
  }

  /** A check writes the fragments of the slots that are due and have retries left, and nothing else. */
  lemma TickWrites(x: Peer, now: int, m: Message)
    ensures m in PeerNext(x, Local(Tick(now))).net <==>
            || m in x.net
            || (exists i :: 0 <= i < |x.out.ring.slots| && Due(x.cfg.timing, x.out.ring.slots[i], now) && m in x.out.ring.slots[i].frags)
  {
    var t, slots := x.cfg.timing, x.out.ring.slots;
    if i :| 0 <= i < |slots| && Due(t, slots[i], now) && m in slots[i].frags {
      assert i in RetryIx(t, slots, now);
    }
    if m in FramesOf(slots, RetryIx(t, slots, now)) {
      var i :| i in RetryIx(t, slots, now) && m in slots[i].frags;
      assert Due(t, slots[i], now);
    }
  }

  predicate Due(t: Timing, s: Slot, now: int)
  {
    s.active && !s.dead && now >= s.sendTime + Backoff(t, s.retries) && s.retries < t.maxRetries
  }

  /** A reconnect writes the fragments of every live slot, and nothing else. */
  lemma ReconnectWrites(x: Peer, now: int, m: Message)
    ensures m in PeerNext(x, Local(Reconnect(now))).net <==>
            || m in x.net
            || (exists i :: 0 <= i < |x.out.ring.slots| && x.out.ring.slots[i].active && !x.out.ring.slots[i].dead && m in x.out.ring.slots[i].frags)
  {
    var slots := x.out.ring.slots;
    if i :| 0 <= i < |slots| && slots[i].active && !slots[i].dead && m in slots[i].frags {
      assert i in LiveIx(slots);
    }
  }

  /** Every other step of the broker writes nothing. */
  lemma OthersAreSilent(x: Peer, step: Broker.Step)
    requires !step.EnterRing? && !step.AppendLog? && !step.Tick? && !step.Reconnect?
    ensures PeerNext(x, Local(step)).net == x.net
  {
  }

  /** A ping is answered with its ID, and a ping of one's own has none; types 3 and 4. */
  lemma PingPong(x: Peer, y: Peer, m: Message, now: int, ackOk: bool)
    ensures m.header.msgType == 3 ==>
              var x' := PeerNext(x, Receive(m, now, ackOk));
              x' == x.(net := x'.net) && x'.net == x.net + {Message(Header(m.header.msgID, 4, 0, 0, 0, 0, 0, 0), [])}
    ensures m.header.msgType > 3 ==> PeerNext(x, Receive(m, now, ackOk)) == x
    ensures CanAct(x, y, Ping) && PeerNext(x, Ping) == x.(net := x.net + {Message(Header(0, 3, 0, 0, 0, 0, 0, 0), [])})
  {
  }

  /** The network loses one frame at a time, any that is on it, and touches nothing else. */
  lemma LosesOne(x: Peer, y: Peer, m: Message, m': Message)
    ensures CanAct(x, y, Lose(m)) <==> m in x.net
    ensures var x' := PeerNext(x, Lose(m)); x' == x.(net := x'.net) && (m' in x'.net <==> m' in x.net && m' != m)
  {
  }

  /** A data frame that completes a message is handed up and acknowledged, type 1; any other is not. */
  lemma DataTaken(x: Peer, m: Message, now: int, ackOk: bool)
    requires m.header.msgType == 0
    ensures var x' := PeerNext(x, Receive(m, now, ackOk));
            var (st, r) := Add(x.cfg.codec, x.asm, m, now);
            && x'.asm == st && x'.out == x.out && x'.world == x.world
            && (r.Complete? ==> x'.inbound == x.inbound + [Inbound(m.header.msgID, m.header.contentType, r.payload)]
                                && x'.net == x.net + {Message(Header(m.header.msgID, 1, 0, 0, 0, 0, 0, 0), [])})
            && (!r.Complete? ==> x'.inbound == x.inbound && x'.net == x.net)
  {
  }

  /** An acknowledgement, type 1, and a refusal, type 2, end the message with that ID. */
  lemma ControlTaken(x: Peer, m: Message, now: int, ackOk: bool)
    requires Ledger(x.cfg, x.out) && (m.header.msgType == 1 || m.header.msgType == 2)
    ensures var x', id := PeerNext(x, Receive(m, now, ackOk)), m.header.msgID;
            && x'.net == x.net && x'.inbound == x.inbound && x'.asm == x.asm
            && if id in ActiveIds(x.out.ring.slots) then
                 && ActiveIds(x'.out.ring.slots) == ActiveIds(x.out.ring.slots) - {id}
                 && x'.out.ended == x.out.ended + [Ended(id, if m.header.msgType == 1 then Acked else Nacked)]
               else x' == x
  {
    EndsOf(x.cfg, x.out, m.header.msgID, ackOk);
  }

  // ---------------------------------------------------------------- what is recorded of it

  /** What a crash takes is recorded only at a restart, and only for messages in the ring that did not come back. */
  lemma CutIsHonest(x: Peer, act: Act, q: Said)
    requires q in PeerNext(x, act).cut && q !in x.cut
    ensures act.Reopen? && q.id in ActiveIds(x.out.ring.slots) && q.id !in PeerNext(x, act).out.sent
  {
  }

  /** A restart begins with an empty fragment table and what the log holds; the network and what was handed up stay. */
  lemma RestartForgets(x: Peer, n: nat, k: nat, now: int)
    ensures var file := if k <= |x.out.log| then x.out.log[..k] else x.out.log;
            var x' := PeerNext(x, Reopen(n, k, now));
            match Open(x.cfg, n, file, now)
            case Blocked => x' == x
            case Ready(out) => x'.out == out && x'.asm == map[] && x'.inbound == x.inbound && x'.net == x.net && x'.told == x.told && x'.cfg == x.cfg
  {
  }

  /** A message is told when it enters the ring, and for good. */
  lemma ToldForGood(x: Peer, act: Act)
    ensures x.told <= PeerNext(x, act).told
    ensures act.Local? ==> forall id :: id in PeerNext(x, act).out.sent ==> Said(id, PeerNext(x, act).out.sent[id]) in PeerNext(x, act).told
  {
    if act.Local? {
      var x' := PeerNext(x, act);
      forall id | id in x'.out.sent ensures Said(id, x'.out.sent[id]) in x'.told {
        assert Said(id, x'.out.sent[id]) in SaidIn(x'.out.sent);
      }
    }
  }

  /** The past is of messages that had ended. */
  lemma PastIsHonest(x: Peer, act: Act, f: Fate)
    requires f in PeerNext(x, act).past && f !in x.past
    ensures act.Reopen? && Ended(f.said.id, f.cause) in x.out.ended
  {
  }

  /** What was handed up stays so. */
  lemma InboundStays(x: Peer, act: Act)
    ensures x.inbound <= PeerNext(x, act).inbound
  {
  }

  // ---------------------------------------------------------------- a Send that nothing disturbs

  /** No reconnect and no retry timer. */
  ghost predicate NoRetry(moves: seq<Move>)
  {
    forall i :: 0 <= i < |moves| && moves[i].act.Local? ==> !moves[i].act.step.Tick? && !moves[i].act.step.Reconnect?
  }

  lemma NoRetryAppend(a: seq<Move>, b: seq<Move>)
    requires NoRetry(a) && NoRetry(b)
    ensures NoRetry(a + b)
  {
  }

  /** From the fragments on the wire to the acknowledgement taken. */
  lemma DeliverAndSettle(c: Codec, s: System, id: u64, now: int) returns (more: seq<Move>, s': System)
    requires RoundTrips(c) && Sound(c, s) && OnWire(c, s, id) && id in ActiveIds(s.a.out.ring.slots)
    ensures Leads(s, more, s') && NowDelivered(s, s', id) && NoRetry(more)
  {
    var rest := DeliverRest(c, s, id);
    var s1 := Play(s, rest);
    more, s' := SettleLast(c, s, rest, s1, id, now);
  }

  lemma SettleLast(c: Codec, s: System, rest: seq<Move>, s1: System, id: u64, now: int) returns (more: seq<Move>, s': System)
    requires RoundTrips(c) && Leads(s, rest, s1) && NoRetry(rest) && s1.a == s.a && Sound(c, s1)
    requires Control(MSG_ACK, id) in s1.b.net && id in ActiveIds(s1.a.out.ring.slots)
    ensures Leads(s, more, s') && NowDelivered(s, s', id) && NoRetry(more)
  {
    var mv := Move(true, Receive(Control(MSG_ACK, id), now, true));
    TakeAck(c, s1, id, now);
    s' := SysNext(s1, mv);
    PlaySnoc(s, rest, mv);
    more := rest + [mv];
    NoRetryAppend(rest, [mv]);
  }

  /** One step of the first broker, as a move. */
  lemma StepLeads(s: System, moves: seq<Move>, x: Peer, y: Peer, step: Broker.Step, x': Peer) returns (more: seq<Move>)
    requires Leads(s, moves, System(x, y)) && NoRetry(moves)
    requires CanAct(x, y, Local(step)) && !step.Tick? && !step.Reconnect? && x' == PeerNext(x, Local(step))
    ensures Leads(s, more, System(x', y)) && NoRetry(more)
  {
    LeadsByA(s, moves, x, y, Local(step), x');
    more := moves + [Move(true, Local(step))];
    NoRetryAppend(moves, [Move(true, Local(step))]);
  }

  /** The broker can take a message: an ID and a slot are left, and Split accepts it. */
  ghost predicate Accepts(x: Peer, o: Outgoing)
  {
    && x.out.counter + 1 < UINT64 && x.out.ring.free != []
    && Split(x.cfg.codec, x.out.counter + 1, o.ct, o.pri, o.payload).Some?
  }

  /** The message is in the ring of `s'` and nothing of `s` has ended. */
  ghost predicate InRing(s: State, s': State, id: u64, o: Outgoing)
  {
    id in ActiveIds(s'.ring.slots) && id in s'.sent && s'.sent[id] == o && s'.ended == s.ended
  }

  lemma EntersFor(cfg: Config, s: State, id: u64, o: Outgoing, now: int) returns (p: Broker.Step, q: Broker.Step, s1: State, s2: State)
    requires Ledger(cfg, s) && id == s.counter + 1 && s.ring.free != []
    requires Split(cfg.codec, id, o.ct, o.pri, o.payload).Some?
    ensures p == TakeId && q == EnterRing(id, o, now) && s1 == Next(cfg, s, p) && s2 == Next(cfg, s1, q)
    ensures Enabled(cfg, s, p) && Enabled(cfg, s1, q) && InRing(s, s2, id, o) && (cfg.wal ==> id in s2.logging)
  {
    p, q := TakeId, EnterRing(id, o, now);
    s1 := Next(cfg, s, p);
    s2 := Next(cfg, s1, q);
    assert id !in s.sent.Keys;
    EnterCases(cfg, s1, q);
    EnqueueOk(s.ring, id, Frags(cfg.codec, id, o), now);
  }

  lemma AppendsFor(cfg: Config, s: State, s2: State, id: u64, o: Outgoing) returns (r: Broker.Step, s3: State)
    requires id in s2.logging && InRing(s, s2, id, o)
    ensures r == AppendLog(id, true, true) && s3 == Next(cfg, s2, r) && Enabled(cfg, s2, r) && InRing(s, s3, id, o)
  {
    r := AppendLog(id, true, true);
    s3 := Next(cfg, s2, r);
  }

  /** The message is in the ring, and all its fragments are on the wire. */
  ghost predicate Written(c: Codec, s: State, x: Peer, id: u64, o: Outgoing)
  {
    InRing(s, x.out, id, o) && id in x.world && x.world[id] == o && forall m :: m in Frags(c, id, o) ==> m in x.net
  }

  lemma SendWrites(c: Codec, s: System, id: u64, o: Outgoing, now: int) returns (moves: seq<Move>, s': System)
    requires s.a.cfg.codec == c && Ledger(s.a.cfg, s.a.out) && Accepts(s.a, o)
    requires id == s.a.out.counter + 1
    ensures Leads(s, moves, s') && s'.b == s.b && NoRetry(moves) && Written(c, s.a.out, s'.a, id, o)
  {
    var p, q, x1, x2 := EnterActs(c, s.a, s.b, id, o, now);
    assert Leads(s, [], System(s.a, s.b));
    moves := StepLeads(s, [], s.a, s.b, p, x1);
    moves := StepLeads(s, moves, x1, s.b, q, x2);
    if s.a.cfg.wal {
      var r, x3 := AppendAct(c, s.a.out, x2, s.b, id, o);
      moves := StepLeads(s, moves, x2, s.b, r, x3);
      s' := System(x3, s.b);
    } else {
      s' := System(x2, s.b);
    }
  }

  /** The first two steps of a Send, as acts of the peer. */
  lemma EnterActs(c: Codec, x: Peer, y: Peer, id: u64, o: Outgoing, now: int) returns (p: Broker.Step, q: Broker.Step, x1: Peer, x2: Peer)
    requires x.cfg.codec == c && Ledger(x.cfg, x.out) && Accepts(x, o) && id == x.out.counter + 1
    ensures x1 == PeerNext(x, Local(p)) && x2 == PeerNext(x1, Local(q)) && CanAct(x, y, Local(p)) && CanAct(x1, y, Local(q))
    ensures !p.Tick? && !p.Reconnect? && !q.Tick? && !q.Reconnect?
    ensures InRing(x.out, x2.out, id, o) && x2.cfg == x.cfg
    ensures if x.cfg.wal then id in x2.out.logging else Written(c, x.out, x2, id, o)
  {
    var o1, o2;
    p, q, o1, o2 := EntersFor(x.cfg, x.out, id, o, now);
    x1 := PeerNext(x, Local(p));
    PeerStep(x, p);
    x2 := PeerNext(x1, Local(q));
    PeerStep(x1, q);
    assert x2.out == o2;
    if !x.cfg.wal {
      EnterWrites(x1, id, o, now);
    }
  }

  lemma AppendAct(c: Codec, s: State, x2: Peer, y: Peer, id: u64, o: Outgoing) returns (r: Broker.Step, x3: Peer)
    requires x2.cfg.codec == c && id in x2.out.logging && InRing(s, x2.out, id, o)
    ensures x3 == PeerNext(x2, Local(r)) && CanAct(x2, y, Local(r)) && !r.Tick? && !r.Reconnect? && Written(c, s, x3, id, o)
  {
    var o3;
    r, o3 := AppendsFor(x2.cfg, s, x2.out, id, o);
    x3 := PeerNext(x2, Local(r));
    PeerStep(x2, r);
    AppendWrites(x2, id, true, true);
  }

  lemma FragsOfAccepted(c: Codec, id: u64, o: Outgoing)
    requires Split(c, id, o.ct, o.pri, o.payload).Some?
    ensures Frags(c, id, o) != []
  {
    ChunkCount(Packed(c, o.payload));
  }

  /** Between `s` and `s'` the message was sent with the next ID, handed up as it was sent, and acknowledged. */
  ghost predicate SentThrough(s: System, s': System, o: Outgoing)
  {
    var id := s.a.out.counter + 1;
    && id < UINT64 && id in s'.a.world && s'.a.world[id] == o && Inbound(id, o.ct, o.payload) in s'.b.inbound
    && id !in ActiveIds(s'.a.out.ring.slots) && s'.a.out.ended == s.a.out.ended + [Ended(id, Acked)]
  }

  lemma SendFrom(c: Codec, s: System, o: Outgoing, now: int) returns (more: seq<Move>, s': System)
    requires RoundTrips(c) && Sound(c, s) && Accepts(s.a, o) && (|Frags(c, s.a.out.counter + 1, o)| == 1 || |s.b.asm| < 1024)
    ensures Leads(s, more, s') && NoRetry(more) && SentThrough(s, s', o)
  {
    var id := s.a.out.counter + 1;
    FragsOfAccepted(c, id, o);
    var first, s1 := SendWrites(c, s, id, o, now);
    SoundAlways(c, s, first);
    assert OnWire(c, s1, id);
    var rest;
    rest, s' := DeliverAndSettle(c, s1, id, now);
    more := first + rest;
    LeadsOn(s, first, s1, rest, s');
    NoRetryAppend(first, rest);
  }

  /**
   * A Send is enough.  In every state of every run in which the broker can take a message, and the
   * receiver a fragment of it, the message can be handed up and acknowledged from what Send itself
   * writes, with or without a log, and without a reconnect or a retry.
   */
  lemma SendDelivers(ca: Config, na: nat, cb: Config, nb: nat, moves: seq<Move>, o: Outgoing, now: int)
    returns (s: System, more: seq<Move>, s': System)
    requires ca.codec == cb.codec && RoundTrips(ca.codec) && Playable(Fresh(ca, na, cb, nb), moves)
    ensures s == Play(Fresh(ca, na, cb, nb), moves)
    ensures Accepts(s.a, o) && (|Frags(ca.codec, s.a.out.counter + 1, o)| == 1 || |s.b.asm| < 1024) ==>
              Leads(s, more, s') && NoRetry(more) && SentThrough(s, s', o)
  {
    s := Play(Fresh(ca, na, cb, nb), moves);
    FreshSound(ca, na, cb, nb);
    SoundAlways(ca.codec, Fresh(ca, na, cb, nb), moves);
    more, s' := [], s;
    if Accepts(s.a, o) && (|Frags(ca.codec, s.a.out.counter + 1, o)| == 1 || |s.b.asm| < 1024) {
      more, s' := SendFrom(ca.codec, s, o, now);
    }
  }

  // ---------------------------------------------------------------- across a restart

  lemma WholeOpens(cfg: Config, w: World, log: Bytes, live: set<u64>, n: nat, now: int)
    requires Faithful(cfg, w, log) && Unacked(log).Keys == live && |live| <= n && LargestLives(w, live)
    requires forall id :: id in w ==> id > 0
    ensures var b := Open(cfg, n, log, now);
            b.Ready? && ActiveIds(b.state.ring.slots) == live && forall id :: id in w ==> id <= b.state.counter
  {
    FreshIff(cfg, w, log, n, now);
    OpenRestores(cfg, w, log, n, now);
  }

  lemma TidyIsFaithful(c: Codec, x: Peer)
    requires SenderOk(c, x) && x.cfg.wal && x.tidy
    ensures Faithful(x.cfg, x.world, x.out.log) && Unacked(x.out.log).Keys == Live(x.out) && TornTail(x.out.log) == []
    ensures forall id :: id in Fold(Records(x.out.log)).order ==> id in x.world
  {
    FoldAsSent(Records(x.out.log), x.world);
  }

  /** A restart over the whole of a tidy log, with the largest ID live, is possible, complete and tidy. */
  lemma WholeReopens(c: Codec, x: Peer, y: Peer, n: nat, now: int)
    requires Link(c, x, y) && x.cfg.wal && x.tidy && |Live(x.out)| <= n && LargestLives(x.world, Live(x.out))
    ensures var x' := PeerNext(x, Reopen(n, |x.out.log|, now));
            && CanAct(x, y, Reopen(n, |x.out.log|, now))
            && x'.tidy && ActiveIds(x'.out.ring.slots) == Live(x.out) && x'.world == x.world
  {
    var log := x.out.log;
    TidyIsFaithful(c, x);
    WholeOpens(x.cfg, x.world, log, Live(x.out), n, now);
    SurvivingWhole(log);
    var out := Open(x.cfg, n, log, now).state;
    FreshIsSafe(c, x, y, out.counter);
    WholeReborn(x, log, out);
  }

  lemma SurvivingWhole(log: Bytes)
    ensures Surviving(log, |log|) == log
  {
  }

  lemma WholeReborn(x: Peer, log: Bytes, out: State)
    requires x.tidy && TornTail(log) == [] && (forall id :: id in Fold(Records(log)).order ==> id in x.world)
    requires forall id :: id in x.world ==> id <= out.counter
    ensures Reborn(x, log, out).tidy && Reborn(x, log, out).world == x.world && Reborn(x, log, out).out == out
  {
    assert UpTo(x.world, out.counter) == x.world;
  }

  /**
   * At least once, across a restart.  Take a sound state whose first broker has a tidy log, and a
   * message that is in it.  Lose everything in flight and restart that broker over its log, on a ring
   * that is large enough, with the largest ID still live: the message can be handed up and
   * acknowledged in the new life.
   */
  lemma DeliveredAfterRestart(c: Codec, s: System, n: nat, id: u64, now: int) returns (s1: System, more: seq<Move>)
    requires RoundTrips(c) && Sound(c, s) && s.a.cfg.wal && s.a.tidy && id in Live(s.a.out) && |Live(s.a.out)| <= n
    requires LargestLives(s.a.world, Live(s.a.out))
    requires id in s.a.world && Room(s.b, c, id, s.a.world[id])
    ensures CanMove(AllLost(s), Move(true, Reopen(n, |s.a.out.log|, now)))
    ensures s1 == SysNext(AllLost(s), Move(true, Reopen(n, |s.a.out.log|, now)))
    ensures s1.a.tidy && ActiveIds(s1.a.out.ring.slots) == Live(s.a.out)
    ensures Playable(s1, more) && NowDelivered(s1, Play(s1, more), id) && s1.a.world == s.a.world
  {
    var q := AllLost(s);
    AllLostSound(c, s);
    WholeReopens(c, q.a, q.b, n, now);
    ReopenKeeps(c, q.a, q.b, n, |q.a.out.log|, now);
    s1 := SysNext(q, Move(true, Reopen(n, |s.a.out.log|, now)));
    more := FinishDelivery(c, s1, id, now);
  }
}
