/**
 * What retransmission can always still do: a message that is in the ring can be delivered and
 * acknowledged, even if everything in flight is lost (pkg/broker, replayUnacked and checkTimeouts).
 */
module Retransmission {
  import opened Bytes
  import opened Protocol
  import opened Chunker
  import opened Reassembly
  import opened Slots
  import opened Wal
  import opened Broker
  import opened BrokerLog
  import opened Restart
  import opened Delivery
  import RetryRing

  /** A retransmission is whole: every fragment of the message is written again. */
  lemma ResendsWhole(cfg: Config, s: State, i: nat, now: int, m: Message)
    requires Ledger(cfg, s) && i < |s.ring.slots| && s.ring.slots[i].active
    requires m in Frags(cfg.codec, s.ring.slots[i].msgID, s.sent[s.ring.slots[i].msgID])
    ensures m in Emits(cfg, s, Reconnect(now))
    ensures Retries(cfg.timing, s.ring.slots[i], now) ==> m in Emits(cfg, s, Tick(now))
  {
    assert m in s.ring.slots[i].frags;
    assert i in LiveIx(s.ring.slots);
    if Retries(cfg.timing, s.ring.slots[i], now) {
      assert i in RetryIx(cfg.timing, s.ring.slots, now);
    }
  }

  /** The step system writes exactly what the ring's own check hands to the connection. */
  lemma {:induction false} EmitsWhatTheRingResends(t: Timing, slots: seq<Slot>, now: int, n: nat, m: Message)
    requires n <= |slots|
    ensures (exists k :: 0 <= k < |RetryRing.Tallied(t, slots, now, n).resent| && m in RetryRing.Tallied(t, slots, now, n).resent[k])
       <==> (exists i :: 0 <= i < n && Retries(t, slots[i], now) && m in slots[i].frags)
  {
    if n > 0 {
      EmitsWhatTheRingResends(t, slots, now, n - 1, m);
      var y, y' := RetryRing.Tallied(t, slots, now, n - 1), RetryRing.Tallied(t, slots, now, n);
      if k :| 0 <= k < |y.resent| && m in y.resent[k] {
        assert y'.resent[k] == y.resent[k];
      }
      if Retries(t, slots[n - 1], now) && m in slots[n - 1].frags {
        assert y'.resent[|y.resent|] == slots[n - 1].frags;
      }
      if k :| 0 <= k < |y'.resent| && m in y'.resent[k] {
        if k < |y.resent| {
          assert y.resent[k] == y'.resent[k];
        } else {
          assert y'.resent[k] == slots[n - 1].frags;
        }
      }
    }
  }

  // ---------------------------------------------------------------- runs, one move at a time

  lemma {:induction false} PlayCons(s: System, mv: Move, rest: seq<Move>)
    ensures Play(s, [mv] + rest) == Play(SysNext(s, mv), rest)
    ensures CanMove(s, mv) && Playable(SysNext(s, mv), rest) ==> Playable(s, [mv] + rest)
  {
    var all := [mv] + rest;
    if rest == [] {
      assert all[..0] == [] && all[0] == mv;
      assert Play(s, all[..0]) == s;
    } else {
      PlayCons(s, mv, rest[..|rest| - 1]);
      assert all[..|all| - 1] == [mv] + rest[..|rest| - 1];
      assert all[|all| - 1] == rest[|rest| - 1];
    }
  }

  lemma {:induction false} PlayAppend(s: System, a: seq<Move>, b: seq<Move>)
    ensures Play(s, a + b) == Play(Play(s, a), b)
    ensures Playable(s, a) && Playable(Play(s, a), b) ==> Playable(s, a + b)
  {
    if b == [] {
      assert a + b == a;
    } else {
      PlayAppend(s, a, b[..|b| - 1]);
      assert (a + b)[..|a + b| - 1] == a + b[..|b| - 1];
      assert (a + b)[|a + b| - 1] == b[|b| - 1];
    }
  }

  /** The moves are possible from `s` and lead to `s'`. */
  ghost predicate Leads(s: System, moves: seq<Move>, s': System) { Playable(s, moves) && Play(s, moves) == s' }

  lemma LeadsOn(s: System, a: seq<Move>, s1: System, b: seq<Move>, s2: System)
    requires Leads(s, a, s1) && Leads(s1, b, s2)
    ensures Leads(s, a + b, s2)
  {
    PlayAppend(s, a, b);
  }

  lemma PlaySnoc(s: System, moves: seq<Move>, mv: Move)
    ensures Play(s, moves + [mv]) == SysNext(Play(s, moves), mv)
    ensures Playable(s, moves + [mv]) <==> Playable(s, moves) && CanMove(Play(s, moves), mv)
  {
    assert (moves + [mv])[..|moves|] == moves;
  }

  lemma LeadsByA(s: System, moves: seq<Move>, x: Peer, y: Peer, act: Act, x': Peer)
    requires Leads(s, moves, System(x, y)) && CanAct(x, y, act) && x' == PeerNext(x, act)
    ensures Leads(s, moves + [Move(true, act)], System(x', y))
  {
    PlaySnoc(s, moves, Move(true, act));
  }

  /** The receiver can take a fragment of the message: it has a stream for it, needs none, or has room. */
  predicate Room(y: Peer, c: Codec, id: u64, o: Outgoing)
  {
    id in y.asm || |Frags(c, id, o)| == 1 || |y.asm| < MAX_STREAMS
  }

  /** Deliver one fragment that is not held yet. */
  lemma DeliverOne(c: Codec, s: System, id: u64, i: nat)
    requires RoundTrips(c) && Sound(c, s) && id in s.a.world
    requires i in All(c, id, s.a.world[id]) - Held(s.b.asm, id) && Frags(c, id, s.a.world[id])[i] in s.a.net
    requires Room(s.b, c, id, s.a.world[id])
    ensures var o := s.a.world[id];
            var mv := Move(false, Receive(Frags(c, id, o)[i], 0, true));
            var s' := SysNext(s, mv);
            && CanMove(s, mv) && s'.a == s.a && Sound(c, s')
            && if Held(s.b.asm, id) + {i} == All(c, id, o) then Control(MSG_ACK, id) in s'.b.net
               else Held(s'.b.asm, id) == Held(s.b.asm, id) + {i} && Room(s'.b, c, id, o)
  {
    var o := s.a.world[id];
    var m := Frags(c, id, o)[i];
    FragFacts(c, id, o, m);
    assert m.header.fragIndex == i by {
      IndexOfFragment(c, id, o, i);
    }
    AddRefines(c, s.a.world, s.b.asm, m, 0);
    ActKeeps(c, s.b, s.a, Receive(m, 0, true));
  }

  lemma IndexOfFragment(c: Codec, id: u64, o: Outgoing, i: nat)
    requires i < |Frags(c, id, o)|
    ensures Frags(c, id, o)[i].header.fragIndex == i
  {
  }

  /** `more` leaves the sender as it is and ends with the acknowledgement on the wire. */
  ghost predicate Acknowledges(c: Codec, s: System, more: seq<Move>, id: u64)
  {
    && Playable(s, more) && Play(s, more).a == s.a && Sound(c, Play(s, more))
    && (forall i :: 0 <= i < |more| ==> more[i].act.Receive?)
    && Control(MSG_ACK, id) in Play(s, more).b.net
  }

  lemma AcknowledgesCons(c: Codec, s: System, mv: Move, rest: seq<Move>, id: u64)
    requires CanMove(s, mv) && mv.act.Receive? && SysNext(s, mv).a == s.a && Acknowledges(c, SysNext(s, mv), rest, id)
    ensures Acknowledges(c, s, [mv] + rest, id)
  {
    PlayCons(s, mv, rest);
  }

  /** The sender's fragments of the message are all on the wire and the receiver can take them. */
  ghost predicate OnWire(c: Codec, s: System, id: u64)
  {
    && id in s.a.world && Room(s.b, c, id, s.a.world[id])
    && Frags(c, id, s.a.world[id]) != [] && forall m :: m in Frags(c, id, s.a.world[id]) ==> m in s.a.net
  }

  function Missing(c: Codec, s: System, id: u64): set<nat>
    requires id in s.a.world
  {
    All(c, id, s.a.world[id]) - Held(s.b.asm, id)
  }

  lemma SomeMissing(c: Codec, s: System, id: u64)
    requires Sound(c, s) && OnWire(c, s, id)
    ensures Missing(c, s, id) != {}
  {
    HeldSome(c, s.a.world, s.b.asm, id);
  }

  lemma OneLess(c: Codec, s: System, s': System, id: u64, i: nat)
    requires OnWire(c, s, id) && s'.a == s.a && i in Missing(c, s, id)
    requires Held(s'.b.asm, id) == Held(s.b.asm, id) + {i} && Room(s'.b, c, id, s.a.world[id])
    ensures OnWire(c, s', id) && |Missing(c, s', id)| < |Missing(c, s, id)|
  {
    OneFewer(All(c, id, s.a.world[id]), Held(s.b.asm, id), i);
  }

  lemma OneFewer(all: set<nat>, held: set<nat>, i: nat)
    requires i in all - held
    ensures |all - (held + {i})| < |all - held|
  {
    assert all - (held + {i}) == (all - held) - {i};
  }

  /** One more fragment: the acknowledgement goes out, or there is one fragment less to deliver. */
  lemma DeliverNext(c: Codec, s: System, id: u64) returns (mv: Move)
    requires RoundTrips(c) && Sound(c, s) && OnWire(c, s, id)
    ensures CanMove(s, mv) && mv.act.Receive? && SysNext(s, mv).a == s.a && Sound(c, SysNext(s, mv))
    ensures Control(MSG_ACK, id) in SysNext(s, mv).b.net ||
            (OnWire(c, SysNext(s, mv), id) && |Missing(c, SysNext(s, mv), id)| < |Missing(c, s, id)|)
  {
    SomeMissing(c, s, id);
    var i :| i in Missing(c, s, id);
    mv := Move(false, Receive(Frags(c, id, s.a.world[id])[i], 0, true));
    DeliverOne(c, s, id, i);
    if Held(s.b.asm, id) + {i} != All(c, id, s.a.world[id]) {
      OneLess(c, s, SysNext(s, mv), id, i);
    }
  }

  /** Deliver whatever is missing, until the receiver hands the message up and acknowledges it. */
  lemma {:induction false} DeliverRest(c: Codec, s: System, id: u64) returns (more: seq<Move>)
    requires RoundTrips(c) && Sound(c, s) && OnWire(c, s, id)
    ensures Acknowledges(c, s, more, id)
    decreases |Missing(c, s, id)|
  {
    var mv := DeliverNext(c, s, id);
    var rest := [];
    if Control(MSG_ACK, id) !in SysNext(s, mv).b.net {
      rest := DeliverRest(c, SysNext(s, mv), id);
    }
    AcknowledgesCons(c, s, mv, rest, id);
    more := [mv] + rest;
  }

  lemma HeldSome(c: Codec, w: World, st: Streams, id: u64)
    requires StreamsOk(c, w, st) && id in w && Frags(c, id, w[id]) != []
    ensures Held(st, id) < All(c, id, w[id])
  {
    assert 0 in All(c, id, w[id]);
    if id in st {
      FullIffAll(st[id]);
    }
  }

  /** Everything in flight is lost, both ways. */
  function AllLost(s: System): System { System(s.a.(net := {}), s.b.(net := {})) }

  lemma AllLostSound(c: Codec, s: System)
    requires Sound(c, s)
    ensures Sound(c, AllLost(s))
  {
    LostLink(c, s.a, s.b);
    LostLink(c, s.b, s.a);
  }

  lemma LostLink(c: Codec, x: Peer, y: Peer)
    requires Link(c, x, y)
    ensures Link(c, x.(net := {}), y.(net := {}))
  {
    SenderFrame(c, x, x.(net := {}));
  }

  /**
   * Every message in the ring can still be delivered.  Take any state of any run, also across
   * restarts, and lose every frame ever written, in both directions.  As long as the receiver can
   * take a fragment of it (it has a stream for it, needs none, or has room for one more), there is a
   * continuation in which the message is handed up with its payload and the sender frees its slot on
   * the acknowledgement.  Only what is written from now on can be delivered in it, so the message
   * gets there by retransmission.
   */
  lemma CanStillBeDelivered(ca: Config, na: nat, cb: Config, nb: nat, moves: seq<Move>, id: u64, now: int) returns (more: seq<Move>)
    requires ca.codec == cb.codec && RoundTrips(ca.codec) && Playable(Fresh(ca, na, cb, nb), moves)
    ensures var s := Play(Fresh(ca, na, cb, nb), moves);
            id in ActiveIds(s.a.out.ring.slots) && id in s.a.world && Room(s.b, ca.codec, id, s.a.world[id]) ==>
              Playable(AllLost(s), more) && NowDelivered(AllLost(s), Play(AllLost(s), more), id)
  {
    var s0 := Fresh(ca, na, cb, nb);
    var s := Play(s0, moves);
    FreshSound(ca, na, cb, nb);
    SoundAlways(ca.codec, s0, moves);
    AllLostSound(ca.codec, s);
    more := [];
    if id in ActiveIds(s.a.out.ring.slots) && id in s.a.world && Room(s.b, ca.codec, id, s.a.world[id]) {
      more := FinishDelivery(ca.codec, AllLost(s), id, now);
    }
  }

  /** Between `s` and `s'` the message was handed up and its slot freed by the acknowledgement. */
  ghost predicate NowDelivered(s: System, s': System, id: u64)
  {
    && id in s.a.world && id in s'.a.world && s'.a.world[id] == s.a.world[id]
    && Delivered(s'.b.inbound, s'.a.world, id)
    && id !in ActiveIds(s'.a.out.ring.slots)
    && s'.a.out.ended == s.a.out.ended + [Ended(id, Acked)]
  }

  lemma FinishDelivery(c: Codec, s: System, id: u64, now: int) returns (more: seq<Move>)
    requires RoundTrips(c) && Sound(c, s) && id in ActiveIds(s.a.out.ring.slots)
    requires id in s.a.world && Room(s.b, c, id, s.a.world[id])
    ensures Playable(s, more) && NowDelivered(s, Play(s, more), id)
  {
    var mv1 := Move(true, Local(Reconnect(now)));
    var s1 := SysNext(s, mv1);
    Renewed(c, s, id, now);
    var rest := DeliverRest(c, s1, id);
    var s2 := Play(s1, rest);
    var mv3 := Move(true, Receive(Control(MSG_ACK, id), now, true));
    TakeAck(c, s2, id, now);
    more := [mv1] + (rest + [mv3]);
    PlayAppend(s1, rest, [mv3]);
    PlayCons(s2, mv3, []);
    assert [mv3] + [] == [mv3];
    PlayCons(s, mv1, rest + [mv3]);
  }

  /** A reconnect puts every fragment of the message on the wire and changes nothing else that matters. */
  ghost predicate Resent(c: Codec, x: Peer, x': Peer, id: u64)
  {
    && x'.world == x.world && x'.out.ended == x.out.ended && id in ActiveIds(x'.out.ring.slots)
    && id in x.world && Frags(c, id, x.world[id]) != []
    && forall m :: m in Frags(c, id, x.world[id]) ==> m in x'.net
  }

  lemma ResendsAll(cfg: Config, s: State, id: u64, now: int)
    requires Ledger(cfg, s) && id in ActiveIds(s.ring.slots)
    ensures id in s.sent && Frags(cfg.codec, id, s.sent[id]) != []
    ensures forall m :: m in Frags(cfg.codec, id, s.sent[id]) ==> m in Emits(cfg, s, Reconnect(now))
  {
    var i :| 0 <= i < |s.ring.slots| && s.ring.slots[i].active && s.ring.slots[i].msgID == id;
    forall m | m in Frags(cfg.codec, id, s.sent[id]) ensures m in Emits(cfg, s, Reconnect(now)) {
      ResendsWhole(cfg, s, i, now, m);
    }
  }

  lemma PeerResends(c: Codec, x: Peer, id: u64, now: int)
    requires x.cfg.codec == c && Ledger(x.cfg, x.out) && WorldOk(x) && id in ActiveIds(x.out.ring.slots)
    ensures Resent(c, x, PeerNext(x, Local(Reconnect(now))), id)
  {
    var step := Reconnect(now);
    ResendsAll(x.cfg, x.out, id, now);
    StillActive(x.cfg, x.out, id, now);
    UnionOfPart(x.out.sent, x.world);
    PeerStep(x, step);
  }

  lemma StillActive(cfg: Config, s: State, id: u64, now: int)
    requires RingOk(s.ring) && id in ActiveIds(s.ring.slots)
    ensures var s' := Next(cfg, s, Reconnect(now)); s'.sent == s.sent && s'.ended == s.ended && id in ActiveIds(s'.ring.slots)
  {
    ReplayOk(s.ring, now);
  }

  /** What a broker step does to a peer, whatever the step. */
  lemma PeerStep(x: Peer, step: Broker.Step)
    ensures var x' := PeerNext(x, Local(step));
            && x'.cfg == x.cfg && x'.out == Next(x.cfg, x.out, step) && x'.world == x.world + x'.out.sent
            && x'.tidy == (x.tidy && Tidy(x.out, step)) && x'.asm == x.asm && x'.inbound == x.inbound && x'.panicked == x.panicked
            && x'.net == x.net + Emits(x.cfg, x.out, step)
  {
  }

  lemma PeerRenewed(c: Codec, x: Peer, y: Peer, id: u64, now: int)
    requires RoundTrips(c) && Link(c, x, y) && Link(c, y, x) && id in ActiveIds(x.out.ring.slots)
    ensures var x' := PeerNext(x, Local(Reconnect(now)));
            CanAct(x, y, Local(Reconnect(now))) && Link(c, x', y) && Link(c, y, x') && Resent(c, x, x', id)
  {
    ActKeeps(c, x, y, Local(Reconnect(now)));
    PeerResends(c, x, id, now);
  }

  lemma UnionOfPart(part: World, w: World)
    requires Grows(part, w)
    ensures w + part == w
  {
  }

  lemma Renewed(c: Codec, s: System, id: u64, now: int)
    requires RoundTrips(c) && Sound(c, s) && id in ActiveIds(s.a.out.ring.slots)
    ensures var mv := Move(true, Local(Reconnect(now)));
            var s' := SysNext(s, mv);
            CanMove(s, mv) && Sound(c, s') && s'.b == s.b && Resent(c, s.a, s'.a, id)
  {
    PeerRenewed(c, s.a, s.b, id, now);
  }

  lemma PeerTakesAck(x: Peer, id: u64, now: int)
    requires Ledger(x.cfg, x.out) && id in ActiveIds(x.out.ring.slots)
    ensures var x' := PeerNext(x, Receive(Control(MSG_ACK, id), now, true));
            x'.world == x.world && id !in ActiveIds(x'.out.ring.slots) && x'.out.ended == x.out.ended + [Ended(id, Acked)]
  {
    ReleaseOk(x.out.ring, id);
  }

  lemma TakeAck(c: Codec, s: System, id: u64, now: int)
    requires RoundTrips(c) && Sound(c, s) && Control(MSG_ACK, id) in s.b.net && id in ActiveIds(s.a.out.ring.slots)
    ensures var mv := Move(true, Receive(Control(MSG_ACK, id), now, true));
            var s' := SysNext(s, mv);
            && CanMove(s, mv) && s'.b == s.b && s'.a.world == s.a.world
            && Delivered(s.b.inbound, s.a.world, id)
            && id !in ActiveIds(s'.a.out.ring.slots) && s'.a.out.ended == s.a.out.ended + [Ended(id, Acked)]
  {
    PeerTakesAck(s.a, id, now);
  }
}
