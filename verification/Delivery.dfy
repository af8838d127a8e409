/**
 * Two brokers and the network between them.  The network may drop, duplicate, delay and reorder:
 * any frame ever written may be delivered at any time, any number of times, or never.  A broker may
 * die at any point and be restarted over its log.
 */
module Delivery {
  import opened Bytes
  import opened Protocol
  import opened Chunker
  import opened Reassembly
  import opened Slots
  import opened Wal
  import opened Broker
  import opened BrokerLog
  import opened Restart

  /** A message under the ID it was sent with. */
  datatype Said = Said(id: u64, msg: Outgoing)

  datatype Fate = Fate(said: Said, cause: Cause)

  datatype Peer = Peer(
    cfg: Config,
    out: State,
    asm: Streams,
    /** What was handed to OnInbound. */
    inbound: seq<Inbound>,
    /** Every frame this peer has written. */
    net: set<Message>,
    /** Reassembly ran past the end of a fragment table. */
    panicked: bool,
    // history over all lives of the broker
    /** The messages by ID, of this life and of those before whose IDs are not used again. */
    world: World,
    /** Every message that ever entered a ring. */
    told: set<Said>,
    /** How messages of earlier lives ended. */
    past: set<Fate>,
    /** Messages that a crash took: they were in the ring and the log did not bring them back. */
    cut: set<Said>,
    /** Nothing has happened that lets the log disagree with the ring. */
    tidy: bool)

  datatype System = System(a: Peer, b: Peer)

  datatype Act =
    | Local(step: Broker.Step)
    | Ping
    | Receive(msg: Message, now: int, ackOk: bool)
    | Lose(msg: Message)
    | Reopen(n: nat, k: nat, now: int)

  function Control(kind: byte, id: u64): Message
  {
    Message(Header(id, kind, 0, 0, 0, 0, 0, 0), [])
  }

  function FramesOf(slots: seq<Slot>, ix: set<int>): set<Message>
    requires forall i :: i in ix ==> 0 <= i < |slots|
  {
    set i, m | i in ix && m in slots[i].frags :: m
  }

  function RetryIx(t: Timing, slots: seq<Slot>, now: int): set<int>
  {
    set i | 0 <= i < |slots| && Retries(t, slots[i], now)
  }

  function LiveIx(slots: seq<Slot>): set<int>
  {
    set i | 0 <= i < |slots| && slots[i].active && !slots[i].dead
  }

  function FragSet(c: Codec, id: u64, o: Outgoing): set<Message>
  {
    set m | m in Frags(c, id, o)
  }

  /** The frames a step may put on the wire. */
  function Emits(cfg: Config, s: State, step: Broker.Step): set<Message>
  {
    match step
    case EnterRing(id, o, _) =>
      if cfg.wal then {} else FragSet(cfg.codec, id, o)
    case AppendLog(id, appendOk, _) =>
      if appendOk && id in s.sent then FragSet(cfg.codec, id, s.sent[id]) else {}
    case Tick(now) =>
      FramesOf(s.ring.slots, RetryIx(cfg.timing, s.ring.slots, now))
    case Reconnect(_) =>
      FramesOf(s.ring.slots, LiveIx(s.ring.slots))
    case _ => {}
  }

  /** dispatch. */
  function Dispatch(p: Peer, m: Message, now: int, ackOk: bool): Peer
  {
    var id := m.header.msgID;
    if m.header.msgType == MSG_ACK then p.(out := Next(p.cfg, p.out, GetAck(id, ackOk)))
    else if m.header.msgType == MSG_NACK then p.(out := Next(p.cfg, p.out, GetNack(id, ackOk)))
    else if m.header.msgType == MSG_DATA then
      var (asm, r) := Add(p.cfg.codec, p.asm, m, now);
      if r.Complete? then
        p.(asm := asm, inbound := p.inbound + [Inbound(id, m.header.contentType, r.payload)],
           net := p.net + {Control(MSG_ACK, id)})
      else p.(asm := asm, panicked := p.panicked || r.Panic?)
    else if m.header.msgType == MSG_PING then p.(net := p.net + {Control(MSG_PONG, id)})
    else p
  }

  function SaidIn(w: World): set<Said> { set id | id in w :: Said(id, w[id]) }

  /** How the messages of a life ended. */
  function Fates(s: State): set<Fate>
  {
    set k | 0 <= k < |s.ended| && s.ended[k].id in s.sent :: Fate(Said(s.ended[k].id, s.sent[s.ended[k].id]), s.ended[k].cause)
  }

  /** The messages in the ring of `s` that the next life `s'` does not have. */
  function Unrestored(s: State, s': State): set<Said>
  {
    set id | id in ActiveIds(s.ring.slots) && id in s.sent && id !in s'.sent :: Said(id, s.sent[id])
  }

  function UpTo(w: World, c: u64): World { map id | id in w && id <= c :: w[id] }

  /** What a crash leaves of the log: its first `k` bytes. */
  function Surviving(log: Bytes, k: nat): Bytes { if k <= |log| then log[..k] else log }

  /** The log ends with a whole record and mentions no ID that is going to be used again. */
  predicate Continues(file: Bytes, c: u64)
  {
    TornTail(file) == [] && forall id :: id in Fold(Records(file)).order ==> id <= c
  }

  function PeerNext(p: Peer, act: Act): Peer
  {
    match act
    case Local(step) =>
      var out := Next(p.cfg, p.out, step);
      p.(out := out, net := p.net + Emits(p.cfg, p.out, step),
         world := p.world + out.sent, told := p.told + SaidIn(out.sent), tidy := p.tidy && Tidy(p.out, step))
    case Ping => p.(net := p.net + {Control(MSG_PING, 0)})
    case Receive(m, now, ackOk) => Dispatch(p, m, now, ackOk)
    case Lose(m) => p.(net := p.net - {m})
    case Reopen(n, k, now) =>
      match Open(p.cfg, n, Surviving(p.out.log, k), now)
      case Blocked => p
      case Ready(out) => Reborn(p, Surviving(p.out.log, k), out)
  }

  /** Ring and fragment table are gone; what the log holds and what was handed up stay. */
  function Reborn(p: Peer, file: Bytes, out: State): Peer
  {
    p.(out := out, asm := map[], world := UpTo(p.world, out.counter),
       past := p.past + Fates(p.out), cut := p.cut + Unrestored(p.out, out), tidy := p.tidy && Continues(file, out.counter))
  }

  /** No data, acknowledgement or unfinished stream of `p` is about an ID above `c`. */
  predicate NoneAbove(p: Peer, other: Peer, c: u64)
  {
    && (forall m :: m in p.net && m.header.msgType == MSG_DATA ==> m.header.msgID <= c)
    && (forall m :: m in other.net && m.header.msgType == MSG_ACK ==> m.header.msgID <= c)
    && (forall id :: id in other.asm ==> id <= c)
  }

  /**
   * Acknowledgements reach a broker only from the network.  A broker with a log is restarted on a
   * ring that is large enough, when nothing is left of the IDs that it is going to use again.
   */
  predicate CanAct(p: Peer, other: Peer, act: Act)
  {
    match act
    case Local(step) => !step.GetAck? && !step.GetNack? && Enabled(p.cfg, p.out, step)
    case Ping => true
    case Receive(m, _, _) => m in other.net
    case Lose(m) => m in p.net
    case Reopen(n, k, now) =>
      && p.cfg.wal && p.tidy
      && var b := Open(p.cfg, n, Surviving(p.out.log, k), now);
         b.Ready? && NoneAbove(p, other, b.state.counter)
  }

  datatype Move = Move(byA: bool, act: Act)

  function SysNext(s: System, mv: Move): System
  {
    if mv.byA then s.(a := PeerNext(s.a, mv.act)) else s.(b := PeerNext(s.b, mv.act))
  }

  predicate CanMove(s: System, mv: Move)
  {
    if mv.byA then CanAct(s.a, s.b, mv.act) else CanAct(s.b, s.a, mv.act)
  }

  function Play(s: System, moves: seq<Move>): System
  {
    if moves == [] then s else SysNext(Play(s, moves[..|moves| - 1]), moves[|moves| - 1])
  }

  predicate Playable(s: System, moves: seq<Move>)
  {
    moves != [] ==>
      var front := moves[..|moves| - 1];
      Playable(s, front) && CanMove(Play(s, front), moves[|moves| - 1])
  }

  // ---------------------------------------------------------------- what every move keeps

  ghost predicate Received(inbound: seq<Inbound>, q: Said) { Inbound(q.id, q.msg.ct, q.msg.payload) in inbound }

  ghost predicate Delivered(inbound: seq<Inbound>, sent: World, id: u64)
  {
    id in sent && Received(inbound, Said(id, sent[id]))
  }

  ghost predicate Genuine(told: set<Said>, d: Inbound)
  {
    exists q :: q in told && d == Inbound(q.id, q.msg.ct, q.msg.payload)
  }

  ghost predicate InPast(past: set<Fate>, q: Said) { exists f :: f in past && f.said == q }

  /** The messages by ID agree with the present life and bound its IDs. */
  ghost predicate WorldOk(x: Peer)
  {
    && Grows(x.out.sent, x.world) && AllSend(x.cfg, x.world)
    && (forall id :: id in x.world ==> 0 < id <= x.out.counter && id !in x.out.taken)
  }

  /** Every message told is in the present life, in the past, or was taken by a crash. */
  ghost predicate HistoryOk(x: Peer)
  {
    && SaidIn(x.world) <= x.told
    && forall q :: q in x.told ==> (q.id in x.out.sent && x.out.sent[q.id] == q.msg) || InPast(x.past, q) || q in x.cut
  }

  /** The log, as long as everything was tidy, holds what a restart needs. */
  ghost predicate DiskOk(x: Peer)
  {
    x.cfg.wal && x.tidy ==> LogOk(x.out) && AsSent(Records(x.out.log), x.world)
  }

  /** What a peer has written and recorded as a sender. */
  ghost predicate SenderOk(c: Codec, x: Peer)
  {
    && x.cfg.codec == c && Ledger(x.cfg, x.out) && WorldOk(x) && HistoryOk(x) && DiskOk(x)
    && (forall m :: m in x.net && m.header.msgType == MSG_DATA ==> FragOf(c, x.world, m))
    && (forall m :: m in x.net ==> m.header.msgType != MSG_NACK)
    && (forall m :: m in x.net ==> Carried(m))
  }

  /** The frame's length field is right, and its payload is no longer than a chunk. */
  predicate Carried(m: Message) { m.header.payloadLen == |m.payload| <= 524288 }

  /** What a peer holds, has handed up and has acknowledged, when `w` and `told` were sent to it. */
  ghost predicate ReceiverOk(c: Codec, w: World, told: set<Said>, y: Peer)
  {
    && StreamsOk(c, w, y.asm) && !y.panicked
    && (forall d :: d in y.inbound ==> Genuine(told, d))
    && (forall m :: m in y.net && m.header.msgType == MSG_ACK ==> Delivered(y.inbound, w, m.header.msgID))
  }

  /** No message was refused, and the acknowledged ones were delivered. */
  ghost predicate EndsOk(w: World, ended: seq<Ended>, inbound: seq<Inbound>)
  {
    forall k :: 0 <= k < |ended| ==>
      !ended[k].cause.Nacked? && (ended[k].cause.Acked? ==> Delivered(inbound, w, ended[k].id))
  }

  ghost predicate PastOk(past: set<Fate>, inbound: seq<Inbound>)
  {
    forall f :: f in past ==> !f.cause.Nacked? && (f.cause.Acked? ==> Received(inbound, f.said))
  }

  /** The direction from `x` to `y`. */
  ghost predicate Link(c: Codec, x: Peer, y: Peer)
  {
    && SenderOk(c, x) && ReceiverOk(c, x.world, x.told, y)
    && EndsOk(x.world, x.out.ended, y.inbound) && PastOk(x.past, y.inbound)
  }

  ghost predicate Sound(c: Codec, s: System) { Link(c, s.a, s.b) && Link(c, s.b, s.a) }

  lemma SlotFrames(cfg: Config, s: State, ix: set<int>, m: Message)
    requires Ledger(cfg, s) && forall i :: i in ix ==> 0 <= i < |s.ring.slots| && s.ring.slots[i].active
    requires m in FramesOf(s.ring.slots, ix)
    ensures FragOf(cfg.codec, s.sent, m)
  {
    var i :| i in ix && m in s.ring.slots[i].frags;
    FragFacts(cfg.codec, s.ring.slots[i].msgID, s.sent[s.ring.slots[i].msgID], m);
  }

  lemma EmitsFragments(cfg: Config, s: State, step: Broker.Step, m: Message)
    requires Ledger(cfg, s) && Enabled(cfg, s, step) && m in Emits(cfg, s, step)
    ensures FragOf(cfg.codec, Next(cfg, s, step).sent, m) && m.header.msgType == MSG_DATA
  {
    match step {
      case EnterRing(id, o, _) =>
        EnterCases(cfg, s, step);
        FragFacts(cfg.codec, id, o, m);
      case AppendLog(id, _, _) =>
        FragFacts(cfg.codec, id, s.sent[id], m);
      case Tick(now) =>
        SlotFrames(cfg, s, RetryIx(cfg.timing, s.ring.slots, now), m);
        FragFacts(cfg.codec, m.header.msgID, s.sent[m.header.msgID], m);
      case Reconnect(now) =>
        SlotFrames(cfg, s, LiveIx(s.ring.slots), m);
        FragFacts(cfg.codec, m.header.msgID, s.sent[m.header.msgID], m);
      case _ =>
    }
  }

  lemma FragCarried(c: Codec, id: u64, o: Outgoing, m: Message)
    requires m in Frags(c, id, o)
    ensures Carried(m)
  {
    var i :| 0 <= i < |Frags(c, id, o)| && Frags(c, id, o)[i] == m;
    SplitInto(c, id, o.ct, o.pri, o.payload, i);
  }

  /** Steps of the broker's own record no acknowledgement and no refusal. */
  lemma LocalEnds(cfg: Config, s: State, step: Broker.Step, k: nat)
    requires !step.GetAck? && !step.GetNack? && k < |Next(cfg, s, step).ended|
    ensures k < |s.ended| ==> Next(cfg, s, step).ended[k] == s.ended[k]
    ensures k >= |s.ended| ==> Next(cfg, s, step).ended[k].cause.Failed? || Next(cfg, s, step).ended[k].cause.Exhausted?
  {
    match step {
      case EnterRing(_, _, _) =>
      case Tick(now) => assert Next(cfg, s, step).ended == s.ended + DeadList(cfg.timing, s.ring.slots, now);
      case _ =>
    }
  }

  lemma GenuineGrows(told: set<Said>, told': set<Said>, d: Inbound)
    requires Genuine(told, d) && told <= told'
    ensures Genuine(told', d)
  {
    var q :| q in told && d == Inbound(q.id, q.msg.ct, q.msg.payload);
    assert q in told';
  }

  lemma SentGrows(c: Codec, w: World, w': World, told: set<Said>, told': set<Said>, y: Peer)
    requires ReceiverOk(c, w, told, y) && Grows(w, w') && told <= told'
    ensures ReceiverOk(c, w', told', y)
  {
    forall d | d in y.inbound ensures Genuine(told', d) {
      GenuineGrows(told, told', d);
    }
  }

  /** A message enters with an ID that no life has used. */
  lemma NextSent(cfg: Config, s: State, step: Broker.Step)
    requires Ledger(cfg, s) && Enabled(cfg, s, step)
    ensures var s' := Next(cfg, s, step);
            && (s'.sent == s.sent || (step.EnterRing? && step.id in s.taken && s'.sent == s.sent[step.id := step.msg]))
            && s'.counter >= s.counter
            && (forall id :: id in s'.taken ==> (id in s.taken && !(step.EnterRing? && id == step.id)) || id > s.counter)
  {
    match step {
      case TakeId =>
      case EnterRing(_, _, _) => EnterCases(cfg, s, step);
      case _ => OtherSteps(cfg, s, step);
    }
  }

  /** How the messages sent and the IDs taken may change in one step. */
  ghost predicate Advances(s: State, s': State, w: World)
  {
    && s'.counter >= s.counter
    && (forall id :: id in s'.sent && id in w ==> s'.sent[id] == w[id])
    && Grows(s.sent, s'.sent) && (forall id :: id in s'.sent ==> id > 0 || id in w)
    && (forall id :: id in s'.taken ==> id !in s'.sent && id !in w)
  }

  lemma NextAdvances(cfg: Config, s: State, step: Broker.Step, w: World)
    requires Ledger(cfg, s) && Enabled(cfg, s, step)
    requires Grows(s.sent, w) && forall id :: id in w ==> id <= s.counter && id !in s.taken
    ensures Advances(s, Next(cfg, s, step), w)
  {
    NextSent(cfg, s, step);
    NextLedger(cfg, s, step);
    AdvancesFrom(cfg, s, Next(cfg, s, step), step, w);
  }

  lemma AdvancesFrom(cfg: Config, s: State, s': State, step: Broker.Step, w: World)
    requires Ledger(cfg, s) && Ledger(cfg, s') && s'.counter >= s.counter
    requires Grows(s.sent, w) && forall id :: id in w ==> id <= s.counter && id !in s.taken
    requires s'.sent == s.sent || (step.EnterRing? && step.id in s.taken && s'.sent == s.sent[step.id := step.msg])
    requires forall id :: id in s'.taken ==> (id in s.taken && !(step.EnterRing? && id == step.id)) || id > s.counter
    ensures Advances(s, s', w)
  {
  }

  lemma WorldAdvances(x: Peer, x': Peer)
    requires WorldOk(x) && Ledger(x.cfg, x'.out) && Advances(x.out, x'.out, x.world)
    requires x'.cfg == x.cfg && x'.world == x.world + x'.out.sent
    ensures WorldOk(x') && Grows(x.world, x'.world)
  {
  }

  lemma LocalWorld(x: Peer, step: Broker.Step)
    requires Ledger(x.cfg, x.out) && WorldOk(x) && Enabled(x.cfg, x.out, step)
    ensures WorldOk(PeerNext(x, Local(step))) && Grows(x.world, PeerNext(x, Local(step)).world)
  {
    NextAdvances(x.cfg, x.out, step, x.world);
    NextLedger(x.cfg, x.out, step);
    WorldAdvances(x, PeerNext(x, Local(step)));
  }

  lemma LocalHistory(x: Peer, step: Broker.Step)
    requires Ledger(x.cfg, x.out) && WorldOk(x) && HistoryOk(x) && Enabled(x.cfg, x.out, step)
    ensures HistoryOk(PeerNext(x, Local(step)))
  {
    NextGrows(x.cfg, x.out, step);
    TellMore(x, PeerNext(x, Local(step)));
  }

  lemma TellMore(x: Peer, x': Peer)
    requires HistoryOk(x) && Grows(x.out.sent, x'.out.sent)
    requires x'.world == x.world + x'.out.sent && x'.told == x.told + SaidIn(x'.out.sent) && x'.past == x.past && x'.cut == x.cut
    ensures HistoryOk(x')
  {
    forall q | q in SaidIn(x'.world) ensures q in x'.told {
      assert q in SaidIn(x'.out.sent) || q in SaidIn(x.world);
    }
  }

  lemma LocalDisk(x: Peer, step: Broker.Step)
    requires Ledger(x.cfg, x.out) && WorldOk(x) && DiskOk(x) && Enabled(x.cfg, x.out, step)
    ensures DiskOk(PeerNext(x, Local(step)))
  {
    var x' := PeerNext(x, Local(step));
    if x'.cfg.wal && x'.tidy {
      LocalWorld(x, step);
      NextLogOk(x.cfg, x.out, step);
      NextAsSent(x.cfg, x.out, step, x'.world);
    }
  }

  lemma LocalSender(c: Codec, x: Peer, step: Broker.Step)
    requires SenderOk(c, x) && Enabled(x.cfg, x.out, step)
    ensures SenderOk(c, PeerNext(x, Local(step)))
  {
    var x' := PeerNext(x, Local(step));
    NextLedger(x.cfg, x.out, step);
    LocalWorld(x, step);
    LocalHistory(x, step);
    LocalDisk(x, step);
    forall m | m in x'.net
      ensures m.header.msgType != MSG_NACK && (m.header.msgType == MSG_DATA ==> FragOf(c, x'.world, m)) && Carried(m)
    {
      if m !in x.net {
        EmitsFragments(x.cfg, x.out, step, m);
        FragCarried(c, m.header.msgID, x'.out.sent[m.header.msgID], m);
      }
    }
  }

  /** A broker step of the sender keeps the direction it sends in. */
  lemma LocalKeepsOut(c: Codec, x: Peer, y: Peer, step: Broker.Step)
    requires Link(c, x, y) && CanAct(x, y, Local(step))
    ensures Link(c, PeerNext(x, Local(step)), y)
  {
    var x', out := PeerNext(x, Local(step)), Next(x.cfg, x.out, step);
    LocalSender(c, x, step);
    LocalWorld(x, step);
    SentGrows(c, x.world, x'.world, x.told, x'.told, y);
    forall k | 0 <= k < |out.ended|
      ensures !out.ended[k].cause.Nacked? && (out.ended[k].cause.Acked? ==> Delivered(y.inbound, x'.world, out.ended[k].id))
    {
      LocalEnds(x.cfg, x.out, step, k);
    }
  }

  /** It adds no acknowledgement, so the other direction is kept as well. */
  lemma LocalKeepsIn(c: Codec, x: Peer, y: Peer, step: Broker.Step)
    requires SenderOk(c, x) && Link(c, y, x) && CanAct(x, y, Local(step))
    ensures Link(c, y, PeerNext(x, Local(step)))
  {
    var x' := PeerNext(x, Local(step));
    forall m | m in x'.net && m.header.msgType == MSG_ACK ensures m in x.net {
      if m !in x.net {
        EmitsFragments(x.cfg, x.out, step, m);
      }
    }
  }

  lemma AckDisk(x: Peer, id: u64, ackOk: bool)
    requires Ledger(x.cfg, x.out) && WorldOk(x) && DiskOk(x)
    ensures DiskOk(x.(out := End(x.cfg, x.out, id, Acked, ackOk)))
  {
    if x.cfg.wal && x.tidy {
      EndLogOk(x.cfg, x.out, id, Acked, ackOk);
      NextAsSent(x.cfg, x.out, GetAck(id, ackOk), x.world);
    }
  }

  lemma AckSender(c: Codec, x: Peer, id: u64, ackOk: bool)
    requires SenderOk(c, x)
    ensures SenderOk(c, x.(out := End(x.cfg, x.out, id, Acked, ackOk)))
  {
    var out := End(x.cfg, x.out, id, Acked, ackOk);
    EndLedger(x.cfg, x.out, id, Acked, ackOk);
    AckDisk(x, id, ackOk);
    assert out.sent == x.out.sent && out.counter == x.out.counter && out.taken == x.out.taken;
    assert WorldOk(x.(out := out)) && HistoryOk(x.(out := out));
  }

  /** An acknowledgement frees a slot only for a message that was handed up. */
  lemma AckKeeps(c: Codec, x: Peer, y: Peer, m: Message, now: int, ackOk: bool)
    requires Link(c, x, y) && m in y.net && m.header.msgType == MSG_ACK
    ensures Link(c, Dispatch(x, m, now, ackOk), y)
  {
    var id := m.header.msgID;
    var out := End(x.cfg, x.out, id, Acked, ackOk);
    AckSender(c, x, id, ackOk);
    assert Dispatch(x, m, now, ackOk) == x.(out := out);
    AckEnds(x.world, x.out.ended, y.inbound, id);
  }

  lemma AckEnds(w: World, ended: seq<Ended>, inbound: seq<Inbound>, id: u64)
    requires EndsOk(w, ended, inbound) && Delivered(inbound, w, id)
    ensures EndsOk(w, ended + [Ended(id, Acked)], inbound)
  {
  }

  /** Handing up a genuine message and acknowledging it. */
  lemma HandUpKeeps(c: Codec, w: World, told: set<Said>, y: Peer, asm: Streams, id: u64)
    requires ReceiverOk(c, w, told, y) && StreamsOk(c, w, asm) && id in w && Said(id, w[id]) in told
    ensures ReceiverOk(c, w, told, y.(asm := asm, inbound := y.inbound + [Inbound(id, w[id].ct, w[id].payload)], net := y.net + {Control(MSG_ACK, id)}))
  {
  }

  lemma EndsGrow(w: World, ended: seq<Ended>, past: set<Fate>, inbound: seq<Inbound>, d: Inbound)
    requires EndsOk(w, ended, inbound) && PastOk(past, inbound)
    ensures EndsOk(w, ended, inbound + [d]) && PastOk(past, inbound + [d])
  {
  }

  /** A data frame is reassembled, handed up and acknowledged only as what was sent. */
  lemma DataKeeps(c: Codec, x: Peer, y: Peer, m: Message, now: int, ackOk: bool)
    requires RoundTrips(c) && Link(c, x, y) && y.cfg.codec == c && m in x.net && m.header.msgType == MSG_DATA
    ensures Link(c, x, Dispatch(y, m, now, ackOk))
  {
    var w, id := x.world, m.header.msgID;
    AddRefines(c, w, y.asm, m, now);
    FragFacts(c, id, w[id], m);
    var (asm, r) := Add(c, y.asm, m, now);
    if r.Complete? {
      assert Said(id, w[id]) in SaidIn(w);
      HandUpKeeps(c, w, x.told, y, asm, id);
      EndsGrow(w, x.out.ended, x.past, y.inbound, Inbound(id, w[id].ct, w[id].payload));
    } else {
      assert Dispatch(y, m, now, ackOk) == y.(asm := asm);
    }
  }

  /** As a sender a peer depends only on its broker, its history and the data frames it wrote. */
  lemma SenderFrame(c: Codec, x: Peer, x': Peer)
    requires SenderOk(c, x) && x' == x.(asm := x'.asm, inbound := x'.inbound, net := x'.net, panicked := x'.panicked)
    requires forall m :: m in x'.net && m !in x.net ==> m.header.msgType != MSG_DATA && m.header.msgType != MSG_NACK && Carried(m)
    ensures SenderOk(c, x')
  {
    assert WorldOk(x') && HistoryOk(x') && DiskOk(x');
  }

  /** Receiving data changes nothing of a peer as a sender: it only writes an acknowledgement. */
  lemma DataKeepsSender(c: Codec, x: Peer, y: Peer, m: Message, now: int, ackOk: bool)
    requires Link(c, x, y) && m.header.msgType != MSG_ACK && m.header.msgType != MSG_NACK
    ensures Link(c, Dispatch(x, m, now, ackOk), y)
  {
    SenderFrame(c, x, Dispatch(x, m, now, ackOk));
  }

  lemma AckKeepsReceiver(c: Codec, x: Peer, y: Peer, m: Message, now: int, ackOk: bool)
    requires Link(c, y, x) && m.header.msgType != MSG_DATA
    ensures Link(c, y, Dispatch(x, m, now, ackOk))
  {
  }

  lemma ReceiveKeeps(c: Codec, x: Peer, y: Peer, act: Act)
    requires RoundTrips(c) && Link(c, x, y) && Link(c, y, x) && act.Receive? && CanAct(x, y, act)
    ensures Link(c, PeerNext(x, act), y) && Link(c, y, PeerNext(x, act))
  {
    var m := act.msg;
    if m.header.msgType == MSG_DATA {
      DataKeeps(c, y, x, m, act.now, act.ackOk);
    } else {
      AckKeepsReceiver(c, x, y, m, act.now, act.ackOk);
    }
    if m.header.msgType == MSG_ACK {
      AckKeeps(c, x, y, m, act.now, act.ackOk);
    } else {
      DataKeepsSender(c, x, y, m, act.now, act.ackOk);
    }
  }

  lemma PingKeeps(c: Codec, x: Peer, y: Peer)
    requires Link(c, x, y) && Link(c, y, x)
    ensures Link(c, PeerNext(x, Ping), y) && Link(c, y, PeerNext(x, Ping))
  {
  }

  lemma LoseKeeps(c: Codec, x: Peer, y: Peer, m: Message)
    requires Link(c, x, y) && Link(c, y, x)
    ensures Link(c, PeerNext(x, Lose(m)), y) && Link(c, y, PeerNext(x, Lose(m)))
  {
    SenderFrame(c, x, PeerNext(x, Lose(m)));
  }

  // ---------------------------------------------------------------- restarts

  lemma SurvivingFaithful(x: Peer, k: nat)
    requires x.cfg.wal && x.tidy && WorldOk(x) && DiskOk(x)
    ensures Faithful(x.cfg, x.world, Surviving(x.out.log, k))
  {
    if k <= |x.out.log| {
      CutFaithful(x.cfg, x.world, x.out.log, k);
    }
  }

  /** What a restart finds: messages as they were sent, and nothing of this life beyond the log. */
  lemma ReopenRestores(x: Peer, n: nat, k: nat, now: int) returns (out: State)
    requires x.cfg.wal && x.tidy && WorldOk(x) && DiskOk(x) && Open(x.cfg, n, Surviving(x.out.log, k), now).Ready?
    ensures out == Open(x.cfg, n, Surviving(x.out.log, k), now).state
    ensures Ledger(x.cfg, out) && out.log == Surviving(x.out.log, k) && out.ended == [] && out.taken == {}
    ensures out.sent.Keys == Unacked(Surviving(x.out.log, k)).Keys && Grows(out.sent, UpTo(x.world, out.counter))
  {
    SurvivingFaithful(x, k);
    out := OpenFacts(x.cfg, x.world, Surviving(x.out.log, k), n, now);
    WithinUpTo(out.sent, x.world, out.counter);
  }

  lemma OpenFacts(cfg: Config, w: World, file: Bytes, n: nat, now: int) returns (out: State)
    requires Faithful(cfg, w, file) && Open(cfg, n, file, now).Ready?
    ensures out == Open(cfg, n, file, now).state
    ensures Ledger(cfg, out) && out.log == file && out.ended == [] && out.taken == {} && out.sent.Keys == Unacked(file).Keys
    ensures forall id :: id in out.sent.Keys ==> id in w && id <= out.counter && out.sent[id] == w[id]
  {
    out := Open(cfg, n, file, now).state;
    OpenRestores(cfg, w, file, n, now);
    ListedOf(cfg, w, file);
    OpenFilled(cfg, n, file, Entries(Records(file)), now);
  }

  lemma WithinUpTo(sent: World, w: World, c: u64)
    requires forall id :: id in sent.Keys ==> id in w && id <= c && sent[id] == w[id]
    ensures Grows(sent, UpTo(w, c))
  {
    forall id | id in sent ensures id in UpTo(w, c) && UpTo(w, c)[id] == sent[id] {
      assert id in sent.Keys;
    }
  }

  lemma SendsListed(rs: seq<Record>, i: nat)
    requires i < |rs| && rs[i].op == OP_SEND
    ensures rs[i].id in Fold(rs).order
  {
    OrderOfPrefix(rs, i + 1);
    var pre := rs[..i + 1];
    assert pre[..|pre| - 1] == rs[..i] && pre[|pre| - 1] == rs[i];
    PendingOrdered(rs[..i], rs[i].id);
    assert rs[i].id in Fold(pre).order;
  }

  lemma ReopenDisk(x: Peer, n: nat, k: nat, now: int, out: State)
    requires x.cfg.wal && x.tidy && WorldOk(x) && DiskOk(x) && Open(x.cfg, n, Surviving(x.out.log, k), now) == Ready(out)
    requires out.log == Surviving(x.out.log, k)
    ensures DiskOk(Reborn(x, Surviving(x.out.log, k), out))
  {
    var file, w := Surviving(x.out.log, k), UpTo(x.world, out.counter);
    SurvivingFaithful(x, k);
    if Continues(file, out.counter) {
      NextLifeAgrees(x.cfg, x.world, file, n, now);
      var rs := Records(file);
      forall i | 0 <= i < |rs| && rs[i].op == OP_SEND ensures rs[i].id in w && rs[i].payload == PackWal(w[rs[i].id]) {
        SendsListed(rs, i);
      }
    }
  }

  lemma UpToGrows(w: World, c: u64)
    ensures Grows(UpTo(w, c), w) && SaidIn(UpTo(w, c)) <= SaidIn(w)
  {
    forall q | q in SaidIn(UpTo(w, c)) ensures q in SaidIn(w) {
      var id :| id in UpTo(w, c) && q == Said(id, UpTo(w, c)[id]);
      assert q == Said(id, w[id]);
    }
  }

  /** Whatever entered a ring is in the next life, has its fate, or was taken by the crash. */
  lemma RebornAccounts(x: Peer, file: Bytes, out: State, q: Said)
    requires Ledger(x.cfg, x.out) && WorldOk(x) && q.id in x.out.sent && x.out.sent[q.id] == q.msg && Grows(out.sent, x.world)
    ensures var x' := Reborn(x, file, out);
            (q.id in out.sent && out.sent[q.id] == q.msg) || InPast(x'.past, q) || q in x'.cut
  {
    assert q.id in x.out.sent.Keys;
    if q.id in EndedIds(x.out.ended) {
      var k :| 0 <= k < |x.out.ended| && x.out.ended[k].id == q.id;
      assert Fate(q, x.out.ended[k].cause) in Fates(x.out);
      assert Fate(q, x.out.ended[k].cause) in Reborn(x, file, out).past;
    } else if q.id !in out.sent {
      assert q in Unrestored(x.out, out);
    }
  }

  lemma RebornHistory(x: Peer, file: Bytes, out: State)
    requires Ledger(x.cfg, x.out) && WorldOk(x) && HistoryOk(x) && Grows(out.sent, x.world)
    ensures HistoryOk(Reborn(x, file, out))
  {
    var x' := Reborn(x, file, out);
    UpToGrows(x.world, out.counter);
    forall q | q in x.told ensures (q.id in out.sent && out.sent[q.id] == q.msg) || InPast(x'.past, q) || q in x'.cut {
      if q.id in x.out.sent && x.out.sent[q.id] == q.msg {
        RebornAccounts(x, file, out, q);
      } else if InPast(x.past, q) {
        var f :| f in x.past && f.said == q;
        assert f in x'.past;
      }
    }
  }

  lemma ReopenSender(c: Codec, x: Peer, y: Peer, n: nat, k: nat, now: int)
    requires SenderOk(c, x) && CanAct(x, y, Reopen(n, k, now))
    ensures SenderOk(c, PeerNext(x, Reopen(n, k, now)))
  {
    var file := Surviving(x.out.log, k);
    var out := ReopenRestores(x, n, k, now);
    UpToGrows(x.world, out.counter);
    RebornHistory(x, file, out);
    ReopenDisk(x, n, k, now, out);
    var x' := Reborn(x, file, out);
    assert WorldOk(x');
    forall m | m in x'.net && m.header.msgType == MSG_DATA ensures FragOf(c, x'.world, m) {
      assert FragOf(c, x.world, m);
    }
  }

  /** The receiver keeps what it has, because nothing in flight or unfinished is about a reused ID. */
  lemma ReopenReceiver(c: Codec, x: Peer, y: Peer, u: u64)
    requires ReceiverOk(c, x.world, x.told, y) && NoneAbove(x, y, u)
    ensures ReceiverOk(c, UpTo(x.world, u), x.told, y)
  {
  }

  lemma FatesOk(s: State, w: World, inbound: seq<Inbound>)
    requires EndsOk(w, s.ended, inbound) && Grows(s.sent, w)
    ensures PastOk(Fates(s), inbound)
  {
  }

  /** A restart keeps both directions, as sender and as receiver. */
  lemma ReopenKeeps(c: Codec, x: Peer, y: Peer, n: nat, k: nat, now: int)
    requires Link(c, x, y) && Link(c, y, x) && CanAct(x, y, Reopen(n, k, now))
    ensures Link(c, PeerNext(x, Reopen(n, k, now)), y) && Link(c, y, PeerNext(x, Reopen(n, k, now)))
  {
    var out := ReopenRestores(x, n, k, now);
    ReopenSender(c, x, y, n, k, now);
    ReopenReceiver(c, x, y, out.counter);
    FatesOk(x.out, x.world, y.inbound);
  }

  /** With fresh IDs nothing can be about a reused one, so the restart is always possible. */
  lemma FreshIsSafe(c: Codec, x: Peer, y: Peer, u: u64)
    requires Link(c, x, y) && forall id :: id in x.world ==> id <= u
    ensures NoneAbove(x, y, u)
  {
  }

  /** In any life and over any cut of the log: when the restart leaves no ID to be used again. */
  lemma ReopenFreshIff(c: Codec, x: Peer, n: nat, k: nat, now: int)
    requires SenderOk(c, x) && x.cfg.wal && x.tidy
    ensures var file := Surviving(x.out.log, k);
            var b := Open(x.cfg, n, file, now);
            b.Ready? ==> ((forall id :: id in x.world ==> id <= b.state.counter) <==> LargestLives(x.world, Unacked(file).Keys))
  {
    SurvivingFaithful(x, k);
    FreshIff(x.cfg, x.world, Surviving(x.out.log, k), n, now);
  }

  /** When the file is whole, only messages that were not in it yet are taken by a crash. */
  lemma WholeFileCuts(c: Codec, x: Peer, n: nat, now: int, q: Said)
    requires SenderOk(c, x) && x.cfg.wal && x.tidy && Open(x.cfg, n, x.out.log, now).Ready?
    ensures var x' := PeerNext(x, Reopen(n, |x.out.log|, now)); q in x'.cut ==> q in x.cut || q.id in x.out.logging
  {
    assert Surviving(x.out.log, |x.out.log|) == x.out.log;
    var out := ReopenRestores(x, n, |x.out.log|, now);
    if q in Unrestored(x.out, out) {
      assert q.id in ActiveIds(x.out.ring.slots) && q.id !in out.sent.Keys;
    }
  }

  // ---------------------------------------------------------------- whole runs

  lemma ActKeeps(c: Codec, x: Peer, y: Peer, act: Act)
    requires RoundTrips(c) && Link(c, x, y) && Link(c, y, x) && CanAct(x, y, act)
    ensures Link(c, PeerNext(x, act), y) && Link(c, y, PeerNext(x, act))
  {
    match act {
      case Local(step) =>
        LocalKeepsOut(c, x, y, step);
        LocalKeepsIn(c, x, y, step);
      case Ping => PingKeeps(c, x, y);
      case Receive(_, _, _) => ReceiveKeeps(c, x, y, act);
      case Lose(m) => LoseKeeps(c, x, y, m);
      case Reopen(n, k, now) => ReopenKeeps(c, x, y, n, k, now);
    }
  }

  lemma {:induction false} SoundAlways(c: Codec, s: System, moves: seq<Move>)
    requires RoundTrips(c) && Sound(c, s) && Playable(s, moves)
    ensures Sound(c, Play(s, moves))
  {
    if moves != [] {
      var front, mv := moves[..|moves| - 1], moves[|moves| - 1];
      SoundAlways(c, s, front);
      var q := Play(s, front);
      if mv.byA {
        ActKeeps(c, q.a, q.b, mv.act);
      } else {
        ActKeeps(c, q.b, q.a, mv.act);
      }
    }
  }

  function FreshPeer(cfg: Config, n: nat): Peer { Peer(cfg, Start(n), map[], [], {}, false, map[], {}, {}, {}, true) }

  function Fresh(ca: Config, na: nat, cb: Config, nb: nat): System { System(FreshPeer(ca, na), FreshPeer(cb, nb)) }

  lemma FreshSound(ca: Config, na: nat, cb: Config, nb: nat)
    requires ca.codec == cb.codec
    ensures Sound(ca.codec, Fresh(ca, na, cb, nb))
  {
    StartLedger(ca, na);
    StartLogOk(na);
    StartLedger(cb, nb);
    StartLogOk(nb);
  }

  /**
   * Acknowledgement soundness, for one direction of every reachable state.  An acknowledgement in
   * flight, and a slot freed by one in any life of the sender, is for a message the receiver has
   * already handed up with exactly the payload and content type that were sent; nothing else is ever
   * handed up; no refusal is ever sent; and reassembly never runs past a fragment table.
   */
  ghost predicate AcksSound(x: Peer, y: Peer)
  {
    && (forall m :: m in y.net && m.header.msgType == MSG_ACK ==> Delivered(y.inbound, x.world, m.header.msgID))
    && (forall k :: 0 <= k < |x.out.ended| && x.out.ended[k].cause.Acked? ==> Delivered(y.inbound, x.world, x.out.ended[k].id))
    && (forall f :: f in x.past && f.cause.Acked? ==> Received(y.inbound, f.said))
    && (forall d :: d in y.inbound ==> Genuine(x.told, d))
    && (forall m :: m in x.net ==> m.header.msgType != MSG_NACK)
    && !y.panicked
  }

  lemma AckSoundness(ca: Config, na: nat, cb: Config, nb: nat, moves: seq<Move>)
    requires ca.codec == cb.codec && RoundTrips(ca.codec) && Playable(Fresh(ca, na, cb, nb), moves)
    ensures var s := Play(Fresh(ca, na, cb, nb), moves); AcksSound(s.a, s.b) && AcksSound(s.b, s.a)
  {
    FreshSound(ca, na, cb, nb);
    SoundAlways(ca.codec, Fresh(ca, na, cb, nb), moves);
  }

  ghost predicate Reported(ended: seq<Ended>, id: u64)
  {
    exists k :: 0 <= k < |ended| && ended[k].id == id && (ended[k].cause.Failed? || ended[k].cause.Exhausted?)
  }

  ghost predicate ReportedBefore(past: set<Fate>, q: Said)
  {
    exists f :: f in past && f.said == q && (f.cause.Failed? || f.cause.Exhausted?)
  }

  /**
   * Where a message is: still to be retransmitted, handed up intact, reported to the caller in this
   * or an earlier life, or taken by a crash before the log could bring it back.
   */
  ghost predicate Accounted(x: Peer, y: Peer, q: Said)
  {
    || (q.id in ActiveIds(x.out.ring.slots) && q.id in x.out.sent && x.out.sent[q.id] == q.msg)
    || Received(y.inbound, q)
    || (Reported(x.out.ended, q.id) && q.id in x.out.sent && x.out.sent[q.id] == q.msg) || ReportedBefore(x.past, q)
    || q in x.cut
  }

  /**
   * No silent loss: at every moment of every run, across restarts, every message that ever entered a
   * ring is accounted for.
   */
  lemma NoSilentLoss(ca: Config, na: nat, cb: Config, nb: nat, moves: seq<Move>, q: Said)
    requires ca.codec == cb.codec && RoundTrips(ca.codec) && Playable(Fresh(ca, na, cb, nb), moves)
    ensures var s := Play(Fresh(ca, na, cb, nb), moves);
            (q in s.a.told ==> Accounted(s.a, s.b, q)) && (q in s.b.told ==> Accounted(s.b, s.a, q))
  {
    FreshSound(ca, na, cb, nb);
    SoundAlways(ca.codec, Fresh(ca, na, cb, nb), moves);
    var s := Play(Fresh(ca, na, cb, nb), moves);
    LinkAccounts(ca.codec, s.a, s.b, q);
    LinkAccounts(ca.codec, s.b, s.a, q);
  }

  lemma LinkAccounts(c: Codec, x: Peer, y: Peer, q: Said)
    requires Link(c, x, y)
    ensures q in x.told ==> Accounted(x, y, q)
  {
    if q in x.told && q !in x.cut {
      if q.id in x.out.sent && x.out.sent[q.id] == q.msg {
        assert q.id in x.out.sent.Keys;
        if q.id !in ActiveIds(x.out.ring.slots) {
          var k :| 0 <= k < |x.out.ended| && x.out.ended[k].id == q.id;
        }
      } else {
        var f :| f in x.past && f.said == q;
      }
    }
  }
}
