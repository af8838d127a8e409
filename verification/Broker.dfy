/**
 * One broker as a state machine: its ring, its counter and its log, together with the history
 * needed to say what its runs guarantee (pkg/broker).  A Send is several steps, and any number of
 * Sends may be under way: it takes an ID, enters the ring, appends to the log, and writes.
 */
module Broker {
  import opened Bytes
  import opened Protocol
  import opened Chunker
  import opened Reassembly
  import opened Slots
  import opened Wal
  import opened Compaction

  datatype Config = Config(codec: Codec, timing: Timing, wal: bool)

  /** Why a message left the ring.  Only Acked calls OnAck; only Exhausted calls OnDead by itself. */
  datatype Cause = Acked | Nacked | Failed | Exhausted(at: int)
  datatype Ended = Ended(id: u64, cause: Cause)

  /** A compaction under way: the log it has read, and the records written since. */
  datatype Snap = Snap(base: Bytes, since: seq<Record>)

  datatype State = State(
    ring: Ring,
    counter: u64,
    log: Bytes,
    snap: Option<Snap>,
    /** Sends that have an ID and are not in the ring yet. */
    taken: set<u64>,
    /** Sends that entered the ring and are not in the log yet. */
    logging: set<u64>,
    /** Sends that have not returned yet. */
    writing: set<u64>,
    // history
    sent: World,
    ended: seq<Ended>,
    /** IDs that left the ring while the log still holds them unacknowledged. */
    stale: set<u64>,
    /** When the message entered the ring, or was last renewed by a reconnect. */
    began: map<u64, int>,
    /** Retransmissions since then. */
    resends: map<u64, nat>)

  /** `appendOk` and `ackOk` are the outcomes of log writes; a failed write leaves the file as it was. */
  datatype Step =
    | TakeId
    | EnterRing(id: u64, msg: Outgoing, now: int)
    | AppendLog(id: u64, appendOk: bool, ackOk: bool)
    | SendReturns(id: u64)
    | WriteFails(id: u64, ackOk: bool)
    | GetAck(id: u64, ackOk: bool)
    | GetNack(id: u64, ackOk: bool)
    | Tick(now: int)
    | Reconnect(now: int)
    | Snapshot
    | Swap

  function PackWal(o: Outgoing): Bytes { [o.ct, o.pri] + o.payload }

  function UnpackWal(b: Bytes): Outgoing
  {
    if |b| < 2 then Outgoing(CONTENT_TEXT, PRIORITY_NORMAL, b) else Outgoing(b[0], b[1], b[2..])
  }

  lemma UnpackPack(o: Outgoing)
    ensures UnpackWal(PackWal(o)) == o
    ensures |PackWal(o)| == 2 + |o.payload| && PackWal(o)[0] == o.ct && PackWal(o)[1] == o.pri && PackWal(o)[2..] == o.payload
  {
    assert PackWal(o)[2..] == o.payload;
  }

  /** A packed payload that is too short is taken as text of normal priority. */
  lemma UnpackShort(b: Bytes)
    requires |b| < 2
    ensures UnpackWal(b) == Outgoing(2, 1, b)
  {
  }

  function SendRecord(id: u64, o: Outgoing): Record { Record(OP_SEND, id, PackWal(o)) }
  function AckRecord(id: u64): Record { Record(OP_ACK, id, []) }

  /** The records of a message, byte by byte: operation 1 with the packed message, operation 2 with nothing. */
  lemma LogRecords(id: u64, o: Outgoing)
    requires |o.payload| + 2 < 0x1_0000_0000
    ensures var b := RecordBytes(SendRecord(id, o));
            && |b| == 15 + |o.payload| && b[0] == 1 && At4(b, 1) == 2 + |o.payload| && At8(b, 5) == id
            && b[13] == o.ct && b[14] == o.pri && b[15..] == o.payload
    ensures var b := RecordBytes(AckRecord(id)); |b| == 13 && b[0] == 2 && At4(b, 1) == 0 && At8(b, 5) == id
  {
    RecordLayout(SendRecord(id, o));
    RecordLayout(AckRecord(id));
    UnpackPack(o);
    var b := RecordBytes(SendRecord(id, o));
    assert b[13] == b[13..][0] && b[14] == b[13..][1] && b[15..] == b[13..][2..];
  }

  /** A compaction under way does not see the records written meanwhile. */
  function Noted(snap: Option<Snap>, r: Record): Option<Snap>
  {
    match snap
    case None => None
    case Some(p) => Some(p.(since := p.since + [r]))
  }

  /** freeSlot on behalf of `cause`. */
  function End(cfg: Config, s: State, id: u64, cause: Cause, ackOk: bool): State
  {
    if id !in ActiveIds(s.ring.slots) then s
    else s.(ring := Release(s.ring, id),
            ended := s.ended + [Ended(id, cause)],
            log := if cfg.wal && ackOk then s.log + RecordBytes(AckRecord(id)) else s.log,
            snap := if cfg.wal && ackOk then Noted(s.snap, AckRecord(id)) else s.snap,
            stale := if cfg.wal && !ackOk && id !in s.logging then s.stale + {id} else s.stale)
  }

  function Enter(cfg: Config, s: State, id: u64, o: Outgoing, now: int): State
    requires s.ring.free != [] && s.ring.free[|s.ring.free| - 1] < |s.ring.slots|
  {
    s.(taken := s.taken - {id}, ring := Enqueue(s.ring, id, Frags(cfg.codec, id, o), now),
       sent := s.sent[id := o], began := s.began[id := now], resends := s.resends[id := 0])
  }

  /** The log append of Send.  By now a retransmission may have been acknowledged already. */
  function Logged(cfg: Config, s: State, id: u64, appendOk: bool, ackOk: bool): State
    requires id in s.sent
  {
    if appendOk then
      s.(log := s.log + RecordBytes(SendRecord(id, s.sent[id])), snap := Noted(s.snap, SendRecord(id, s.sent[id])),
         logging := s.logging - {id}, writing := s.writing + {id},
         stale := if id in ActiveIds(s.ring.slots) then s.stale else s.stale + {id})
    else End(cfg, s, id, Failed, ackOk).(logging := s.logging - {id})
  }

  function DeadList(t: Timing, slots: seq<Slot>, now: int): (es: seq<Ended>)
    ensures |es| == |Dying(t, slots, now, |slots|)|
  {
    var ix := Dying(t, slots, now, |slots|);
    seq(|ix|, k requires 0 <= k < |ix| => Ended(slots[ix[k]].msgID, Exhausted(now)))
  }

  function RetryingIds(t: Timing, slots: seq<Slot>, now: int): set<u64>
  {
    set i | 0 <= i < |slots| && Retries(t, slots[i], now) :: slots[i].msgID
  }

  function Bump(resends: map<u64, nat>, ids: set<u64>): map<u64, nat>
  {
    map id | id in resends :: resends[id] + if id in ids then 1 else 0
  }

  predicate Enabled(cfg: Config, s: State, step: Step)
  {
    match step
    // No ID is reused while the 64-bit counter has not wrapped.
    case TakeId => s.counter + 1 < UINT64
    // Send blocks while the ring is full, unless the payload is refused before that.
    case EnterRing(id, o, _) => id in s.taken && (Split(cfg.codec, id, o.ct, o.pri, o.payload).Some? ==> s.ring.free != [])
    case AppendLog(id, _, _) => id in s.logging && id in s.sent
    case SendReturns(id) => id in s.writing
    case WriteFails(id, _) => id in s.writing
    case Swap => s.snap.Some?
    case _ => true
  }

  function Next(cfg: Config, s: State, step: Step): State
  {
    match step
    case TakeId =>
      var id := (s.counter + 1) % UINT64;
      s.(counter := id, taken := s.taken + {id})
    case EnterRing(id, o, now) =>
      if Split(cfg.codec, id, o.ct, o.pri, o.payload).None? then s.(taken := s.taken - {id})
      else if s.ring.free == [] || s.ring.free[|s.ring.free| - 1] >= |s.ring.slots| then s
      else
        var q := Enter(cfg, s, id, o, now);
        if cfg.wal then q.(logging := q.logging + {id}) else q.(writing := q.writing + {id})
    case AppendLog(id, appendOk, ackOk) => if id in s.sent then Logged(cfg, s, id, appendOk, ackOk) else s
    case SendReturns(id) => s.(writing := s.writing - {id})
    case WriteFails(id, ackOk) => End(cfg, s, id, Failed, ackOk).(writing := s.writing - {id})
    case GetAck(id, ackOk) => End(cfg, s, id, Acked, ackOk)
    case GetNack(id, ackOk) => End(cfg, s, id, Nacked, ackOk)
    case Tick(now) =>
      var retrying := RetryingIds(cfg.timing, s.ring.slots, now);
      s.(ring := CheckTimeouts(cfg.timing, s.ring, now),
         ended := s.ended + DeadList(cfg.timing, s.ring.slots, now),
         stale := if cfg.wal then s.stale + (DyingIds(cfg.timing, s.ring.slots, now) - s.logging) else s.stale,
         resends := Bump(s.resends, retrying))
    case Reconnect(now) =>
      var active := ActiveIds(s.ring.slots);
      s.(ring := ReplayUnacked(s.ring, now),
         began := map id | id in s.began :: if id in active then now else s.began[id],
         resends := map id | id in s.resends :: if id in active then 0 else s.resends[id])
    // Compact: Replay reads the file, and much later the rename puts the rewritten one in its place.
    case Snapshot => if cfg.wal then s.(snap := Some(Snap(s.log, []))) else s
    case Swap => if s.snap.Some? then s.(log := CompactBytes(s.snap.value.base), snap := None) else s
  }

  function Exec(cfg: Config, s: State, steps: seq<Step>): State
  {
    if steps == [] then s else Next(cfg, Exec(cfg, s, steps[..|steps| - 1]), steps[|steps| - 1])
  }

  lemma ExecSnoc(cfg: Config, s: State, steps: seq<Step>, step: Step)
    ensures Exec(cfg, s, steps + [step]) == Next(cfg, Exec(cfg, s, steps), step)
    ensures Legal(cfg, s, steps + [step]) <==> Legal(cfg, s, steps) && Enabled(cfg, Exec(cfg, s, steps), step)
  {
    assert (steps + [step])[..|steps|] == steps;
  }

  predicate Legal(cfg: Config, s: State, steps: seq<Step>)
  {
    steps != [] ==>
      var front := steps[..|steps| - 1];
      Legal(cfg, s, front) && Enabled(cfg, Exec(cfg, s, front), steps[|steps| - 1])
  }

  /** A broker that starts with `n` slots and an empty log. */
  function Start(n: nat): State { State(NewRing(n), 0, [], None, {}, {}, {}, map[], [], {}, map[], map[]) }

  // ---------------------------------------------------------------- the ledger

  function EndedIds(es: seq<Ended>): set<u64> { set i | 0 <= i < |es| :: es[i].id }

  ghost predicate EndedOnce(es: seq<Ended>) { forall i, j :: 0 <= i < j < |es| ==> es[i].id != es[j].id }

  /**
   * Every message that entered the ring is either in it, in one slot, or has ended, once and for
   * one cause; and a slot holds the fragments of the message with its ID.
   */
  ghost predicate Ledger(cfg: Config, s: State)
  {
    && RingOk(s.ring)
    && ActiveIds(s.ring.slots) !! EndedIds(s.ended)
    && ActiveIds(s.ring.slots) + EndedIds(s.ended) == s.sent.Keys
    && EndedOnce(s.ended)
    && (forall id :: id in s.taken ==> 0 < id <= s.counter && id !in s.sent)
    && (forall id :: id in s.sent ==> id <= s.counter && Split(cfg.codec, id, s.sent[id].ct, s.sent[id].pri, s.sent[id].payload).Some?)
    && SlotsOk(cfg, s.sent, s.ring.slots)
  }

  ghost predicate SlotsOk(cfg: Config, sent: World, slots: seq<Slot>)
  {
    forall i :: 0 <= i < |slots| && slots[i].active ==>
      slots[i].msgID in sent && slots[i].frags == Frags(cfg.codec, slots[i].msgID, sent[slots[i].msgID])
  }

  lemma EndedSnoc(es: seq<Ended>, e: Ended)
    ensures EndedIds(es + [e]) == EndedIds(es) + {e.id}
    ensures EndedOnce(es) && e.id !in EndedIds(es) ==> EndedOnce(es + [e])
  {
    var es' := es + [e];
    assert es'[|es|] == e;
    forall i | 0 <= i < |es| ensures es'[i] == es[i] && es[i].id in EndedIds(es) && es[i].id in EndedIds(es') {
    }
  }

  lemma EndLedger(cfg: Config, s: State, id: u64, cause: Cause, ackOk: bool)
    requires Ledger(cfg, s)
    ensures Ledger(cfg, End(cfg, s, id, cause, ackOk))
  {
    if id in ActiveIds(s.ring.slots) {
      ReleaseOk(s.ring, id);
      EndedSnoc(s.ended, Ended(id, cause));
    }
  }

  lemma EnterLedger(cfg: Config, s: State, id: u64, o: Outgoing, now: int)
    requires Ledger(cfg, s) && s.ring.free != [] && s.ring.free[|s.ring.free| - 1] < |s.ring.slots|
    requires id in s.taken && Split(cfg.codec, id, o.ct, o.pri, o.payload).Some?
    ensures Ledger(cfg, Enter(cfg, s, id, o, now))
  {
    assert id !in s.sent.Keys;
    EnqueueOk(s.ring, id, Frags(cfg.codec, id, o), now);
  }

  lemma DeadListIds(t: Timing, slots: seq<Slot>, now: int)
    ensures EndedIds(DeadList(t, slots, now)) == DyingIds(t, slots, now)
  {
    var ix, es := Dying(t, slots, now, |slots|), DeadList(t, slots, now);
    forall id | id in DyingIds(t, slots, now) ensures id in EndedIds(es) {
      var i :| 0 <= i < |slots| && Dies(t, slots[i], now) && slots[i].msgID == id;
      assert i in ix;
      var k :| 0 <= k < |ix| && ix[k] == i;
      assert es[k].id == id;
    }
    forall id | id in EndedIds(es) ensures id in DyingIds(t, slots, now) {
      var k :| 0 <= k < |es| && es[k].id == id;
      assert ix[k] in ix;
    }
  }

  lemma EndedAppend(a: seq<Ended>, b: seq<Ended>)
    ensures EndedIds(a + b) == EndedIds(a) + EndedIds(b)
    ensures EndedOnce(a) && EndedOnce(b) && EndedIds(a) !! EndedIds(b) ==> EndedOnce(a + b)
  {
    var ab := a + b;
    forall i | 0 <= i < |a| ensures ab[i] == a[i] && a[i].id in EndedIds(a) && a[i].id in EndedIds(ab) {
    }
    forall i | 0 <= i < |b| ensures ab[|a| + i] == b[i] && b[i].id in EndedIds(b) && b[i].id in EndedIds(ab) {
      assert ab[|a| + i].id in EndedIds(ab);
    }
    if EndedOnce(a) && EndedOnce(b) && EndedIds(a) !! EndedIds(b) {
      forall i, j | 0 <= i < j < |ab| ensures ab[i].id != ab[j].id {
        if i < |a| <= j {
          assert ab[i].id in EndedIds(a) && b[j - |a|].id in EndedIds(b);
        }
      }
    }
  }

  lemma TickEnds(cfg: Config, s: State, now: int)
    ensures Next(cfg, s, Tick(now)).ended == s.ended + DeadList(cfg.timing, s.ring.slots, now)
  {
  }

  lemma TickLedger(cfg: Config, s: State, now: int)
    requires Ledger(cfg, s)
    ensures Ledger(cfg, Next(cfg, s, Tick(now)))
  {
    var t, slots := cfg.timing, s.ring.slots;
    TimeoutsOk(t, s.ring, now);
    DeadListIds(t, slots, now);
    var ix, es := Dying(t, slots, now, |slots|), DeadList(t, slots, now);
    forall a, b | 0 <= a < b < |es| ensures es[a].id != es[b].id {
      assert ix[a] in ix && ix[b] in ix && ix[a] < ix[b];
    }
    EndedAppend(s.ended, es);
    var slots' := CheckTimeouts(t, s.ring, now).slots;
    forall i | 0 <= i < |slots'| && slots'[i].active
      ensures slots'[i].msgID in s.sent && slots'[i].frags == Frags(cfg.codec, slots'[i].msgID, s.sent[slots'[i].msgID])
    {
      assert slots[i].active && slots'[i].frags == slots[i].frags && slots'[i].msgID == slots[i].msgID;
    }
  }

  /** The ledger depends only on the ring, the counter and the history of sends and ends. */
  lemma LedgerFrame(cfg: Config, q: State, s: State)
    requires Ledger(cfg, q) && s.ring == q.ring && s.counter == q.counter && s.sent == q.sent && s.ended == q.ended && s.taken <= q.taken
    ensures Ledger(cfg, s)
  {
  }

  lemma LoggedLedger(cfg: Config, s: State, id: u64, appendOk: bool, ackOk: bool)
    requires Ledger(cfg, s) && id in s.sent
    ensures Ledger(cfg, Logged(cfg, s, id, appendOk, ackOk))
  {
    EndLedger(cfg, s, id, Failed, ackOk);
    LedgerFrame(cfg, if appendOk then s else End(cfg, s, id, Failed, ackOk), Logged(cfg, s, id, appendOk, ackOk));
  }

  lemma TakeIdLedger(cfg: Config, s: State)
    requires Ledger(cfg, s) && Enabled(cfg, s, TakeId)
    ensures Ledger(cfg, Next(cfg, s, TakeId))
  {
  }

  /** What an enabled EnterRing does: the payload is refused, or it is put into a free slot. */
  lemma EnterCases(cfg: Config, s: State, step: Step)
    requires FreeOk(s.ring) && step.EnterRing? && Enabled(cfg, s, step)
    ensures var id, o := step.id, step.msg;
            if Split(cfg.codec, id, o.ct, o.pri, o.payload).None? then Next(cfg, s, step) == s.(taken := s.taken - {id})
            else
              && s.ring.free != [] && s.ring.free[|s.ring.free| - 1] < |s.ring.slots|
              && var q := Enter(cfg, s, id, o, step.now);
                 Next(cfg, s, step) == if cfg.wal then q.(logging := q.logging + {id}) else q.(writing := q.writing + {id})
  {
    if s.ring.free != [] {
      assert s.ring.free[|s.ring.free| - 1] in s.ring.free;
    }
  }

  lemma EnterRingLedger(cfg: Config, s: State, step: Step)
    requires Ledger(cfg, s) && step.EnterRing? && Enabled(cfg, s, step)
    ensures Ledger(cfg, Next(cfg, s, step))
  {
    var id, o := step.id, step.msg;
    EnterCases(cfg, s, step);
    if Split(cfg.codec, id, o.ct, o.pri, o.payload).None? {
      LedgerFrame(cfg, s, Next(cfg, s, step));
    } else {
      EnterLedger(cfg, s, id, o, step.now);
      LedgerFrame(cfg, Enter(cfg, s, id, o, step.now), Next(cfg, s, step));
    }
  }

  lemma NextLedger(cfg: Config, s: State, step: Step)
    requires Ledger(cfg, s) && Enabled(cfg, s, step)
    ensures Ledger(cfg, Next(cfg, s, step))
  {
    match step {
      case TakeId => TakeIdLedger(cfg, s);
      case EnterRing(_, _, _) => EnterRingLedger(cfg, s, step);
      case AppendLog(id, appendOk, ackOk) => LoggedLedger(cfg, s, id, appendOk, ackOk);
      case SendReturns(_) =>
      case WriteFails(id, ackOk) => EndLedger(cfg, s, id, Failed, ackOk);
      case GetAck(id, ackOk) => EndLedger(cfg, s, id, Acked, ackOk);
      case GetNack(id, ackOk) => EndLedger(cfg, s, id, Nacked, ackOk);
      case Tick(now) => TickLedger(cfg, s, now);
      case Reconnect(now) => ReplayOk(s.ring, now);
      case Snapshot =>
      case Swap =>
    }
  }

  /** Only taking an ID and entering the ring change the IDs and the messages sent. */
  lemma OtherSteps(cfg: Config, s: State, step: Step)
    requires !step.TakeId? && !step.EnterRing?
    ensures var s' := Next(cfg, s, step); s'.sent == s.sent && s'.taken == s.taken && s'.counter == s.counter
  {
    match step {
      case AppendLog(_, _, _) =>
      case Tick(_) =>
      case Reconnect(_) =>
      case _ =>
    }
  }

  /** Messages once sent keep their ID and content. */
  ghost predicate Grows(w: World, w': World) { forall id :: id in w ==> id in w' && w'[id] == w[id] }

  lemma NextGrows(cfg: Config, s: State, step: Step)
    requires Ledger(cfg, s) && Enabled(cfg, s, step)
    ensures Grows(s.sent, Next(cfg, s, step).sent)
  {
    match step {
      case EnterRing(_, _, _) => EnterCases(cfg, s, step);
      case TakeId =>
      case _ => OtherSteps(cfg, s, step);
    }
  }

  lemma {:induction false} LedgerAlways(cfg: Config, s: State, steps: seq<Step>)
    requires Ledger(cfg, s) && Legal(cfg, s, steps)
    ensures Ledger(cfg, Exec(cfg, s, steps))
  {
    if steps != [] {
      LedgerAlways(cfg, s, steps[..|steps| - 1]);
      NextLedger(cfg, Exec(cfg, s, steps[..|steps| - 1]), steps[|steps| - 1]);
    }
  }

  /** IDs start at 1. */
  lemma {:induction false} PositiveAlways(cfg: Config, n: nat, steps: seq<Step>)
    requires Legal(cfg, Start(n), steps)
    ensures forall id :: id in Exec(cfg, Start(n), steps).sent ==> id > 0
  {
    if steps != [] {
      var front, step := steps[..|steps| - 1], steps[|steps| - 1];
      var s := Exec(cfg, Start(n), front);
      PositiveAlways(cfg, n, front);
      StartLedger(cfg, n);
      LedgerAlways(cfg, Start(n), front);
      if step.EnterRing? {
        EnterCases(cfg, s, step);
      }
    }
  }

  lemma StartLedger(cfg: Config, n: nat)
    ensures Ledger(cfg, Start(n))
  {
    NewRingOk(n);
  }

  datatype Tally = Tally(acked: nat, nacked: nat, failed: nat, exhausted: nat)

  /** How many messages ended for each cause. */
  function Count(es: seq<Ended>): Tally
  {
    if es == [] then Tally(0, 0, 0, 0)
    else
      var t := Count(es[..|es| - 1]);
      match es[|es| - 1].cause
      case Acked => t.(acked := t.acked + 1)
      case Nacked => t.(nacked := t.nacked + 1)
      case Failed => t.(failed := t.failed + 1)
      case Exhausted(_) => t.(exhausted := t.exhausted + 1)
  }

  lemma {:induction false} EveryEndCounted(es: seq<Ended>)
    ensures var t := Count(es); |es| == t.acked + t.nacked + t.failed + t.exhausted
  {
    if es != [] {
      EveryEndCounted(es[..|es| - 1]);
    }
  }

  predicate IsAcked(c: Cause) { c.Acked? }
  predicate IsNacked(c: Cause) { c.Nacked? }
  predicate IsFailed(c: Cause) { c.Failed? }
  predicate IsExhausted(c: Cause) { c.Exhausted? }

  function EndsWith(es: seq<Ended>, p: Cause -> bool): set<int> { set k | 0 <= k < |es| && p(es[k].cause) }

  lemma EndsWithSnoc(es: seq<Ended>, p: Cause -> bool)
    requires es != []
    ensures |EndsWith(es, p)| == |EndsWith(es[..|es| - 1], p)| + if p(es[|es| - 1].cause) then 1 else 0
  {
    var n := |es| - 1;
    assert EndsWith(es, p) == EndsWith(es[..n], p) + if p(es[n].cause) then {n} else {};
  }

  /** Each count is of the ends for that cause. */
  lemma {:induction false} CountIs(es: seq<Ended>)
    ensures var t := Count(es);
            && t.acked == |EndsWith(es, IsAcked)| && t.nacked == |EndsWith(es, IsNacked)|
            && t.failed == |EndsWith(es, IsFailed)| && t.exhausted == |EndsWith(es, IsExhausted)|
  {
    if es != [] {
      CountIs(es[..|es| - 1]);
      EndsWithSnoc(es, IsAcked);
      EndsWithSnoc(es, IsNacked);
      EndsWithSnoc(es, IsFailed);
      EndsWithSnoc(es, IsExhausted);
    }
  }

  /** What an acknowledgement, a refusal and a failed write do to a message in the ring, and to any other. */
  lemma EndsOf(cfg: Config, s: State, id: u64, ackOk: bool)
    requires Ledger(cfg, s)
    ensures var a, n := Next(cfg, s, GetAck(id, ackOk)), Next(cfg, s, GetNack(id, ackOk));
            if id in ActiveIds(s.ring.slots) then
              && a.ended == s.ended + [Ended(id, Acked)] && n.ended == s.ended + [Ended(id, Nacked)]
              && ActiveIds(a.ring.slots) == ActiveIds(n.ring.slots) == ActiveIds(s.ring.slots) - {id}
              && a.sent == n.sent == s.sent
            else a == s == n
    ensures id in s.writing && id in ActiveIds(s.ring.slots) ==>
              var f := Next(cfg, s, WriteFails(id, ackOk));
              && f.ended == s.ended + [Ended(id, Failed)] && ActiveIds(f.ring.slots) == ActiveIds(s.ring.slots) - {id}
              && id !in f.writing
  {
    ReleaseOk(s.ring, id);
  }

  /** Where each Send that is under way is. */
  ghost predicate Phases(s: State)
  {
    && (forall id :: id in s.taken ==> 0 < id <= s.counter && id !in s.sent && id !in s.logging && id !in s.writing)
    && (forall id :: id in s.logging ==> id in s.sent && id !in s.writing)
    && (forall id :: id in s.writing ==> id in s.sent)
    && (forall id :: id in s.sent ==> id <= s.counter)
  }

  lemma EnterPhases(cfg: Config, s: State, id: u64, o: Outgoing, now: int)
    requires Phases(s) && Enabled(cfg, s, EnterRing(id, o, now))
    ensures Phases(Next(cfg, s, EnterRing(id, o, now)))
  {
  }

  lemma AppendPhases(cfg: Config, s: State, id: u64, appendOk: bool, ackOk: bool)
    requires Phases(s) && Enabled(cfg, s, AppendLog(id, appendOk, ackOk))
    ensures Phases(Next(cfg, s, AppendLog(id, appendOk, ackOk)))
  {
  }

  lemma OtherPhases(cfg: Config, s: State, step: Step)
    requires Phases(s) && Enabled(cfg, s, step) && !step.EnterRing? && !step.AppendLog?
    ensures Phases(Next(cfg, s, step))
  {
    if step.TakeId? {
      assert s.counter + 1 !in s.sent;
    }
  }

  lemma NextPhases(cfg: Config, s: State, step: Step)
    requires Phases(s) && Enabled(cfg, s, step)
    ensures Phases(Next(cfg, s, step))
  {
    if step.EnterRing? {
      EnterPhases(cfg, s, step.id, step.msg, step.now);
    } else if step.AppendLog? {
      AppendPhases(cfg, s, step.id, step.appendOk, step.ackOk);
    } else {
      OtherPhases(cfg, s, step);
    }
  }

  /** The Send of a message is over. */
  predicate Returned(s: State, id: u64) { id in s.sent && id !in s.taken && id !in s.logging && id !in s.writing }

  ghost predicate SameFailures(id: u64, a: seq<Ended>, b: seq<Ended>)
  {
    |a| <= |b| && b[..|a|] == a && forall k :: |a| <= k < |b| ==> b[k] != Ended(id, Failed)
  }

  lemma ReturnedNext(cfg: Config, s: State, step: Step, id: u64)
    requires Phases(s) && Enabled(cfg, s, step) && Returned(s, id)
    ensures Returned(Next(cfg, s, step), id) && SameFailures(id, s.ended, Next(cfg, s, step).ended)
  {
    if step.TakeId? {
      assert id != s.counter + 1;
    }
  }

  lemma {:induction false} ReturnedRun(cfg: Config, s: State, steps: seq<Step>, id: u64)
    requires Phases(s) && Legal(cfg, s, steps) && Returned(s, id)
    ensures Phases(Exec(cfg, s, steps)) && Returned(Exec(cfg, s, steps), id) && SameFailures(id, s.ended, Exec(cfg, s, steps).ended)
  {
    if steps != [] {
      ReturnedRun(cfg, s, steps[..|steps| - 1], id);
      NextPhases(cfg, Exec(cfg, s, steps[..|steps| - 1]), steps[|steps| - 1]);
      ReturnedNext(cfg, Exec(cfg, s, steps[..|steps| - 1]), steps[|steps| - 1], id);
    }
  }

  lemma {:induction false} PhasesAlways(cfg: Config, n: nat, steps: seq<Step>)
    requires Legal(cfg, Start(n), steps)
    ensures Phases(Exec(cfg, Start(n), steps))
  {
    if steps != [] {
      PhasesAlways(cfg, n, steps[..|steps| - 1]);
      NextPhases(cfg, Exec(cfg, Start(n), steps[..|steps| - 1]), steps[|steps| - 1]);
    }
  }

  /**
   * Send's success is final: after it has returned, whatever happens, its message is never taken out
   * of the ring as failed.  It stays there or ends by an acknowledgement, a refusal or its last retry.
   */
  lemma ReturnedNeverFails(cfg: Config, n: nat, steps: seq<Step>, id: u64, more: seq<Step>)
    requires Legal(cfg, Start(n), steps) && Enabled(cfg, Exec(cfg, Start(n), steps), SendReturns(id))
    requires Legal(cfg, Next(cfg, Exec(cfg, Start(n), steps), SendReturns(id)), more)
    ensures var s := Next(cfg, Exec(cfg, Start(n), steps), SendReturns(id));
            var s' := Exec(cfg, s, more);
            SameFailures(id, s.ended, s'.ended) && !Enabled(cfg, s', WriteFails(id, true)) && !Enabled(cfg, s', AppendLog(id, true, true))
  {
    PhasesAlways(cfg, n, steps);
    NextPhases(cfg, Exec(cfg, Start(n), steps), SendReturns(id));
    ReturnedRun(cfg, Next(cfg, Exec(cfg, Start(n), steps), SendReturns(id)), more, id);
  }

  /** A log append that fails takes the message out of the ring again. */
  lemma AppendFails(cfg: Config, s: State, id: u64, ackOk: bool)
    requires Ledger(cfg, s) && id in s.logging && id in ActiveIds(s.ring.slots)
    ensures var f := Next(cfg, s, AppendLog(id, false, ackOk));
            && id in s.sent && f.ended == s.ended + [Ended(id, Failed)] && ActiveIds(f.ring.slots) == ActiveIds(s.ring.slots) - {id}
            && id !in f.logging && id !in f.writing - s.writing
  {
    assert id in s.sent.Keys;
    ReleaseOk(s.ring, id);
  }

  lemma {:induction false} EndedSize(es: seq<Ended>)
    requires EndedOnce(es)
    ensures |EndedIds(es)| == |es|
  {
    if es != [] {
      var n := |es| - 1;
      EndedSize(es[..n]);
      assert es == es[..n] + [es[n]];
      EndedSnoc(es[..n], es[n]);
      assert es[n].id !in EndedIds(es[..n]);
    }
  }

  /**
   * Conservation, in every run: the messages that entered the ring are those in it plus those
   * acknowledged, refused, failed and exhausted, and the slots are the free ones plus those in use.
   */
  lemma Conservation(cfg: Config, n: nat, steps: seq<Step>)
    requires Legal(cfg, Start(n), steps)
    ensures var s := Exec(cfg, Start(n), steps);
            var t := Count(s.ended);
            && |s.sent| == |ActiveIds(s.ring.slots)| + t.acked + t.nacked + t.failed + t.exhausted
            && |s.ring.free| + |ActiveIds(s.ring.slots)| == |s.ring.slots| == n
  {
    var s := Exec(cfg, Start(n), steps);
    StartLedger(cfg, n);
    LedgerAlways(cfg, Start(n), steps);
    EveryEndCounted(s.ended);
    EndedSize(s.ended);
    SlotsAccounted(s.ring);
    assert |s.sent.Keys| == |ActiveIds(s.ring.slots)| + |EndedIds(s.ended)|;
    RingSize(cfg, Start(n), steps);
    NewRingOk(n);
  }

  lemma NextRingSize(cfg: Config, s: State, step: Step)
    ensures |Next(cfg, s, step).ring.slots| == |s.ring.slots|
  {
    match step {
      case EnterRing(_, _, _) =>
      case _ =>
    }
  }

  lemma {:induction false} RingSize(cfg: Config, s: State, steps: seq<Step>)
    ensures |Exec(cfg, s, steps).ring.slots| == |s.ring.slots|
  {
    if steps != [] {
      RingSize(cfg, s, steps[..|steps| - 1]);
      NextRingSize(cfg, Exec(cfg, s, steps[..|steps| - 1]), steps[|steps| - 1]);
    }
  }

  /**
   * Callback exclusivity: in every run, whatever duplicate or late acknowledgements arrive, a
   * message ends at most once, so it gets at most one OnAck or one OnDead for exhaustion, and
   * never both; and one that ended is no longer retransmitted.
   */
  lemma OneEndPerMessage(cfg: Config, n: nat, steps: seq<Step>)
    requires Legal(cfg, Start(n), steps)
    ensures var s := Exec(cfg, Start(n), steps);
            && (forall i, j :: 0 <= i < j < |s.ended| ==> s.ended[i].id != s.ended[j].id)
            && (forall i :: 0 <= i < |s.ended| ==> s.ended[i].id in s.sent && s.ended[i].id !in ActiveIds(s.ring.slots))
  {
    StartLedger(cfg, n);
    LedgerAlways(cfg, Start(n), steps);
    var s := Exec(cfg, Start(n), steps);
    forall i | 0 <= i < |s.ended| ensures s.ended[i].id in s.sent.Keys && s.ended[i].id !in ActiveIds(s.ring.slots) {
      assert s.ended[i].id in EndedIds(s.ended);
    }
  }
}
