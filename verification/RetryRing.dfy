/** The ring as the object the broker updates in place, each method against its specification (pkg/broker). */
module RetryRing {
  import opened Bytes
  import opened Protocol
  import opened Slots
  import Wal

  datatype Action = Action(idx: nat, dead: bool)

  datatype Tallies = Tallies(freed: seq<nat>, resent: seq<seq<Message>>, dead: seq<u64>)

  /** What the slots below `n` contribute to the free stack, to the resends and to the dead list. */
  function Tallied(t: Timing, slots: seq<Slot>, now: int, n: nat): Tallies
    requires n <= |slots|
  {
    if n == 0 then Tallies([], [], [])
    else
      var y, s := Tallied(t, slots, now, n - 1), slots[n - 1];
      if Dies(t, s, now) then y.(freed := y.freed + [n - 1], dead := y.dead + [s.msgID])
      else if Retries(t, s, now) then y.(resent := y.resent + [s.frags])
      else y
  }

  lemma {:induction false} FreedAreDying(t: Timing, slots: seq<Slot>, now: int, n: nat)
    requires n <= |slots|
    ensures Tallied(t, slots, now, n).freed == Dying(t, slots, now, n)
  {
    if n > 0 {
      FreedAreDying(t, slots, now, n - 1);
    }
  }

  function Replayed(slots: seq<Slot>, n: nat): seq<seq<Message>>
    requires n <= |slots|
  {
    if n == 0 then []
    else Replayed(slots, n - 1) + if slots[n - 1].active && !slots[n - 1].dead then [slots[n - 1].frags] else []
  }

  /** The dead list is the IDs of the dying slots, one for each, in ring order. */
  ghost predicate DeadOf(t: Timing, slots: seq<Slot>, now: int, dead: seq<u64>)
  {
    var ix := Dying(t, slots, now, |slots|);
    |dead| == |ix| && forall k :: 0 <= k < |ix| ==> dead[k] == slots[ix[k]].msgID
  }

  lemma {:induction false} DeadAreDying(t: Timing, slots: seq<Slot>, now: int, n: nat)
    requires n <= |slots|
    ensures var ix, dead := Dying(t, slots, now, n), Tallied(t, slots, now, n).dead;
            |dead| == |ix| && forall k :: 0 <= k < |ix| ==> dead[k] == slots[ix[k]].msgID
  {
    if n > 0 {
      DeadAreDying(t, slots, now, n - 1);
    }
  }

  /** The indices below `n` of the slots that are retried, in ring order. */
  function Retrying(t: Timing, slots: seq<Slot>, now: int, n: nat): (ix: seq<nat>)
    requires n <= |slots|
    ensures forall i :: i in ix <==> 0 <= i < n && Retries(t, slots[i], now)
    ensures forall a :: 0 <= a < |ix| ==> ix[a] < n
    ensures forall a, b :: 0 <= a < b < |ix| ==> ix[a] < ix[b]
  {
    if n == 0 then [] else Retrying(t, slots, now, n - 1) + if Retries(t, slots[n - 1], now) then [n - 1] else []
  }

  /** The resends are the fragments of the retried slots, one list for each, in ring order. */
  ghost predicate ResentOf(t: Timing, slots: seq<Slot>, now: int, resent: seq<seq<Message>>)
  {
    var ix := Retrying(t, slots, now, |slots|);
    |resent| == |ix| && forall k :: 0 <= k < |ix| ==> resent[k] == slots[ix[k]].frags
  }

  lemma {:induction false} ResentAreRetrying(t: Timing, slots: seq<Slot>, now: int, n: nat)
    requires n <= |slots|
    ensures var ix, resent := Retrying(t, slots, now, n), Tallied(t, slots, now, n).resent;
            |resent| == |ix| && forall k :: 0 <= k < |ix| ==> resent[k] == slots[ix[k]].frags
  {
    if n > 0 {
      ResentAreRetrying(t, slots, now, n - 1);
    }
  }

  /** The indices below `n` of the live slots, in ring order. */
  function Living(slots: seq<Slot>, n: nat): (ix: seq<nat>)
    requires n <= |slots|
    ensures forall i :: i in ix <==> 0 <= i < n && slots[i].active && !slots[i].dead
    ensures forall a :: 0 <= a < |ix| ==> ix[a] < n
    ensures forall a, b :: 0 <= a < b < |ix| ==> ix[a] < ix[b]
  {
    if n == 0 then [] else Living(slots, n - 1) + if slots[n - 1].active && !slots[n - 1].dead then [n - 1] else []
  }

  /** The replay is the fragments of the live slots, one list for each, in ring order. */
  ghost predicate ReplayOf(slots: seq<Slot>, replay: seq<seq<Message>>)
  {
    var ix := Living(slots, |slots|);
    |replay| == |ix| && forall k :: 0 <= k < |ix| ==> replay[k] == slots[ix[k]].frags
  }

  lemma {:induction false} ReplayedAreLiving(slots: seq<Slot>, n: nat)
    requires n <= |slots|
    ensures var ix, replay := Living(slots, n), Replayed(slots, n);
            |replay| == |ix| && forall k :: 0 <= k < |ix| ==> replay[k] == slots[ix[k]].frags
  {
    if n > 0 {
      ReplayedAreLiving(slots, n - 1);
      var ix, ix', replay := Living(slots, n - 1), Living(slots, n), Replayed(slots, n);
      forall k | 0 <= k < |ix'| ensures replay[k] == slots[ix'[k]].frags {
        assert k < |ix| ==> ix'[k] == ix[k];
      }
    }
  }

  /** Messages that enter a ring one after the other. */
  datatype Entrant = Entrant(id: u64, frags: seq<Message>)

  function EnterAll(n: nat, es: seq<Entrant>, now: int): (r: Ring)
    requires |es| <= n
    ensures |r.slots| == n && |r.free| == n - |es| && forall i :: 0 <= i < |r.free| ==> r.free[i] == i
    ensures forall i :: 0 <= i < |es| ==> r.slots[n - 1 - i] == Slot(es[i].id, es[i].frags, now, 0, false, true)
    ensures forall i :: 0 <= i < n - |es| ==> !r.slots[i].active
  {
    if es == [] then NewRing(n)
    else
      var r := EnterAll(n, es[..|es| - 1], now);
      Slots.Enqueue(r, es[|es| - 1].id, es[|es| - 1].frags, now)
  }

  function FragsOf(es: seq<Entrant>): seq<seq<Message>>
  {
    seq(|es|, i requires 0 <= i < |es| => es[i].frags)
  }

  predicate InSlot(s: Slot, frags: seq<Message>) { s.active && !s.dead && s.frags == frags }

  lemma {:induction false} ReplayedUpTo(slots: seq<Slot>, frags: seq<seq<Message>>, k: nat)
    requires |frags| <= |slots| && k <= |slots|
    requires forall i :: 0 <= i < |slots| - |frags| ==> !slots[i].active
    requires forall i :: 0 <= i < |frags| ==> InSlot(slots[|slots| - 1 - i], frags[i])
    ensures var lo := |slots| - |frags|;
            Replayed(slots, k) == if k <= lo then [] else Reversed(frags)[..k - lo]
  {
    if k > 0 {
      ReplayedUpTo(slots, frags, k - 1);
      var lo := |slots| - |frags|;
      if k > lo {
        var j := |slots| - k;
        assert InSlot(slots[|slots| - 1 - j], frags[j]);
        assert Reversed(frags)[..k - lo] == Reversed(frags)[..k - 1 - lo] + [frags[j]];
      }
    }
  }

  /** The free stack hands out the highest slot first and a replay goes up the ring: newest first. */
  lemma ReplayReverses(n: nat, es: seq<Entrant>, now: int)
    requires |es| <= n
    ensures Replayed(EnterAll(n, es, now).slots, n) == Reversed(FragsOf(es))
  {
    var slots, frags := EnterAll(n, es, now).slots, FragsOf(es);
    ReplayedUpTo(slots, frags, n);
    assert Reversed(frags)[..|es|] == Reversed(frags);
  }

  /** What the first pass decides for the slots from `i` on. */
  function ActionsFrom(t: Timing, slots: seq<Slot>, now: int, i: nat): seq<Action>
    requires i <= |slots|
    decreases |slots| - i
  {
    if i == |slots| then []
    else (if Expired(t, slots[i], now) then [Action(i, Dies(t, slots[i], now))] else []) + ActionsFrom(t, slots, now, i + 1)
  }

  /** The next action is for the first expired slot. */
  lemma {:induction false} FirstAction(t: Timing, slots: seq<Slot>, now: int, h: nat) returns (i: nat)
    requires h <= |slots|
    ensures h <= i <= |slots|
    ensures i < |slots| <==> ActionsFrom(t, slots, now, h) != []
    ensures i < |slots| ==> ActionsFrom(t, slots, now, h) == [Action(i, Dies(t, slots[i], now))] + ActionsFrom(t, slots, now, i + 1) && Expired(t, slots[i], now)
    ensures forall j :: h <= j < i ==> !Expired(t, slots[j], now)
    decreases |slots| - h
  {
    if h == |slots| || Expired(t, slots[h], now) {
      i := h;
    } else {
      i := FirstAction(t, slots, now, h + 1);
    }
  }

  /** Slots that are not due leave every tally as it is. */
  lemma {:induction false} NothingDue(t: Timing, slots: seq<Slot>, now: int, h: nat, i: nat)
    requires h <= i <= |slots| && forall j :: h <= j < i ==> !Expired(t, slots[j], now)
    ensures Tallied(t, slots, now, i) == Tallied(t, slots, now, h)
  {
    if h < i {
      NothingDue(t, slots, now, h, i - 1);
    }
  }

  /** One action's contribution. */
  function Tally(y: Tallies, s: Slot, a: Action): Tallies
  {
    if a.dead then y.(freed := y.freed + [a.idx], dead := y.dead + [s.msgID]) else y.(resent := y.resent + [s.frags])
  }

  /** The ring when its first `h` slots have been dealt with. */
  function AgedTo(t: Timing, slots: seq<Slot>, now: int, h: nat): seq<Slot>
  {
    seq(|slots|, i requires 0 <= i < |slots| => if i < h then Aged(t, slots[i], now) else slots[i])
  }

  /** The next action of the second pass, and what it leaves to do. */
  lemma NextAction(t: Timing, slots: seq<Slot>, now: int, rest: seq<Action>, h: nat) returns (i: nat)
    requires h <= |slots| && rest != [] && rest == ActionsFrom(t, slots, now, h)
    ensures h <= i < |slots| && rest[0] == Action(i, Dies(t, slots[i], now)) && Expired(t, slots[i], now)
    ensures rest[1..] == ActionsFrom(t, slots, now, i + 1)
    ensures AgedTo(t, slots, now, h)[i] == slots[i]
    ensures AgedTo(t, slots, now, i + 1) == AgedTo(t, slots, now, h)[i := Aged(t, slots[i], now)]
    ensures Tallied(t, slots, now, i + 1) == Tally(Tallied(t, slots, now, h), slots[i], rest[0])
  {
    i := FirstAction(t, slots, now, h);
    NothingDue(t, slots, now, h, i);
  }

  lemma LastAction(t: Timing, slots: seq<Slot>, now: int, h: nat)
    requires h <= |slots| && ActionsFrom(t, slots, now, h) == []
    ensures AgedTo(t, slots, now, h) == AgeAll(t, slots, now) && Tallied(t, slots, now, |slots|) == Tallied(t, slots, now, h)
  {
    var i := FirstAction(t, slots, now, h);
    NothingDue(t, slots, now, h, i);
  }

  /** The second pass when it has dealt with the first `h` slots: what is left to do, the ring and the tallies. */
  ghost predicate Progress(t: Timing, slots: seq<Slot>, now: int, h: nat, rest: seq<Action>, ring: seq<Slot>, free: seq<nat>, done: Tallies)
  {
    && h <= |slots| && rest == ActionsFrom(t, slots, now, h) && ring == AgedTo(t, slots, now, h)
    && var y := Tallied(t, slots, now, h); done == y.(freed := free + y.freed)
  }

  lemma StartProgress(t: Timing, slots: seq<Slot>, now: int, free: seq<nat>)
    ensures Progress(t, slots, now, 0, ActionsFrom(t, slots, now, 0), slots, free, Tallies(free, [], []))
  {
  }

  lemma ProgressStep(t: Timing, slots: seq<Slot>, now: int, h: nat, rest: seq<Action>, ring: seq<Slot>, free: seq<nat>, done: Tallies) returns (i: nat)
    requires Progress(t, slots, now, h, rest, ring, free, done) && rest != []
    ensures i < |ring| && rest[0] == Action(i, Dies(t, ring[i], now)) && Expired(t, ring[i], now)
    ensures Progress(t, slots, now, i + 1, rest[1..], ring[i := Aged(t, ring[i], now)], free, Tally(done, ring[i], rest[0]))
  {
    i := NextAction(t, slots, now, rest, h);
    TallyAfter(free, Tallied(t, slots, now, h), slots[i], rest[0]);
  }

  lemma EndProgress(t: Timing, slots: seq<Slot>, now: int, h: nat, ring: seq<Slot>, free: seq<nat>, done: Tallies)
    requires Progress(t, slots, now, h, [], ring, free, done)
    ensures ring == AgeAll(t, slots, now) && done == Tallied(t, slots, now, |slots|).(freed := free + Tallied(t, slots, now, |slots|).freed)
  {
    LastAction(t, slots, now, h);
  }

  /** Tallying on top of what was freed before. */
  lemma TallyAfter(free: seq<nat>, y: Tallies, s: Slot, a: Action)
    ensures Tally(y.(freed := free + y.freed), s, a) == Tally(y, s, a).(freed := free + Tally(y, s, a).freed)
  {
  }

  class RetryRing {
    const wal: bool
    var ring: array<Slot>
    var freeIdx: seq<nat>
    var log: Bytes

    ghost function Abs(): Ring
      reads this, ring
    {
      Ring(ring[..], freeIdx)
    }

    ghost predicate Valid()
      reads this, ring
    {
      RingOk(Abs())
    }

    constructor (n: nat, wal: bool, log: Bytes)
      ensures Valid() && fresh(ring) && Abs() == NewRing(n) && this.wal == wal && this.log == log
    {
      ring := new Slot[n](_ => Idle());
      freeIdx := seq(n, i => i);
      this.wal, this.log := wal, log;
      new;
      assert ring[..] == NewRing(n).slots;
      NewRingOk(n);
    }

    /** False when every slot is in use; the source then waits for one to be freed. */
    method Enqueue(id: u64, frags: seq<Message>, now: int) returns (ok: bool)
      requires FreeOk(Abs())
      modifies this`freeIdx, ring
      ensures FreeOk(Abs()) && ring == old(ring)
      ensures old(Valid()) && id !in ActiveIds(old(Abs()).slots) ==> Valid()
      ensures ok == (old(freeIdx) != [])
      ensures ok ==> old(Abs()).free[|old(Abs()).free| - 1] < |old(Abs()).slots| && Abs() == Slots.Enqueue(old(Abs()), id, frags, now)
      ensures !ok ==> Abs() == old(Abs())
    {
      if |freeIdx| == 0 {
        return false;
      }
      EnqueueFree(Abs(), id, frags, now);
      if Valid() && id !in ActiveIds(Abs().slots) {
        EnqueueOk(Abs(), id, frags, now);
      }
      var idx := freeIdx[|freeIdx| - 1];
      freeIdx := freeIdx[..|freeIdx| - 1];
      ring[idx] := Slot(id, frags, now, 0, false, true);
      ok := true;
    }

    /** Scan for the message's slot, free it and log the acknowledgement. */
    method FreeSlot(id: u64, ackOk: bool) returns (sendTime: int, found: bool)
      modifies this`freeIdx, this`log, ring
      ensures ring == old(ring) && (old(Valid()) ==> Valid())
      ensures Abs() == Release(old(Abs()), id)
      ensures found == (id in ActiveIds(old(Abs()).slots))
      ensures found ==> var i := Find(old(Abs()).slots, id, 0); i < |old(Abs()).slots| && sendTime == old(Abs()).slots[i].sendTime
      ensures log == old(log) + if found && wal && ackOk then Wal.RecordBytes(Wal.Record(Wal.OP_ACK, id, [])) else []
    {
      if Valid() {
        ReleaseOk(Abs(), id);
      }
      for i := 0 to ring.Length
        invariant ring[..] == old(ring[..]) && freeIdx == old(freeIdx) && log == old(log)
        invariant forall j :: 0 <= j < i ==> !(ring[j].active && ring[j].msgID == id)
      {
        if ring[i].active && ring[i].msgID == id {
          sendTime := ring[i].sendTime;
          assert i == Find(old(Abs()).slots, id, 0);
          assert old(Abs()).slots[i].msgID in ActiveIds(old(Abs()).slots);
          ring[i] := ring[i].(active := false);
          freeIdx := freeIdx + [i];
          if wal && ackOk {
            log := log + Wal.RecordBytes(Wal.Record(Wal.OP_ACK, id, []));
          }
          return sendTime, true;
        }
      }
      sendTime, found := 0, false;
    }

    /** First pass: what to do, without doing it. */
    method Decide(t: Timing, now: int) returns (actions: seq<Action>)
      ensures actions == ActionsFrom(t, ring[..], now, 0)
    {
      actions := [];
      for i := 0 to ring.Length
        invariant actions + ActionsFrom(t, ring[..], now, i) == ActionsFrom(t, ring[..], now, 0)
      {
        if !(!ring[i].active || ring[i].dead) && !(now < ring[i].sendTime + Backoff(t, ring[i].retries)) {
          actions := actions + [Action(i, ring[i].retries >= t.maxRetries)];
        }
      }
    }

    method ApplyOne(t: Timing, now: int, a: Action, toSend: seq<seq<Message>>, toDead: seq<u64>)
      returns (toSend': seq<seq<Message>>, toDead': seq<u64>)
      requires a.idx < ring.Length && Expired(t, ring[a.idx], now) && a.dead == Dies(t, ring[a.idx], now)
      modifies this`freeIdx, ring
      ensures ring == old(ring) && ring[..] == old(ring[..])[a.idx := Aged(t, old(ring[a.idx]), now)]
      ensures Tallies(freeIdx, toSend', toDead') == Tally(Tallies(old(freeIdx), toSend, toDead), old(ring[a.idx]), a)
    {
      toSend', toDead' := toSend, toDead;
      var s := ring[a.idx];
      if a.dead {
        ring[a.idx] := s.(dead := true, active := false);
        freeIdx := freeIdx + [a.idx];
        toDead' := toDead + [s.msgID];
      } else {
        ring[a.idx] := s.(retries := s.retries + 1, sendTime := now);
        toSend' := toSend + [s.frags];
      }
    }

    /** One turn of the second pass. */
    method ApplyNext(t: Timing, now: int, ghost slots: seq<Slot>, ghost h: nat, rest: seq<Action>, ghost free: seq<nat>,
                     toSend: seq<seq<Message>>, toDead: seq<u64>)
      returns (ghost h': nat, toSend': seq<seq<Message>>, toDead': seq<u64>)
      requires rest != [] && Progress(t, slots, now, h, rest, ring[..], free, Tallies(freeIdx, toSend, toDead))
      modifies this`freeIdx, ring
      ensures ring == old(ring) && Progress(t, slots, now, h', rest[1..], ring[..], free, Tallies(freeIdx, toSend', toDead'))
    {
      ghost var i := ProgressStep(t, slots, now, h, rest, ring[..], free, Tallies(freeIdx, toSend, toDead));
      toSend', toDead' := ApplyOne(t, now, rest[0], toSend, toDead);
      h' := i + 1;
    }

    /** Second pass: apply the decisions in order. */
    method Apply(t: Timing, now: int, actions: seq<Action>) returns (toSend: seq<seq<Message>>, toDead: seq<u64>)
      requires actions == ActionsFrom(t, ring[..], now, 0)
      modifies this`freeIdx, ring
      ensures ring == old(ring) && ring[..] == AgeAll(t, old(ring[..]), now)
      ensures var y := Tallied(t, old(ring[..]), now, ring.Length); freeIdx == old(freeIdx) + y.freed && toSend == y.resent && toDead == y.dead
      ensures ResentOf(t, old(ring[..]), now, toSend) && DeadOf(t, old(ring[..]), now, toDead)
    {
      DeadAreDying(t, ring[..], now, ring.Length);
      ResentAreRetrying(t, ring[..], now, ring.Length);
      ghost var slots, h := ring[..], 0;
      toSend, toDead := [], [];
      StartProgress(t, slots, now, freeIdx);
      for k := 0 to |actions|
        invariant Progress(t, slots, now, h, actions[k..], ring[..], old(freeIdx), Tallies(freeIdx, toSend, toDead))
      {
        assert actions[k..][1..] == actions[k + 1..];
        h, toSend, toDead := ApplyNext(t, now, slots, h, actions[k..], old(freeIdx), toSend, toDead);
      }
      EndProgress(t, slots, now, h, ring[..], old(freeIdx), Tallies(freeIdx, toSend, toDead));
    }

    method CheckTimeouts(t: Timing, now: int) returns (toSend: seq<seq<Message>>, toDead: seq<u64>)
      modifies this`freeIdx, ring
      ensures ring == old(ring) && (old(Valid()) ==> Valid())
      ensures Abs() == Slots.CheckTimeouts(t, old(Abs()), now)
      ensures ResentOf(t, old(ring[..]), now, toSend)
      ensures DeadOf(t, old(ring[..]), now, toDead)
      ensures toSend == Tallied(t, old(ring[..]), now, old(ring.Length)).resent
      ensures toDead == Tallied(t, old(ring[..]), now, old(ring.Length)).dead
    {
      DeadAreDying(t, ring[..], now, ring.Length);
      ResentAreRetrying(t, ring[..], now, ring.Length);
      var actions := Decide(t, now);
      toSend, toDead := Apply(t, now, actions);
      FreedAreDying(t, old(ring[..]), now, old(ring.Length));
      if old(Valid()) {
        TimeoutsOk(t, old(Abs()), now);
      }
    }

    method ReplayUnacked(now: int) returns (toReplay: seq<seq<Message>>)
      modifies ring
      ensures ring == old(ring) && freeIdx == old(freeIdx) && (old(Valid()) ==> Valid())
      ensures Abs() == Slots.ReplayUnacked(old(Abs()), now)
      ensures toReplay == Replayed(old(ring[..]), old(ring.Length)) && ReplayOf(old(ring[..]), toReplay)
    {
      ghost var slots := ring[..];
      toReplay := [];
      for i := 0 to ring.Length
        invariant |slots| == ring.Length && ring[..] == RenewedTo(slots, now, i) && toReplay == Replayed(slots, i)
      {
        var s := ring[i];
        assert s == ring[..][i] == slots[i];
        if s.active && !s.dead {
          toReplay := toReplay + [s.frags];
          ring[i] := s.(sendTime := now, retries := 0);
        }
        assert ring[..] == RenewedTo(slots, now, i)[i := Renewed(slots[i], now)];
      }
      AllRenewed(slots, freeIdx, now);
    }
  }

  /** The ring when its first `h` slots have been renewed. */
  function RenewedTo(slots: seq<Slot>, now: int, h: nat): seq<Slot>
  {
    seq(|slots|, i requires 0 <= i < |slots| => if i < h then Renewed(slots[i], now) else slots[i])
  }

  lemma AllRenewed(slots: seq<Slot>, free: seq<nat>, now: int)
    ensures Ring(RenewedTo(slots, now, |slots|), free) == Slots.ReplayUnacked(Ring(slots, free), now)
    ensures RingOk(Ring(slots, free)) ==> RingOk(Slots.ReplayUnacked(Ring(slots, free), now))
    ensures ReplayOf(slots, Replayed(slots, |slots|))
  {
    ReplayedAreLiving(slots, |slots|);
    if RingOk(Ring(slots, free)) {
      ReplayOk(Ring(slots, free), now);
    }
  }
}
