/** The broker's retransmission ring and its stack of free slots (pkg/broker). */
module Slots {
  import opened Bytes
  import opened Protocol
  import opened Floats

  datatype Slot = Slot(msgID: u64, frags: seq<Message>, sendTime: int, retries: nat, dead: bool, active: bool)

  datatype Ring = Ring(slots: seq<Slot>, free: seq<nat>)

  /**
   * Retry timing, in nanoseconds.  `outOfRange` is what the platform makes of a floating-point
   * duration that does not fit 63 bits; the language leaves it open.
   */
  datatype Timing = Timing(ackTimeout: nat, maxRetries: nat, outOfRange: int)

  const BACKOFF_CAP: int := 30_000_000_000

  /** Products from here on round up to 2^63 or more: half a unit in the last place below it. */
  const DURATION_LIMIT: int := INT64 - 512

  /** The product of the rounded base and a power of two, which is exact until it leaves 63 bits. */
  function Backoff(t: Timing, retries: nat): int
  {
    var product := ToFloat(t.ackTimeout) * Pow2(retries);
    var d := if product < INT64 then product else t.outOfRange;
    if d > BACKOFF_CAP then BACKOFF_CAP else d
  }

  /** The waiting time the design asks for: doubled at each retry, at most 30 seconds. */
  function Wait(t: Timing, retries: nat): int
  {
    var exact := t.ackTimeout * Pow2(retries);
    if exact > BACKOFF_CAP then BACKOFF_CAP else exact
  }

  /**
   * The code waits as designed exactly while the product stays below 2^63 - 512, so that it does
   * not round up to 2^63, or where the platform saturates.
   */
  lemma BackoffIsWaitIff(t: Timing, retries: nat)
    ensures Backoff(t, retries) == Wait(t, retries)
       <==> t.ackTimeout * Pow2(retries) < DURATION_LIMIT || t.outOfRange >= BACKOFF_CAP
  {
    var exact := t.ackTimeout * Pow2(retries);
    ToFloatScales(t.ackTimeout, retries);
    ToFloatFitsIff(exact);
    if exact >= EXACT {
      RoundLarge(exact, false);
    }
  }

  /** The wait in nanoseconds while the product fits: doubled at each retry, at most 30 seconds. */
  lemma BackoffValue(t: Timing, retries: nat)
    requires t.ackTimeout * Pow2(retries) < 0x8000_0000_0000_0000 - 512
    ensures Backoff(t, retries) ==
            if t.ackTimeout * Pow2(retries) > 30_000_000_000 then 30_000_000_000 else t.ackTimeout * Pow2(retries)
    ensures retries > 0 ==> Pow2(retries) == Pow2(retries - 1) + Pow2(retries - 1)
    ensures Pow2(0) == 1
  {
    BackoffIsWaitIff(t, retries);
  }

  // ---------------------------------------------------------------- operations

  function Idle(): Slot { Slot(0, [], 0, 0, false, false) }

  function NewRing(n: nat): Ring
  {
    Ring(seq(n, _ => Idle()), seq(n, i => i))
  }

  function Enqueue(r: Ring, id: u64, frags: seq<Message>, now: int): Ring
    requires r.free != [] && r.free[|r.free| - 1] < |r.slots|
  {
    var top := |r.free| - 1;
    Ring(r.slots[r.free[top] := Slot(id, frags, now, 0, false, true)], r.free[..top])
  }

  /** The first active slot of `id` at or after `from`; the ring size when there is none. */
  function Find(slots: seq<Slot>, id: u64, from: nat): (i: nat)
    requires from <= |slots|
    ensures from <= i <= |slots|
    ensures i < |slots| ==> slots[i].active && slots[i].msgID == id
    ensures forall j :: from <= j < i ==> !(slots[j].active && slots[j].msgID == id)
    decreases |slots| - from
  {
    if from == |slots| || (slots[from].active && slots[from].msgID == id) then from else Find(slots, id, from + 1)
  }

  function Release(r: Ring, id: u64): Ring
  {
    var i := Find(r.slots, id, 0);
    if i == |r.slots| then r else Ring(r.slots[i := r.slots[i].(active := false)], r.free + [i])
  }

  predicate Expired(t: Timing, s: Slot, now: int)
  {
    s.active && !s.dead && now >= s.sendTime + Backoff(t, s.retries)
  }

  predicate Dies(t: Timing, s: Slot, now: int) { Expired(t, s, now) && s.retries >= t.maxRetries }
  predicate Retries(t: Timing, s: Slot, now: int) { Expired(t, s, now) && s.retries < t.maxRetries }

  function Aged(t: Timing, s: Slot, now: int): Slot
  {
    if Dies(t, s, now) then s.(dead := true, active := false)
    else if Retries(t, s, now) then s.(retries := s.retries + 1, sendTime := now)
    else s
  }

  /** The indices below `n` of the slots that die, in ring order. */
  function Dying(t: Timing, slots: seq<Slot>, now: int, n: nat): (ix: seq<nat>)
    requires n <= |slots|
    ensures forall i :: i in ix <==> 0 <= i < n && Dies(t, slots[i], now)
    ensures forall a :: 0 <= a < |ix| ==> ix[a] < n
    ensures forall a, b :: 0 <= a < b < |ix| ==> ix[a] < ix[b]
  {
    if n == 0 then [] else Dying(t, slots, now, n - 1) + if Dies(t, slots[n - 1], now) then [n - 1] else []
  }

  function AgeAll(t: Timing, slots: seq<Slot>, now: int): seq<Slot>
  {
    seq(|slots|, i requires 0 <= i < |slots| => Aged(t, slots[i], now))
  }

  function CheckTimeouts(t: Timing, r: Ring, now: int): Ring
  {
    Ring(AgeAll(t, r.slots, now), r.free + Dying(t, r.slots, now, |r.slots|))
  }

  function Renewed(s: Slot, now: int): Slot
  {
    if s.active && !s.dead then s.(sendTime := now, retries := 0) else s
  }

  function ReplayUnacked(r: Ring, now: int): Ring
  {
    Ring(seq(|r.slots|, i requires 0 <= i < |r.slots| => Renewed(r.slots[i], now)), r.free)
  }

  // ---------------------------------------------------------------- invariant

  /** The free stack has no duplicate and holds exactly the inactive slots. */
  ghost predicate FreeOk(r: Ring)
  {
    && (forall a, b :: 0 <= a < b < |r.free| ==> r.free[a] != r.free[b])
    && (forall i :: i in r.free <==> 0 <= i < |r.slots| && !r.slots[i].active)
  }

  /** No active slot is dead and no two active slots carry the same ID. */
  ghost predicate ActiveOk(r: Ring)
  {
    && (forall i :: 0 <= i < |r.slots| && r.slots[i].active ==> !r.slots[i].dead)
    && (forall i, j :: 0 <= i < j < |r.slots| && r.slots[i].active && r.slots[j].active ==> r.slots[i].msgID != r.slots[j].msgID)
  }

  ghost predicate RingOk(r: Ring) { FreeOk(r) && ActiveOk(r) }

  function ActiveIds(slots: seq<Slot>): set<u64>
  {
    set i | 0 <= i < |slots| && slots[i].active :: slots[i].msgID
  }

  /** The IDs declared dead by one check. */
  function DyingIds(t: Timing, slots: seq<Slot>, now: int): set<u64>
  {
    set i | 0 <= i < |slots| && Dies(t, slots[i], now) :: slots[i].msgID
  }

  lemma NewRingOk(n: nat)
    ensures RingOk(NewRing(n)) && ActiveIds(NewRing(n).slots) == {} && |NewRing(n).slots| == n == |NewRing(n).free|
  {
    var r := NewRing(n);
    forall i ensures i in r.free <==> 0 <= i < n {
      if 0 <= i < n { assert r.free[i] == i; }
    }
  }

  lemma EnqueueFree(r: Ring, id: u64, frags: seq<Message>, now: int)
    requires FreeOk(r) && r.free != []
    ensures r.free[|r.free| - 1] < |r.slots|
    ensures var r' := Enqueue(r, id, frags, now);
            FreeOk(r') && ActiveIds(r'.slots) == ActiveIds(r.slots) + {id} && |r'.slots| == |r.slots| && |r'.free| == |r.free| - 1
  {
    var top := |r.free| - 1;
    var x := r.free[top];
    assert x in r.free;
    var r' := Enqueue(r, id, frags, now);
    assert r.free == r'.free + [x];
    forall i ensures i in r'.free <==> 0 <= i < |r'.slots| && !r'.slots[i].active {
      if i == x {
        assert x !in r'.free;
      } else {
        assert i in r.free <==> i in r'.free;
      }
    }
    IdsAfterSet(r.slots, x, r'.slots[x]);
  }

  lemma EnqueueOk(r: Ring, id: u64, frags: seq<Message>, now: int)
    requires RingOk(r) && r.free != [] && id !in ActiveIds(r.slots)
    ensures r.free[|r.free| - 1] < |r.slots|
    ensures var r' := Enqueue(r, id, frags, now);
            RingOk(r') && ActiveIds(r'.slots) == ActiveIds(r.slots) + {id} && |r'.slots| == |r.slots| && |r'.free| == |r.free| - 1
  {
    EnqueueFree(r, id, frags, now);
  }

  lemma IdsAfterSet(slots: seq<Slot>, x: nat, s: Slot)
    requires x < |slots| && !slots[x].active && s.active
    ensures ActiveIds(slots[x := s]) == ActiveIds(slots) + {s.msgID}
  {
    var slots' := slots[x := s];
    forall k | k in ActiveIds(slots) + {s.msgID} ensures k in ActiveIds(slots') {
      if k == s.msgID {
        assert slots'[x] == s;
      } else {
        var i :| 0 <= i < |slots| && slots[i].active && slots[i].msgID == k;
        assert slots'[i] == slots[i];
      }
    }
  }

  lemma ReleaseOk(r: Ring, id: u64)
    requires RingOk(r)
    ensures var r' := Release(r, id);
            && RingOk(r') && ActiveIds(r'.slots) == ActiveIds(r.slots) - {id} && |r'.slots| == |r.slots|
            && (id in ActiveIds(r.slots) ==> |r'.free| == |r.free| + 1)
            && (id !in ActiveIds(r.slots) ==> r' == r)
  {
    var i := Find(r.slots, id, 0);
    var r' := Release(r, id);
    if i < |r.slots| {
      assert i !in r.free;
      forall k ensures k in r'.free <==> 0 <= k < |r'.slots| && !r'.slots[k].active {
        assert k in r'.free <==> k in r.free || k == i;
      }
      forall k | k in ActiveIds(r.slots) - {id} ensures k in ActiveIds(r'.slots) {
        var j :| 0 <= j < |r.slots| && r.slots[j].active && r.slots[j].msgID == k;
        assert r'.slots[j] == r.slots[j];
      }
      assert id in ActiveIds(r.slots);
    }
  }

  lemma TimeoutsFree(t: Timing, r: Ring, now: int)
    requires FreeOk(r)
    ensures FreeOk(CheckTimeouts(t, r, now))
  {
    var r', ix := CheckTimeouts(t, r, now), Dying(t, r.slots, now, |r.slots|);
    forall i ensures i in r'.free <==> 0 <= i < |r'.slots| && !r'.slots[i].active {
      assert i in r'.free <==> i in r.free || i in ix;
    }
    forall a, b | 0 <= a < b < |r'.free| ensures r'.free[a] != r'.free[b] {
      if a < |r.free| <= b {
        assert r'.free[a] in r.free && r'.free[b] in ix;
      }
    }
  }

  lemma TimeoutsOk(t: Timing, r: Ring, now: int)
    requires RingOk(r)
    ensures var r' := CheckTimeouts(t, r, now);
            && RingOk(r') && |r'.slots| == |r.slots|
            && ActiveIds(r'.slots) == ActiveIds(r.slots) - DyingIds(t, r.slots, now)
            && DyingIds(t, r.slots, now) <= ActiveIds(r.slots)
  {
    var r' := CheckTimeouts(t, r, now);
    TimeoutsFree(t, r, now);
    forall k | k in ActiveIds(r.slots) - DyingIds(t, r.slots, now) ensures k in ActiveIds(r'.slots) {
      var j :| 0 <= j < |r.slots| && r.slots[j].active && r.slots[j].msgID == k;
      assert !Dies(t, r.slots[j], now);
      assert r'.slots[j].active && r'.slots[j].msgID == k;
    }
    forall k | k in ActiveIds(r'.slots) ensures k in ActiveIds(r.slots) - DyingIds(t, r.slots, now) {
      var j :| 0 <= j < |r.slots| && r'.slots[j].active && r'.slots[j].msgID == k;
      assert r.slots[j].active && !Dies(t, r.slots[j], now);
    }
  }

  /** A message takes the slot on top of the free stack, with all its retries and a fresh window; no other slot changes. */
  lemma EnteredSlot(r: Ring, id: u64, frags: seq<Message>, now: int, i: nat)
    requires r.free != [] && r.free[|r.free| - 1] < |r.slots| && i < |r.slots|
    ensures var r', top := Enqueue(r, id, frags, now), r.free[|r.free| - 1];
            && |r'.slots| == |r.slots| && r.free == r'.free + [top]
            && r'.slots[i] == if i == top then Slot(id, frags, now, 0, false, true) else r.slots[i]
  {
  }

  /** An end frees the lowest slot with that ID, which is the next to be taken; no other slot changes. */
  lemma FreedIsNext(r: Ring, id: u64) returns (i: nat)
    requires id in ActiveIds(r.slots)
    ensures var r' := Release(r, id);
            && i < |r.slots| && r.slots[i].active && r.slots[i].msgID == id
            && (forall j :: 0 <= j < i ==> !(r.slots[j].active && r.slots[j].msgID == id))
            && r'.free == r.free + [i] && |r'.slots| == |r.slots| && !r'.slots[i].active
            && (forall j :: 0 <= j < |r.slots| && j != i ==> r'.slots[j] == r.slots[j])
  {
    i := Find(r.slots, id, 0);
  }

  /** Slots that die in one check go on the free stack in ring order, so the highest is the next to be taken. */
  lemma DyingAreNext(t: Timing, r: Ring, now: int)
    ensures var free := CheckTimeouts(t, r, now).free;
            && |r.free| <= |free| && free[..|r.free|] == r.free
            && (forall a, b :: |r.free| <= a < b < |free| ==> free[a] < free[b])
            && (forall a :: |r.free| <= a < |free| ==> free[a] < |r.slots| && Dies(t, r.slots[free[a]], now))
  {
    var free, ix := CheckTimeouts(t, r, now).free, Dying(t, r.slots, now, |r.slots|);
    assert forall a :: |r.free| <= a < |free| ==> free[a] == ix[a - |r.free|] && free[a] in ix;
  }

  /** What one check does to each slot: it dies after its last wait, is retried, or stays. */
  lemma CheckedSlot(t: Timing, r: Ring, now: int, i: nat)
    requires i < |r.slots|
    ensures |CheckTimeouts(t, r, now).slots| == |r.slots|
    ensures var s, s' := r.slots[i], CheckTimeouts(t, r, now).slots[i];
            var due := s.active && !s.dead && now >= s.sendTime + Backoff(t, s.retries);
            && s'.msgID == s.msgID && s'.frags == s.frags
            && (!due ==> s' == s)
            && (due && s.retries >= t.maxRetries ==> !s'.active && s'.dead && i in CheckTimeouts(t, r, now).free)
            && (due && s.retries < t.maxRetries ==> s'.active && !s'.dead && s'.retries == s.retries + 1 && s'.sendTime == now)
  {
    var ix := Dying(t, r.slots, now, |r.slots|);
    assert Dies(t, r.slots[i], now) <==> i in ix;
  }

  /** What a reconnect does to each slot: a live one gets all its retries and a fresh window. */
  lemma RenewedSlot(r: Ring, now: int, i: nat)
    requires i < |r.slots|
    ensures |ReplayUnacked(r, now).slots| == |r.slots| && ReplayUnacked(r, now).free == r.free
    ensures var s, s' := r.slots[i], ReplayUnacked(r, now).slots[i];
            if s.active && !s.dead then s' == Slot(s.msgID, s.frags, now, 0, false, true) else s' == s
  {
  }

  lemma ReplayOk(r: Ring, now: int)
    requires RingOk(r)
    ensures var r' := ReplayUnacked(r, now);
            RingOk(r') && ActiveIds(r'.slots) == ActiveIds(r.slots) && |r'.slots| == |r.slots|
  {
    var r' := ReplayUnacked(r, now);
    forall k | k in ActiveIds(r.slots) ensures k in ActiveIds(r'.slots) {
      var j :| 0 <= j < |r.slots| && r.slots[j].active && r.slots[j].msgID == k;
      assert r'.slots[j].active && r'.slots[j].msgID == k;
    }
  }

  // ---------------------------------------------------------------- counting

  function ActiveCount(slots: seq<Slot>): nat
  {
    if slots == [] then 0 else ActiveCount(slots[..|slots| - 1]) + if slots[|slots| - 1].active then 1 else 0
  }

  lemma ActiveIdsSnoc(slots: seq<Slot>)
    requires slots != []
    ensures var n := |slots| - 1;
            ActiveIds(slots) == ActiveIds(slots[..n]) + if slots[n].active then {slots[n].msgID} else {}
  {
    var n := |slots| - 1;
    forall k | k in ActiveIds(slots[..n]) ensures k in ActiveIds(slots) {
      var i :| 0 <= i < n && slots[..n][i].active && slots[..n][i].msgID == k;
      assert slots[i].active && slots[i].msgID == k;
    }
    forall k | k in ActiveIds(slots) ensures k in ActiveIds(slots[..n]) || (slots[n].active && k == slots[n].msgID) {
      var i :| 0 <= i < |slots| && slots[i].active && slots[i].msgID == k;
      assert i < n ==> slots[..n][i] == slots[i];
    }
  }

  lemma {:induction false} ActiveCountIds(slots: seq<Slot>)
    requires forall i, j :: 0 <= i < j < |slots| && slots[i].active && slots[j].active ==> slots[i].msgID != slots[j].msgID
    ensures |ActiveIds(slots)| == ActiveCount(slots)
  {
    if slots != [] {
      var n := |slots| - 1;
      ActiveCountIds(slots[..n]);
      ActiveIdsSnoc(slots);
      if slots[n].active {
        assert slots[n].msgID !in ActiveIds(slots[..n]);
      }
    }
  }

  function Inactive(slots: seq<Slot>): set<int>
  {
    set i | 0 <= i < |slots| && !slots[i].active
  }

  lemma {:induction false} InactiveCount(slots: seq<Slot>)
    ensures |Inactive(slots)| + ActiveCount(slots) == |slots|
  {
    if slots != [] {
      var n := |slots| - 1;
      InactiveCount(slots[..n]);
      assert Inactive(slots) == Inactive(slots[..n]) + if slots[n].active then {} else {n};
    }
  }

  lemma {:induction false} DistinctSize(s: seq<nat>, xs: set<int>)
    requires forall a, b :: 0 <= a < b < |s| ==> s[a] != s[b]
    requires forall x :: x in xs <==> x in s
    ensures |xs| == |s|
  {
    if s == [] {
      assert forall x :: x in xs ==> x in s;
      assert xs == {};
    } else {
      var n := |s| - 1;
      assert s == s[..n] + [s[n]];
      assert s[n] !in s[..n];
      DistinctSize(s[..n], xs - {s[n]});
    }
  }

  /** Every slot is either free or holds one message in flight. */
  lemma SlotsAccounted(r: Ring)
    requires RingOk(r)
    ensures |ActiveIds(r.slots)| + |r.free| == |r.slots|
  {
    ActiveCountIds(r.slots);
    InactiveCount(r.slots);
    DistinctSize(r.free, Inactive(r.slots));
  }
}
