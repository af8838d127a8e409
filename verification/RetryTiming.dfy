/** How long a message is retried before it is declared dead (pkg/broker, checkTimeouts). */
module RetryTiming {
  import opened Bytes
  import opened Floats
  import opened Slots
  import opened Reassembly
  import opened Chunker
  import opened Broker

  /** The first `n` waiting times together. */
  function Total(t: Timing, n: nat): int
  {
    if n == 0 then 0 else Total(t, n - 1) + Wait(t, n - 1)
  }

  /** Durations stay inside 63 bits, also when rounded, up to the last retry, or the platform saturates them. */
  ghost predicate Sane(t: Timing)
  {
    t.ackTimeout > 0 && (t.ackTimeout * Pow2(t.maxRetries) < DURATION_LIMIT || t.outOfRange >= BACKOFF_CAP)
  }

  lemma BackoffSane(t: Timing, r: nat)
    requires Sane(t) && r <= t.maxRetries
    ensures Backoff(t, r) == Wait(t, r)
  {
    Pow2Monotone(r, t.maxRetries);
    MulMono(Pow2(r), Pow2(t.maxRetries), t.ackTimeout);
    BackoffIsWaitIff(t, r);
  }

  ghost predicate SlotTimed(t: Timing, began: map<u64, int>, resends: map<u64, nat>, s: Slot)
  {
    s.active ==>
      && s.msgID in began && s.msgID in resends
      && s.retries == resends[s.msgID] <= t.maxRetries
      && (Sane(t) ==> s.sendTime >= began[s.msgID] + Total(t, s.retries))
  }

  ghost predicate EndTimed(t: Timing, began: map<u64, int>, resends: map<u64, nat>, e: Ended)
  {
    e.cause.Exhausted? ==>
      && e.id in began && e.id in resends
      && resends[e.id] == t.maxRetries
      && (Sane(t) ==> e.cause.at >= began[e.id] + Total(t, t.maxRetries + 1))
  }

  ghost predicate Timed(cfg: Config, s: State)
  {
    && (forall i :: 0 <= i < |s.ring.slots| ==> SlotTimed(cfg.timing, s.began, s.resends, s.ring.slots[i]))
    && (forall k :: 0 <= k < |s.ended| ==> EndTimed(cfg.timing, s.began, s.resends, s.ended[k]))
  }

  lemma EndKeepsTimed(cfg: Config, s: State, id: u64, cause: Cause, ackOk: bool)
    requires Timed(cfg, s) && !cause.Exhausted?
    ensures Timed(cfg, End(cfg, s, id, cause, ackOk))
  {
  }

  lemma AgedTimed(t: Timing, s: State, i: nat, now: int)
    requires RingOk(s.ring) && i < |s.ring.slots|
    requires SlotTimed(t, s.began, s.resends, s.ring.slots[i])
    ensures var resends' := Bump(s.resends, RetryingIds(t, s.ring.slots, now));
            && SlotTimed(t, s.began, resends', Aged(t, s.ring.slots[i], now))
            && (Dies(t, s.ring.slots[i], now) ==> EndTimed(t, s.began, resends', Ended(s.ring.slots[i].msgID, Exhausted(now))))
  {
    var slot := s.ring.slots[i];
    var retrying := RetryingIds(t, s.ring.slots, now);
    if slot.active {
      if Sane(t) {
        BackoffSane(t, slot.retries);
      }
      if slot.msgID in retrying {
        var j :| 0 <= j < |s.ring.slots| && Retries(t, s.ring.slots[j], now) && s.ring.slots[j].msgID == slot.msgID;
        assert j == i;
      } else {
        assert !Retries(t, slot, now);
      }
    }
  }

  /** Ends already recorded are not disturbed by a tick: only active messages are retried. */
  lemma OldEndTimed(cfg: Config, s: State, k: nat, now: int)
    requires Ledger(cfg, s) && k < |s.ended| && EndTimed(cfg.timing, s.began, s.resends, s.ended[k])
    ensures EndTimed(cfg.timing, s.began, Bump(s.resends, RetryingIds(cfg.timing, s.ring.slots, now)), s.ended[k])
  {
    assert s.ended[k].id in EndedIds(s.ended);
    assert RetryingIds(cfg.timing, s.ring.slots, now) <= ActiveIds(s.ring.slots);
  }

  lemma NewEndTimed(cfg: Config, s: State, k: nat, now: int)
    requires Ledger(cfg, s) && Timed(cfg, s) && k < |DeadList(cfg.timing, s.ring.slots, now)|
    ensures EndTimed(cfg.timing, s.began, Bump(s.resends, RetryingIds(cfg.timing, s.ring.slots, now)), DeadList(cfg.timing, s.ring.slots, now)[k])
  {
    var ix := Dying(cfg.timing, s.ring.slots, now, |s.ring.slots|);
    assert ix[k] in ix;
    AgedTimed(cfg.timing, s, ix[k], now);
  }

  lemma TickTimed(cfg: Config, s: State, now: int)
    requires Ledger(cfg, s) && Timed(cfg, s)
    ensures Timed(cfg, Next(cfg, s, Tick(now)))
  {
    var t, s' := cfg.timing, Next(cfg, s, Tick(now));
    forall i | 0 <= i < |s'.ring.slots| ensures SlotTimed(t, s'.began, s'.resends, s'.ring.slots[i]) {
      AgedTimed(t, s, i, now);
    }
    forall k | 0 <= k < |s'.ended| ensures EndTimed(t, s'.began, s'.resends, s'.ended[k]) {
      if k < |s.ended| {
        OldEndTimed(cfg, s, k, now);
      } else {
        NewEndTimed(cfg, s, k - |s.ended|, now);
      }
    }
  }

  lemma ReconnectTimed(cfg: Config, s: State, now: int)
    requires Ledger(cfg, s) && Timed(cfg, s)
    ensures Timed(cfg, Next(cfg, s, Reconnect(now)))
  {
    var t, s' := cfg.timing, Next(cfg, s, Reconnect(now));
    forall i | 0 <= i < |s'.ring.slots| ensures SlotTimed(t, s'.began, s'.resends, s'.ring.slots[i]) {
      assert s.ring.slots[i].active ==> s.ring.slots[i].msgID in ActiveIds(s.ring.slots);
    }
    forall k | 0 <= k < |s'.ended| ensures EndTimed(t, s'.began, s'.resends, s'.ended[k]) {
      assert s.ended[k].id in EndedIds(s.ended);
    }
  }

  lemma EnterTimed(cfg: Config, s: State, id: u64, o: Outgoing, now: int)
    requires Ledger(cfg, s) && Timed(cfg, s) && id !in s.sent
    requires s.ring.free != [] && s.ring.free[|s.ring.free| - 1] < |s.ring.slots|
    ensures Timed(cfg, Enter(cfg, s, id, o, now))
  {
    var t, q := cfg.timing, Enter(cfg, s, id, o, now);
    assert id !in s.sent.Keys;
    forall i | 0 <= i < |q.ring.slots| ensures SlotTimed(t, q.began, q.resends, q.ring.slots[i]) {
      if i != s.ring.free[|s.ring.free| - 1] && s.ring.slots[i].active {
        assert s.ring.slots[i].msgID in ActiveIds(s.ring.slots);
      }
    }
    forall k | 0 <= k < |q.ended| ensures EndTimed(t, q.began, q.resends, q.ended[k]) {
      assert s.ended[k].id in EndedIds(s.ended);
    }
  }

  lemma LoggedTimed(cfg: Config, s: State, id: u64, appendOk: bool, ackOk: bool)
    requires Timed(cfg, s) && id in s.sent
    ensures Timed(cfg, Logged(cfg, s, id, appendOk, ackOk))
  {
    EndKeepsTimed(cfg, s, id, Failed, ackOk);
  }

  lemma NextTimed(cfg: Config, s: State, step: Step)
    requires Ledger(cfg, s) && Timed(cfg, s) && Enabled(cfg, s, step)
    ensures Timed(cfg, Next(cfg, s, step))
  {
    match step {
      case TakeId =>
      case EnterRing(id, o, now) =>
        EnterCases(cfg, s, step);
        if Split(cfg.codec, id, o.ct, o.pri, o.payload).Some? {
          EnterTimed(cfg, s, id, o, now);
        }
      case AppendLog(id, appendOk, ackOk) => LoggedTimed(cfg, s, id, appendOk, ackOk);
      case SendReturns(_) =>
      case WriteFails(id, ackOk) => EndKeepsTimed(cfg, s, id, Failed, ackOk);
      case GetAck(id, ackOk) => EndKeepsTimed(cfg, s, id, Acked, ackOk);
      case GetNack(id, ackOk) => EndKeepsTimed(cfg, s, id, Nacked, ackOk);
      case Tick(now) => TickTimed(cfg, s, now);
      case Reconnect(now) => ReconnectTimed(cfg, s, now);
      case Snapshot =>
      case Swap =>
    }
  }

  lemma {:induction false} TimedAlways(cfg: Config, s: State, steps: seq<Step>)
    requires Ledger(cfg, s) && Timed(cfg, s) && Legal(cfg, s, steps)
    ensures Timed(cfg, Exec(cfg, s, steps))
  {
    if steps != [] {
      var front := steps[..|steps| - 1];
      TimedAlways(cfg, s, front);
      LedgerAlways(cfg, s, front);
      NextTimed(cfg, Exec(cfg, s, front), steps[|steps| - 1]);
    }
  }

  /** Every message declared dead in `s` had waited out all its waiting times. */
  ghost predicate OnTime(cfg: Config, s: State)
  {
    forall k :: 0 <= k < |s.ended| && s.ended[k].cause.Exhausted? ==>
      s.ended[k].id in s.began && s.ended[k].cause.at >= s.began[s.ended[k].id] + Total(cfg.timing, cfg.timing.maxRetries + 1)
  }

  /**
   * The retry bound.  In every run, whatever the times of the ticks, a message is declared dead
   * only after exactly MaxRetries retransmissions; and, while durations fit, no earlier than the
   * sum of all its waiting times after it entered the ring (or after the last reconnect that
   * renewed it).
   */
  lemma DeadOnlyAfterAllRetries(cfg: Config, n: nat, steps: seq<Step>)
    requires Legal(cfg, Start(n), steps)
    ensures var s := Exec(cfg, Start(n), steps);
            && (forall k :: 0 <= k < |s.ended| && s.ended[k].cause.Exhausted? ==>
                  s.ended[k].id in s.resends && s.resends[s.ended[k].id] == cfg.timing.maxRetries)
            && (Sane(cfg.timing) ==> OnTime(cfg, s))
  {
    StartLedger(cfg, n);
    TimedAlways(cfg, Start(n), steps);
    var s := Exec(cfg, Start(n), steps);
    assert forall k :: 0 <= k < |s.ended| ==> EndTimed(cfg.timing, s.began, s.resends, s.ended[k]);
  }

  // ---------------------------------------------------------------- when durations overflow

  /** When the `k`th check of a slot that entered at time 0 finds it expired, at the earliest. */
  function Due(t: Timing, k: nat): int
  {
    if k == 0 then 0 else Due(t, k - 1) + if Backoff(t, k - 1) > 0 then Backoff(t, k - 1) else 0
  }

  /** One message, and a check whenever it is due. */
  function Punctual(t: Timing, o: Outgoing, k: nat): seq<Step>
  {
    if k == 0 then [TakeId, EnterRing(1, o, 0)] else Punctual(t, o, k - 1) + [Tick(Due(t, k))]
  }

  /** After `k` of the checks. */
  ghost predicate Tried(t: Timing, s: State, k: nat)
  {
    && |s.ring.slots| == 1 && s.ended == [] && s.began == map[1 := 0]
    && var slot := s.ring.slots[0];
       slot.msgID == 1 && slot.active && !slot.dead && slot.retries == k && slot.sendTime == Due(t, k)
  }

  ghost predicate Reached(cfg: Config, o: Outgoing, k: nat)
  {
    Legal(cfg, Start(1), Punctual(cfg.timing, o, k)) && Tried(cfg.timing, Exec(cfg, Start(1), Punctual(cfg.timing, o, k)), k)
  }

  lemma EntersFirst(cfg: Config, o: Outgoing)
    requires Split(cfg.codec, 1, o.ct, o.pri, o.payload).Some?
    ensures Reached(cfg, o, 0)
  {
    var run := Punctual(cfg.timing, o, 0);
    assert run[..1] == [TakeId] && run[..1][..0] == [];
    assert Legal(cfg, Start(1), run[..1][..0]) && Exec(cfg, Start(1), run[..1][..0]) == Start(1);
    var s := Next(cfg, Start(1), TakeId);
    assert Exec(cfg, Start(1), run[..1]) == s;
    assert s.ring.free == [0];
  }

  lemma ExpiredWhenDue(t: Timing, s: State, k: nat)
    requires k > 0 && Tried(t, s, k - 1)
    ensures Expired(t, s.ring.slots[0], Due(t, k))
  {
    var wait := Backoff(t, k - 1);
    assert Due(t, k) == Due(t, k - 1) + if wait > 0 then wait else 0;
  }

  lemma DyingOne(t: Timing, slots: seq<Slot>, now: int)
    requires |slots| == 1
    ensures Dying(t, slots, now, 1) == if Dies(t, slots[0], now) then [0] else []
    ensures DeadList(t, slots, now) == if Dies(t, slots[0], now) then [Ended(slots[0].msgID, Exhausted(now))] else []
    ensures AgeAll(t, slots, now) == [Aged(t, slots[0], now)]
  {
    assert Dying(t, slots, now, 0) == [];
  }

  /** One check of a ring with one slot. */
  lemma TickOne(cfg: Config, s: State, now: int)
    requires |s.ring.slots| == 1
    ensures var s', slot := Next(cfg, s, Tick(now)), s.ring.slots[0];
            && s'.ring.slots == [Aged(cfg.timing, slot, now)] && s'.began == s.began
            && s'.ended == s.ended + if Dies(cfg.timing, slot, now) then [Ended(slot.msgID, Exhausted(now))] else []
  {
    DyingOne(cfg.timing, s.ring.slots, now);
  }

  lemma RetriedWhenDue(cfg: Config, s: State, k: nat)
    requires 0 < k <= cfg.timing.maxRetries && Tried(cfg.timing, s, k - 1)
    ensures Tried(cfg.timing, Next(cfg, s, Tick(Due(cfg.timing, k))), k)
  {
    var t, now, slot := cfg.timing, Due(cfg.timing, k), s.ring.slots[0];
    ExpiredWhenDue(t, s, k);
    TickOne(cfg, s, now);
    assert Aged(t, slot, now) == slot.(retries := k, sendTime := now);
  }

  lemma ReachedNext(cfg: Config, o: Outgoing, k: nat)
    requires 0 < k <= cfg.timing.maxRetries && Reached(cfg, o, k - 1)
    ensures Reached(cfg, o, k)
  {
    var s := LastCheck(cfg, o, k);
    RetriedWhenDue(cfg, s, k);
  }

  lemma {:induction false} TriedAfter(cfg: Config, o: Outgoing, k: nat)
    requires k <= cfg.timing.maxRetries && Split(cfg.codec, 1, o.ct, o.pri, o.payload).Some?
    ensures Reached(cfg, o, k)
  {
    if k == 0 {
      EntersFirst(cfg, o);
    } else {
      TriedAfter(cfg, o, k - 1);
      ReachedNext(cfg, o, k);
    }
  }

  lemma LastCheck(cfg: Config, o: Outgoing, k: nat) returns (s: State)
    requires k > 0 && Legal(cfg, Start(1), Punctual(cfg.timing, o, k - 1))
    ensures s == Exec(cfg, Start(1), Punctual(cfg.timing, o, k - 1))
    ensures Legal(cfg, Start(1), Punctual(cfg.timing, o, k))
    ensures Exec(cfg, Start(1), Punctual(cfg.timing, o, k)) == Next(cfg, s, Tick(Due(cfg.timing, k)))
  {
    var front, step := Punctual(cfg.timing, o, k - 1), Tick(Due(cfg.timing, k));
    s := Exec(cfg, Start(1), front);
    assert (front + [step])[..|front|] == front;
  }

  lemma DiesWhenDue(cfg: Config, o: Outgoing)
    requires Split(cfg.codec, 1, o.ct, o.pri, o.payload).Some?
    ensures var k := cfg.timing.maxRetries + 1;
            var run := Punctual(cfg.timing, o, k);
            var s := Exec(cfg, Start(1), run);
            Legal(cfg, Start(1), run) && s.ended == [Ended(1, Exhausted(Due(cfg.timing, k)))] && s.began == map[1 := 0]
  {
    var k := cfg.timing.maxRetries + 1;
    TriedAfter(cfg, o, k - 1);
    var s := LastCheck(cfg, o, k);
    ExpiredWhenDue(cfg.timing, s, k);
    TickOne(cfg, s, Due(cfg.timing, k));
  }

  lemma BackoffAtMostWait(t: Timing, r: nat)
    ensures Backoff(t, r) <= Wait(t, r) && 0 <= Wait(t, r)
  {
    BackoffIsWaitIff(t, r);
    var exact := t.ackTimeout * Pow2(r);
    MulMono(0, t.ackTimeout, Pow2(r));
  }

  lemma {:induction false} DueAtMostTotal(t: Timing, k: nat)
    ensures Due(t, k) <= Total(t, k)
  {
    if k > 0 {
      DueAtMostTotal(t, k - 1);
      BackoffAtMostWait(t, k - 1);
    }
  }

  lemma DueEarly(t: Timing)
    requires t.ackTimeout > 0 && !Sane(t)
    ensures Due(t, t.maxRetries + 1) < Total(t, t.maxRetries + 1)
  {
    DueAtMostTotal(t, t.maxRetries);
    BackoffAtMostWait(t, t.maxRetries);
    BackoffIsWaitIff(t, t.maxRetries);
  }

  /**
   * Messages wait out all their times, in every run, exactly when the last doubling stays below
   * 2^63 - 512 or the platform saturates.  Otherwise the run with a check whenever one is due
   * declares a message dead too early.
   */
  lemma OnTimeIff(cfg: Config)
    requires cfg.timing.ackTimeout > 0
    ensures (forall n: nat, steps: seq<Step> :: Legal(cfg, Start(n), steps) ==> OnTime(cfg, Exec(cfg, Start(n), steps)))
       <==> Sane(cfg.timing)
  {
    if Sane(cfg.timing) {
      forall n: nat, steps: seq<Step> | Legal(cfg, Start(n), steps) ensures OnTime(cfg, Exec(cfg, Start(n), steps)) {
        DeadOnlyAfterAllRetries(cfg, n, steps);
      }
    } else {
      var o := Outgoing(0, 0, []);
      var run := Punctual(cfg.timing, o, cfg.timing.maxRetries + 1);
      DiesWhenDue(cfg, o);
      DueEarly(cfg.timing);
      var s := Exec(cfg, Start(1), run);
      assert s.ended[0].cause.Exhausted? && !OnTime(cfg, s);
    }
  }
}
