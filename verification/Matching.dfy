/**
 * How the relay pairs connections that name the same session (cmd/relay, handle), over every
 * interleaving of arrivals, hand-overs and timeouts.  Each locked region is one step.
 */
module Matching {
  type Conn = nat

  datatype Phase =
    | Waiting
    | Matched(first: Conn)       // took `first` out of the table, has not sent to its channel yet
    | HandedOver(first: Conn)    // sent itself to `first`; its goroutine has ended
    | Fired                      // the wait timer won the select; the table entry is not deleted yet
    | Closed
    | Coordinating(second: Conn)

  datatype State = State(pending: map<string, Conn>, sid: map<Conn, string>, phase: map<Conn, Phase>, chan: map<Conn, seq<Conn>>)

  datatype Step =
    | Arrive(c: Conn, sid: string)
    | HandOver(c: Conn)
    | Take(c: Conn)
    | Fire(c: Conn)
    | Expire(c: Conn)

  const CHAN_SIZE: nat := 1

  predicate Enabled(s: State, step: Step)
  {
    match step
    case Arrive(c, _) => c !in s.phase
    // The send to the first peer's channel blocks while the channel is full.
    case HandOver(c) => c in s.phase && s.phase[c].Matched? && s.phase[c].first in s.chan && |s.chan[s.phase[c].first]| < CHAN_SIZE
    case Take(c) => c in s.phase && s.phase[c] == Waiting && c in s.chan && s.chan[c] != []
    case Fire(c) => c in s.phase && s.phase[c] == Waiting
    case Expire(c) => c in s.phase && s.phase[c] == Fired && c in s.sid
  }

  function Next(s: State, step: Step): State
  {
    if !Enabled(s, step) then s
    else
      match step
      case Arrive(c, sid) =>
        if sid in s.pending then
          State(s.pending - {sid}, s.sid[c := sid], s.phase[c := Matched(s.pending[sid])], s.chan[c := []])
        else State(s.pending[sid := c], s.sid[c := sid], s.phase[c := Waiting], s.chan[c := []])
      case HandOver(c) =>
        var f := s.phase[c].first;
        s.(phase := s.phase[c := HandedOver(f)], chan := s.chan[f := s.chan[f] + [c]])
      case Take(c) => s.(phase := s.phase[c := Coordinating(s.chan[c][0])], chan := s.chan[c := s.chan[c][1..]])
      case Fire(c) => s.(phase := s.phase[c := Fired])
      // Deletes whatever the table holds for the session, not only its own entry.
      case Expire(c) => s.(phase := s.phase[c := Closed], pending := s.pending - {s.sid[c]})
  }

  function Exec(steps: seq<Step>): State
  {
    if steps == [] then State(map[], map[], map[], map[]) else Next(Exec(steps[..|steps| - 1]), steps[|steps| - 1])
  }

  /** `c` arrived second and was paired with `f`. */
  predicate Paired(s: State, f: Conn, c: Conn)
  {
    c in s.phase && (s.phase[c] == Matched(f) || s.phase[c] == HandedOver(f))
  }

  /** A connection that arrived first. */
  predicate First(s: State, c: Conn)
  {
    c in s.phase && !s.phase[c].Matched? && !s.phase[c].HandedOver?
  }

  /** An entry of the table is a waiter of that session that nobody has been paired with. */
  ghost predicate EntryOk(s: State, x: string)
    requires x in s.pending
  {
    var c := s.pending[x];
    && c in s.phase && c in s.sid && s.sid[c] == x && (s.phase[c] == Waiting || s.phase[c] == Fired)
    && forall d :: !Paired(s, c, d)
  }

  ghost predicate PairOk(s: State, f: Conn, c: Conn)
  {
    f != c && First(s, f) && f in s.sid && c in s.sid && s.sid[f] == s.sid[c]
  }

  /** A channel is empty or holds the one partner that was handed over. */
  ghost predicate ChanOk(s: State, f: Conn)
    requires f in s.chan
  {
    s.chan[f] == [] || (|s.chan[f]| == 1 && s.chan[f][0] in s.phase && s.phase[s.chan[f][0]] == HandedOver(f))
  }

  ghost predicate PairsOk(s: State)
  {
    && (forall f, c :: Paired(s, f, c) ==> PairOk(s, f, c))
    && (forall f, c, d :: Paired(s, f, c) && Paired(s, f, d) ==> c == d)
  }

  ghost predicate Inv(s: State)
  {
    && s.sid.Keys == s.phase.Keys == s.chan.Keys
    && PairsOk(s)
    && EntriesOk(s)
    && ChansOk(s)
    && (forall f :: f in s.phase && s.phase[f].Coordinating? ==> Paired(s, f, s.phase[f].second))
  }

  /** Steps that change neither who is paired with whom nor who came first keep the pairs. */
  lemma PairsKept(s: State, s': State)
    requires PairsOk(s) && (forall a, b :: Paired(s', a, b) <==> Paired(s, a, b))
    requires forall a :: First(s, a) ==> First(s', a)
    requires forall a :: a in s.sid ==> a in s'.sid && s'.sid[a] == s.sid[a]
    ensures PairsOk(s')
  {
    forall a, b | Paired(s', a, b) ensures PairOk(s', a, b) {
      assert Paired(s, a, b) && PairOk(s, a, b);
    }
  }

  ghost predicate EntriesOk(s: State) { forall x :: x in s.pending ==> EntryOk(s, x) }
  ghost predicate ChansOk(s: State) { forall f :: f in s.chan ==> ChanOk(s, f) }

  /** Entries stay right while their waiters keep waiting and nobody is paired with them. */
  lemma EntriesKept(s: State, s': State)
    requires EntriesOk(s) && (forall a, b :: Paired(s', a, b) <==> Paired(s, a, b))
    requires forall x :: x in s'.pending ==> x in s.pending && s'.pending[x] == s.pending[x]
    requires forall x :: x in s'.pending ==>
               var c := s'.pending[x]; c in s'.phase && c in s'.sid && s'.sid[c] == x && (s'.phase[c] == Waiting || s'.phase[c] == Fired)
    ensures EntriesOk(s')
  {
    forall x | x in s'.pending ensures EntryOk(s', x) {
      assert EntryOk(s, x);
    }
  }

  lemma ArriveEntries(s: State, c: Conn, sid: string)
    requires Inv(s) && c !in s.phase && sid !in s.pending
    ensures EntriesOk(Next(s, Arrive(c, sid)))
  {
    var s' := Next(s, Arrive(c, sid));
    forall x | x in s'.pending ensures EntryOk(s', x) {
      if x == sid {
        assert forall d :: Paired(s', c, d) ==> Paired(s, c, d) && PairOk(s, c, d);
      } else {
        assert EntryOk(s, x);
        assert forall d :: Paired(s', s.pending[x], d) ==> Paired(s, s.pending[x], d);
      }
    }
  }

  lemma KeepArriveFirst(s: State, c: Conn, sid: string)
    requires Inv(s) && c !in s.phase && sid !in s.pending
    ensures Inv(Next(s, Arrive(c, sid)))
  {
    var s' := Next(s, Arrive(c, sid));
    PairsKept(s, s');
    ArriveEntries(s, c, sid);
    forall f | f in s'.chan ensures ChanOk(s', f) {
      assert f != c ==> ChanOk(s, f);
    }
  }

  lemma KeepArriveSecond(s: State, c: Conn, sid: string)
    requires Inv(s) && c !in s.phase && sid in s.pending
    ensures Inv(Next(s, Arrive(c, sid)))
  {
    var s', w := Next(s, Arrive(c, sid)), s.pending[sid];
    assert EntryOk(s, sid);
    assert forall f, d :: Paired(s', f, d) <==> Paired(s, f, d) || (d == c && f == w);
    forall f, d | Paired(s', f, d) ensures PairOk(s', f, d) {
      assert d != c ==> PairOk(s, f, d);
    }
    forall x | x in s'.pending ensures EntryOk(s', x) {
      assert EntryOk(s, x);
    }
    forall f | f in s'.chan ensures ChanOk(s', f) {
      assert f != c ==> ChanOk(s, f);
    }
  }

  lemma HandOverChans(s: State, c: Conn)
    requires Inv(s) && Enabled(s, HandOver(c))
    ensures ChansOk(Next(s, HandOver(c)))
  {
    var s', f := Next(s, HandOver(c)), s.phase[c].first;
    forall a | a in s'.chan ensures ChanOk(s', a) {
      assert ChanOk(s, a);
      assert a == f ==> s'.chan[a] == [c];
    }
  }

  lemma HandOverSame(s: State, c: Conn)
    requires Inv(s) && Enabled(s, HandOver(c))
    ensures var s' := Next(s, HandOver(c));
            && s'.sid == s.sid && s'.pending == s.pending && s'.sid.Keys == s'.phase.Keys == s'.chan.Keys
            && (forall a, b :: Paired(s', a, b) <==> Paired(s, a, b))
            && (forall a :: First(s', a) ==> s'.phase[a] == s.phase[a])
            && (forall a :: First(s, a) ==> First(s', a))
            && (forall x :: x in s.pending ==> First(s, s.pending[x]))
  {
    assert PairOk(s, s.phase[c].first, c) by {
      assert Paired(s, s.phase[c].first, c);
    }
    forall x | x in s.pending ensures First(s, s.pending[x]) {
      assert EntryOk(s, x);
    }
  }

  lemma KeepHandOver(s: State, c: Conn)
    requires Inv(s) && Enabled(s, HandOver(c))
    ensures Inv(Next(s, HandOver(c)))
  {
    var s' := Next(s, HandOver(c));
    HandOverSame(s, c);
    PairsKept(s, s');
    assert forall x :: x in s.pending ==> EntryOk(s, x);
    EntriesKept(s, s');
    HandOverChans(s, c);
  }

  lemma KeepTake(s: State, c: Conn)
    requires Inv(s) && Enabled(s, Take(c))
    ensures Inv(Next(s, Take(c)))
  {
    var s' := Next(s, Take(c));
    PairsKept(s, s');
    assert ChanOk(s, c);
    assert Paired(s, c, s.chan[c][0]);
    forall x | x in s'.pending ensures s'.pending[x] != c {
      assert EntryOk(s, x);
    }
    EntriesKept(s, s');
    forall a | a in s'.chan ensures ChanOk(s', a) {
      assert ChanOk(s, a);
    }
  }

  lemma KeepTimer(s: State, step: Step)
    requires Inv(s) && Enabled(s, step) && (step.Fire? || step.Expire?)
    ensures Inv(Next(s, step))
  {
    var s' := Next(s, step);
    PairsKept(s, s');
    forall x | x in s'.pending ensures s'.pending[x] in s'.phase && s'.sid[s'.pending[x]] == x && (step.Expire? ==> s'.pending[x] != step.c) {
      assert EntryOk(s, x);
    }
    EntriesKept(s, s');
    forall a | a in s'.chan ensures ChanOk(s', a) {
      assert ChanOk(s, a);
    }
  }

  lemma NextInv(s: State, step: Step)
    requires Inv(s)
    ensures Inv(Next(s, step))
  {
    if Enabled(s, step) {
      match step {
        case Arrive(c, sid) =>
          if sid in s.pending {
            KeepArriveSecond(s, c, sid);
          } else {
            KeepArriveFirst(s, c, sid);
          }
        case HandOver(c) => KeepHandOver(s, c);
        case Take(c) => KeepTake(s, c);
        case _ => KeepTimer(s, step);
      }
    }
  }

  lemma {:induction false} InvAlways(steps: seq<Step>)
    ensures Inv(Exec(steps))
  {
    if steps != [] {
      InvAlways(steps[..|steps| - 1]);
      NextInv(Exec(steps[..|steps| - 1]), steps[|steps| - 1]);
    }
  }

  /**
   * The relay's pairs are a matching: in every run they join two different connections of the same
   * session, and no connection is in two pairs, on either side.
   */
  lemma PairsAreMatching(steps: seq<Step>, f: Conn, c: Conn, g: Conn, d: Conn)
    requires Paired(Exec(steps), f, c)
    ensures var s := Exec(steps);
            && f != c && f in s.sid && c in s.sid && s.sid[f] == s.sid[c]
            && (Paired(s, g, d) && (f == g || c == d || f == d || c == g) ==> f == g && c == d)
  {
    InvAlways(steps);
  }

  /** A connection that names the session of a waiter in the table is paired with it, and takes it out. */
  lemma ArrivalPairs(s: State, c: Conn, sid: string)
    requires c !in s.phase
    ensures var s' := Next(s, Arrive(c, sid));
            && c in s'.sid && s'.sid[c] == sid && c in s'.chan && s'.chan[c] == []
            && (sid in s.pending ==> Paired(s', s.pending[sid], c) && sid !in s'.pending)
            && (sid !in s.pending ==> c in s'.phase && s'.phase[c] == Waiting && sid in s'.pending && s'.pending[sid] == c)
            && (forall x :: x != sid ==> (x in s'.pending <==> x in s.pending) && (x in s.pending ==> s'.pending[x] == s.pending[x]))
            && (forall d :: d != c ==> (d in s'.phase <==> d in s.phase) && (d in s.phase ==> s'.phase[d] == s.phase[d]))
  {
  }

  /** A waiter takes the partner that was handed over to it, and its channel is free again. */
  lemma TakeStep(s: State, c: Conn)
    requires c in s.phase && s.phase[c] == Waiting && c in s.chan
    ensures |s.chan[c]| == 0 ==> Next(s, Take(c)) == s
    ensures |s.chan[c]| > 0 ==>
              var s' := Next(s, Take(c));
              && s'.phase == s.phase[c := Coordinating(s.chan[c][0])] && c in s'.chan && s.chan[c] == [s.chan[c][0]] + s'.chan[c]
              && s'.pending == s.pending && s'.sid == s.sid
  {
  }

  /** Only a waiter can be timed out; only then is its entry deleted, and it takes no partner any more. */
  lemma TimerSteps(s: State, c: Conn)
    ensures c in s.phase && s.phase[c] == Waiting ==> Next(s, Fire(c)) == s.(phase := s.phase[c := Fired])
    ensures c in s.phase && s.phase[c] == Waiting ==> Next(s, Expire(c)) == s
    ensures c in s.phase && s.phase[c] != Waiting ==> Next(s, Fire(c)) == s && Next(s, Take(c)) == s
    ensures c in s.phase && s.phase[c] == Fired && c in s.sid ==>
              var s' := Next(s, Expire(c)); s'.phase == s.phase[c := Closed] && s'.pending.Keys == s.pending.Keys - {s.sid[c]}
  {
  }

  /** The second peer's send never blocks, because a waiter's one-place channel gets at most one partner. */
  lemma HandOverNeverBlocks(steps: seq<Step>, c: Conn)
    requires c in Exec(steps).phase && Exec(steps).phase[c].Matched?
    ensures Enabled(Exec(steps), HandOver(c))
  {
    InvAlways(steps);
    var s := Exec(steps);
    var f := s.phase[c].first;
    assert Paired(s, f, c) && PairOk(s, f, c);
    assert ChanOk(s, f);
    assert s.chan[f] != [] ==> Paired(s, f, s.chan[f][0]);
  }

  // ---------------------------------------------------------------- waiters that cannot be found

  ghost predicate Unmatched(s: State, c: Conn)
  {
    c in s.phase && (s.phase[c] == Waiting || s.phase[c] == Fired) && forall d :: !Paired(s, c, d)
  }

  /** Every waiter without a partner can be found by the next peer of its session. */
  ghost predicate AllFindable(s: State)
  {
    forall c :: Unmatched(s, c) ==> c in s.sid && s.sid[c] in s.pending && s.pending[s.sid[c]] == c
  }

  /**
   * A timeout leaves every other waiter findable exactly when the table does not hold someone
   * else's entry for its session.  It does when the one that timed out had been matched meanwhile
   * and a third peer arrived.
   */
  lemma ExpireKeepsFindableIff(s: State, c: Conn)
    requires Inv(s) && AllFindable(s) && Enabled(s, Expire(c))
    ensures AllFindable(Next(s, Expire(c))) <==> (s.sid[c] in s.pending ==> s.pending[s.sid[c]] == c)
  {
    var s', x := Next(s, Expire(c)), s.sid[c];
    forall a, b ensures Paired(s', a, b) <==> Paired(s, a, b) {
    }
    if x in s.pending && s.pending[x] != c {
      var w := s.pending[x];
      assert Unmatched(s', w) && s'.sid[w] == x && x !in s'.pending;
    } else {
      forall w | Unmatched(s', w) ensures s'.sid[w] in s'.pending && s'.pending[s'.sid[w]] == w {
        assert Unmatched(s, w);
      }
    }
  }

  /** No other step hides a waiter. */
  lemma OthersKeepFindable(s: State, step: Step)
    requires Inv(s) && AllFindable(s) && !step.Expire?
    ensures AllFindable(Next(s, step))
  {
    var s' := Next(s, step);
    if Enabled(s, step) {
      forall c | Unmatched(s', c) ensures c in s'.sid && s'.sid[c] in s'.pending && s'.pending[s'.sid[c]] == c {
        StillUnmatched(s, step, c);
      }
    }
  }

  /** Who waits unmatched after a step did so before it, or has just arrived. */
  lemma StillUnmatched(s: State, step: Step, c: Conn)
    requires Inv(s) && AllFindable(s) && Enabled(s, step) && !step.Expire? && Unmatched(Next(s, step), c)
    ensures var s' := Next(s, step); c in s'.sid && s'.sid[c] in s'.pending && s'.pending[s'.sid[c]] == c
  {
    var s' := Next(s, step);
    if !(step.Arrive? && step.c == c) {
      forall d ensures !Paired(s, c, d) {
        assert !Paired(s', c, d);
      }
      assert Unmatched(s, c);
      if step.Arrive? && step.sid in s.pending {
        assert EntryOk(s, step.sid);
        assert Paired(s', s.pending[step.sid], step.c);
      }
    }
  }

  /** A step that is not a timeout, or a timeout that deletes its own entry or none. */
  predicate Harmless(s: State, step: Step)
  {
    step.Expire? && Enabled(s, step) && s.sid[step.c] in s.pending ==> s.pending[s.sid[step.c]] == step.c
  }

  lemma NextFindableIff(s: State, step: Step)
    requires Inv(s) && AllFindable(s)
    ensures AllFindable(Next(s, step)) <==> Harmless(s, step)
  {
    if step.Expire? && Enabled(s, step) {
      ExpireKeepsFindableIff(s, step.c);
    } else if !step.Expire? {
      OthersKeepFindable(s, step);
    }
  }

  /** Every waiter is findable after every step of the run. */
  ghost predicate AlwaysFindable(steps: seq<Step>)
  {
    AllFindable(Exec(steps)) && (steps != [] ==> AlwaysFindable(steps[..|steps| - 1]))
  }

  predicate AllHarmless(steps: seq<Step>)
  {
    steps != [] ==>
      var front := steps[..|steps| - 1];
      AllHarmless(front) && Harmless(Exec(front), steps[|steps| - 1])
  }

  /** Over whole runs: nobody is ever hidden exactly when every timeout deletes its own entry or none. */
  lemma {:induction false} AlwaysFindableIff(steps: seq<Step>)
    ensures AlwaysFindable(steps) <==> AllHarmless(steps)
  {
    if steps != [] {
      var front, step := steps[..|steps| - 1], steps[|steps| - 1];
      AlwaysFindableIff(front);
      InvAlways(front);
      if AlwaysFindable(front) {
        NextFindableIff(Exec(front), step);
      }
    }
  }

  lemma ExecSnoc(steps: seq<Step>, step: Step)
    ensures Exec(steps + [step]) == Next(Exec(steps), step)
  {
    assert (steps + [step])[..|steps|] == steps;
  }

  /** A second peer matches the first, whose timer fires before it is told. */
  function MatchedAfterFiring(sid: string): seq<Step> { [Arrive(1, sid)] + [Arrive(2, sid)] + [Fire(1)] }

  lemma MatchedAfterFiringIs(sid: string)
    ensures Exec(MatchedAfterFiring(sid)) ==
            State(map[], map[1 := sid, 2 := sid], map[1 := Fired, 2 := Matched(1)], map[1 := [], 2 := []])
  {
    ExecSnoc([], Arrive(1, sid));
    assert [] + [Arrive(1, sid)] == [Arrive(1, sid)];
    assert Exec([Arrive(1, sid)]) == State(map[sid := 1], map[1 := sid], map[1 := Waiting], map[1 := []]);
    ExecSnoc([Arrive(1, sid)], Arrive(2, sid));
    assert map[sid := 1] - {sid} == map[];
    ExecSnoc([Arrive(1, sid)] + [Arrive(2, sid)], Fire(1));
  }

  /** Such a run: connection 3 waits, unmatched, for a session whose entry connection 1 has deleted. */
  lemma TimeoutLosesAnotherWaiter(sid: string)
    ensures var s := Exec(MatchedAfterFiring(sid) + [Arrive(3, sid)] + [Expire(1)]);
            3 in s.phase && s.phase[3] == Waiting && Unmatched(s, 3) && sid !in s.pending
  {
    var run := MatchedAfterFiring(sid);
    MatchedAfterFiringIs(sid);
    ExecSnoc(run, Arrive(3, sid));
    ExecSnoc(run + [Arrive(3, sid)], Expire(1));
  }

  // ---------------------------------------------------------------- partners that are never taken

  /** A partner that was handed over is in the first peer's channel until that peer takes it. */
  ghost predicate Held(s: State, f: Conn, c: Conn)
  {
    f in s.phase && f in s.chan && (s.chan[f] == [c] || s.phase[f] == Coordinating(c))
  }

  ghost predicate AllHeld(s: State)
  {
    forall f, c :: c in s.phase && s.phase[c] == HandedOver(f) ==> Held(s, f, c)
  }

  lemma NextHeld(s: State, step: Step)
    requires Inv(s) && AllHeld(s)
    ensures AllHeld(Next(s, step))
  {
    var s' := Next(s, step);
    forall f, c | c in s'.phase && s'.phase[c] == HandedOver(f) ensures Held(s', f, c) {
      if step == HandOver(c) && Enabled(s, step) {
        assert Paired(s, f, c) && PairOk(s, f, c) && ChanOk(s, f);
      } else {
        assert s.phase[c] == HandedOver(f) && Held(s, f, c) && Paired(s, f, c) && PairOk(s, f, c);
        HeldStays(s, step, f, c);
      }
    }
  }

  lemma HeldStays(s: State, step: Step, f: Conn, c: Conn)
    requires Inv(s) && Held(s, f, c) && Paired(s, f, c) && PairOk(s, f, c) && s.phase[c] == HandedOver(f)
    ensures Held(Next(s, step), f, c)
  {
    match step {
      case HandOver(d) =>
        if Enabled(s, step) {
          assert Paired(s, s.phase[d].first, d);
        }
      case Take(d) =>
      case _ =>
    }
  }

  lemma {:induction false} AllHeldAlways(steps: seq<Step>)
    ensures AllHeld(Exec(steps))
  {
    if steps != [] {
      AllHeldAlways(steps[..|steps| - 1]);
      InvAlways(steps[..|steps| - 1]);
      NextHeld(Exec(steps[..|steps| - 1]), steps[|steps| - 1]);
    }
  }

  /** A first peer whose timer fired never coordinates. */
  predicate Gone(s: State, f: Conn) { f in s.phase && (s.phase[f] == Fired || s.phase[f] == Closed) }

  lemma GoneNext(s: State, step: Step, f: Conn)
    requires Gone(s, f)
    ensures Gone(Next(s, step), f)
  {
  }

  lemma {:induction false} GoneStays(steps: seq<Step>, more: seq<Step>, f: Conn)
    requires Gone(Exec(steps), f)
    ensures Gone(Exec(steps + more), f)
  {
    if more == [] {
      assert steps + more == steps;
    } else {
      var n := |more| - 1;
      GoneStays(steps, more[..n], f);
      assert steps + more == (steps + more[..n]) + [more[n]];
      ExecSnoc(steps + more[..n], more[n]);
      GoneNext(Exec(steps + more[..n]), more[n], f);
    }
  }

  /** `f` coordinates with `c` in some continuation of the run. */
  ghost predicate CanBeTaken(steps: seq<Step>, f: Conn, c: Conn)
  {
    exists more: seq<Step> :: CoordinatesAfter(steps + more, f, c)
  }

  predicate CoordinatesAfter(steps: seq<Step>, f: Conn, c: Conn)
  {
    f in Exec(steps).phase && Exec(steps).phase[f] == Coordinating(c)
  }

  lemma TakeHandedOver(steps: seq<Step>, f: Conn, c: Conn)
    requires var s := Exec(steps); c in s.phase && s.phase[c] == HandedOver(f) && f in s.phase && s.phase[f] == Waiting
    ensures CoordinatesAfter(steps + [Take(f)], f, c)
  {
    AllHeldAlways(steps);
    assert Held(Exec(steps), f, c);
    ExecSnoc(steps, Take(f));
  }

  lemma WaiterTakes(steps: seq<Step>, f: Conn, c: Conn)
    requires Paired(Exec(steps), f, c) && f in Exec(steps).phase && Exec(steps).phase[f] == Waiting
    ensures CanBeTaken(steps, f, c)
  {
    var s := Exec(steps);
    if s.phase[c].Matched? {
      HandOverNeverBlocks(steps, c);
      ExecSnoc(steps, HandOver(c));
      InvAlways(steps);
      assert PairOk(s, f, c);
      TakeHandedOver(steps + [HandOver(c)], f, c);
      assert steps + [HandOver(c)] + [Take(f)] == steps + [HandOver(c), Take(f)];
    } else {
      TakeHandedOver(steps, f, c);
    }
  }

  /**
   * A second peer is taken by the first in some continuation exactly while the first peer's timer has
   * not fired.  After that it sits in a channel that nobody reads, and nobody closes it.
   */
  lemma TakenIff(steps: seq<Step>, f: Conn, c: Conn)
    requires Paired(Exec(steps), f, c)
    ensures f in Exec(steps).phase
    ensures CanBeTaken(steps, f, c) <==> Exec(steps).phase[f] == Waiting || Exec(steps).phase[f] == Coordinating(c)
  {
    var s := Exec(steps);
    InvAlways(steps);
    assert PairOk(s, f, c);
    if s.phase[f] == Waiting {
      WaiterTakes(steps, f, c);
    } else if s.phase[f].Coordinating? {
      assert Paired(s, f, s.phase[f].second);
      assert steps + [] == steps;
      assert CoordinatesAfter(steps + [], f, c);
    } else {
      forall more: seq<Step> ensures !CoordinatesAfter(steps + more, f, c) {
        GoneStays(steps, more, f);
      }
    }
  }

  /** Such a run: connection 2 was handed over to 1, which had given up and closed. */
  lemma HandedOverTooLate(sid: string)
    ensures var steps := MatchedAfterFiring(sid) + [HandOver(2)] + [Expire(1)];
            var s := Exec(steps);
            1 in s.phase && 2 in s.phase && s.phase[1] == Closed && s.phase[2] == HandedOver(1) && !CanBeTaken(steps, 1, 2)
  {
    var run := MatchedAfterFiring(sid);
    MatchedAfterFiringIs(sid);
    ExecSnoc(run, HandOver(2));
    ExecSnoc(run + [HandOver(2)], Expire(1));
    TakenIff(run + [HandOver(2)] + [Expire(1)], 1, 2);
  }
}
