/**
 * What a broker writes is what the connection carries (pkg/broker over pkg/conn and pkg/crypto): every
 * frame is within the reader's limits and comes back as it was written.
 */
module Wire {
  import opened Bytes
  import opened Protocol
  import opened Chunker
  import opened Reassembly
  import opened Delivery
  import Broker
  import Slots
  import RetryRing
  import Conn
  import Session

  ghost predicate AllCarried(ms: seq<Message>) { forall i :: 0 <= i < |ms| ==> Carried(ms[i]) }

  lemma CarriedStamps(ms: seq<Message>)
    requires AllCarried(ms)
    ensures Conn.Sendable(ms) && Conn.Stamps(ms) == ms && Session.AllFit(ms)
  {
    assert forall i :: 0 <= i < |ms| ==> Carried(ms[i]) && Conn.Stamp(ms[i]) == ms[i];
  }

  /** Frames of chunk size come back from a plain connection and from a session. */
  lemma CarriedReadsBack(ms: seq<Message>)
    requires AllCarried(ms)
    ensures Conn.ReadAll(Conn.Frames(ms)) == ms
    ensures Session.ReadAll(Session.WritesAll(ms)) == ms
  {
    CarriedStamps(ms);
    Conn.ReadAllOfPrefix(ms, |Conn.Frames(ms)|);
    assert Conn.Frames(ms)[..|Conn.Frames(ms)|] == Conn.Frames(ms);
    Session.UnbatchedReadsBackIff(ms);
  }

  /** What Send splits a message into travels whole, whatever the message. */
  lemma FragmentsTravel(c: Codec, id: u64, o: Outgoing)
    ensures var fs := Frags(c, id, o);
            && Conn.Sendable(fs) && Conn.ReadAll(Conn.Frames(fs)) == fs
            && Session.AllFit(fs) && Session.ReadAll(Session.WritesAll(fs)) == fs
  {
    var fs := Frags(c, id, o);
    forall i | 0 <= i < |fs| ensures Carried(fs[i]) {
      FragCarried(c, id, o, fs[i]);
    }
    CarriedStamps(fs);
    CarriedReadsBack(fs);
  }

  /** In every reachable state, any frames a broker has written travel whole, in any order. */
  lemma NetTravels(ca: Broker.Config, na: nat, cb: Broker.Config, nb: nat, moves: seq<Move>, ms: seq<Message>)
    requires ca.codec == cb.codec && RoundTrips(ca.codec) && Playable(Fresh(ca, na, cb, nb), moves)
    requires var s := Play(Fresh(ca, na, cb, nb), moves);
             (forall m :: m in ms ==> m in s.a.net) || (forall m :: m in ms ==> m in s.b.net)
    ensures Conn.ReadAll(Conn.Frames(ms)) == ms && Session.ReadAll(Session.WritesAll(ms)) == ms
  {
    FreshSound(ca, na, cb, nb);
    SoundAlways(ca.codec, Fresh(ca, na, cb, nb), moves);
    var s := Play(Fresh(ca, na, cb, nb), moves);
    SoundCarries(ca.codec, s, ms);
    CarriedReadsBack(ms);
  }

  lemma SoundCarries(c: Codec, s: System, ms: seq<Message>)
    requires Sound(c, s) && ((forall m :: m in ms ==> m in s.a.net) || (forall m :: m in ms ==> m in s.b.net))
    ensures AllCarried(ms)
  {
    forall i | 0 <= i < |ms| ensures Carried(ms[i]) {
      assert ms[i] in ms;
    }
  }

  /** The IDs that a check hands to OnDead are those that the broker records as exhausted. */
  lemma DeadIsReported(t: Slots.Timing, slots: seq<Slots.Slot>, now: int, dead: seq<u64>)
    requires RetryRing.DeadOf(t, slots, now, dead)
    ensures var es := Broker.DeadList(t, slots, now);
            |dead| == |es| && forall k :: 0 <= k < |dead| ==> es[k] == Broker.Ended(dead[k], Broker.Exhausted(now))
  {
  }

  /** What the ring's check hands to OnDead, its caller's step records once each, and no ID has ended before. */
  lemma DeadEndsOnce(cfg: Broker.Config, n: nat, steps: seq<Broker.Step>, now: int, dead: seq<u64>)
    requires Broker.Legal(cfg, Broker.Start(n), steps)
    requires RetryRing.DeadOf(cfg.timing, Broker.Exec(cfg, Broker.Start(n), steps).ring.slots, now, dead)
    ensures var s := Broker.Exec(cfg, Broker.Start(n), steps);
            var s' := Broker.Next(cfg, s, Broker.Tick(now));
            && |s'.ended| == |s.ended| + |dead|
            && (forall k :: 0 <= k < |dead| ==> s'.ended[|s.ended| + k] == Broker.Ended(dead[k], Broker.Exhausted(now)))
            && (forall i, k :: 0 <= i < k < |dead| ==> dead[i] != dead[k])
            && (forall i, k :: 0 <= i < |s.ended| && 0 <= k < |dead| ==> s.ended[i].id != dead[k])
  {
    var s := Broker.Exec(cfg, Broker.Start(n), steps);
    var step := Broker.Tick(now);
    DeadIsReported(cfg.timing, s.ring.slots, now, dead);
    Broker.TickEnds(cfg, s, now);
    Broker.ExecSnoc(cfg, Broker.Start(n), steps, step);
    Broker.OneEndPerMessage(cfg, n, steps + [step]);
    NewEndsDiffer(s.ended, Broker.DeadList(cfg.timing, s.ring.slots, now), now, dead);
  }

  lemma NewEndsDiffer(es0: seq<Broker.Ended>, es: seq<Broker.Ended>, now: int, dead: seq<u64>)
    requires |dead| == |es| && forall k :: 0 <= k < |dead| ==> es[k] == Broker.Ended(dead[k], Broker.Exhausted(now))
    requires forall i, j :: 0 <= i < j < |es0 + es| ==> (es0 + es)[i].id != (es0 + es)[j].id
    ensures forall k :: 0 <= k < |dead| ==> (es0 + es)[|es0| + k] == Broker.Ended(dead[k], Broker.Exhausted(now))
    ensures forall i, k :: 0 <= i < k < |dead| ==> dead[i] != dead[k]
    ensures forall i, k :: 0 <= i < |es0| && 0 <= k < |dead| ==> es0[i].id != dead[k]
  {
    var all := es0 + es;
    assert forall k :: 0 <= k < |dead| ==> all[|es0| + k].id == dead[k];
    forall i, k | 0 <= i < k < |dead| ensures dead[i] != dead[k] {
      assert all[|es0| + i].id != all[|es0| + k].id;
    }
    forall i, k | 0 <= i < |es0| && 0 <= k < |dead| ensures es0[i].id != dead[k] {
      assert all[i].id != all[|es0| + k].id;
    }
  }
}
