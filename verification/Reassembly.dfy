/**
 * Reassembly over whole runs: fragments of any set of messages arrive in any order, any number of
 * times and interleaved, while streams may be refused and purged.
 */
module Reassembly {
  import opened Bytes
  import opened Protocol
  import opened Chunker

  /** A message as its sender gave it. */
  datatype Outgoing = Outgoing(ct: byte, pri: byte, payload: Bytes)

  /** A message as the application receives it. */
  datatype Inbound = Inbound(id: u64, ct: byte, payload: Bytes)

  /** What was sent, by message ID: one message for each. */
  type World = map<u64, Outgoing>

  function Frags(c: Codec, id: u64, o: Outgoing): seq<Message>
  {
    match Split(c, id, o.ct, o.pri, o.payload)
    case Some(ms) => ms
    case None => []
  }

  ghost predicate FragOf(c: Codec, w: World, m: Message)
  {
    m.header.msgID in w && m in Frags(c, m.header.msgID, w[m.header.msgID])
  }

  lemma FragFacts(c: Codec, id: u64, o: Outgoing, m: Message)
    requires m in Frags(c, id, o)
    ensures var fs, h := Frags(c, id, o), m.header;
            && h.msgID == id && h.msgType == MSG_DATA && h.contentType == o.ct
            && h.fragTotal == |fs| && h.fragIndex < |fs| && fs[h.fragIndex] == m
            && ValidFragment(h, m.payload)
  {
  }

  /** The bodies of all fragments of a message, joined and unpacked, are its payload. */
  lemma JoinedPayload(c: Codec, id: u64, o: Outgoing, m: Message, bodies: seq<Bytes>)
    requires RoundTrips(c) && m in Frags(c, id, o)
    requires |bodies| == |Frags(c, id, o)| && forall i :: 0 <= i < |bodies| ==> bodies[i] == Frags(c, id, o)[i].payload
    ensures Finish(c, Join(bodies), m.header.flags) == Complete(o.payload)
  {
    var data := Pack(c, o.payload).0;
    assert bodies == Chunks(data) by {
      assert forall i :: 0 <= i < |bodies| ==> Frags(c, id, o)[i].payload == Chunks(data)[i];
    }
    JoinChunksOf(data);
    UnpackPacked(c, o.payload, |Chunks(data)| > 1);
  }

  lemma UnpackPacked(c: Codec, payload: Bytes, fragmented: bool)
    requires RoundTrips(c)
    ensures Finish(c, Pack(c, payload).0, Flags(fragmented, Pack(c, payload).1)) == Complete(payload)
  {
  }

  // ---------------------------------------------------------------- one fragment

  function Have(s: Stream): set<nat>
  {
    set i: nat | i < |s.frags| && s.frags[i].Some?
  }

  /** The simple map behind the table: which fragments of `id` are held. */
  function Held(st: Streams, id: u64): set<nat>
  {
    if id in st then Have(st[id]) else {}
  }

  function Below(n: nat): (s: set<nat>)
    ensures |s| == n
    ensures forall i: nat :: i in s <==> i < n
  {
    if n == 0 then {} else Below(n - 1) + {n - 1}
  }

  function All(c: Codec, id: u64, o: Outgoing): set<nat>
  {
    Below(|Frags(c, id, o)|)
  }

  /** A stream holds some but not all fragments of a message that was sent, each as it was sent. */
  ghost predicate StreamOk(c: Codec, id: u64, o: Outgoing, s: Stream)
  {
    var fs := Frags(c, id, o);
    && 1 < |fs| == |s.frags|
    && s.received == |Have(s)| < |fs|
    && forall i :: 0 <= i < |fs| && s.frags[i].Some? ==> s.frags[i].value == fs[i].payload
  }

  ghost predicate StreamsOk(c: Codec, w: World, st: Streams)
  {
    forall id :: id in st ==> id in w && StreamOk(c, id, w[id], st[id])
  }

  lemma FullIffAll(s: Stream)
    ensures |Have(s)| <= |s.frags|
    ensures |Have(s)| == |s.frags| <==> Have(s) == Below(|s.frags|)
  {
    var all := Below(|s.frags|);
    assert Have(s) <= all;
    assert |all - Have(s)| == |all| - |Have(s)|;
    if |Have(s)| == |s.frags| {
      assert all - Have(s) == {};
    }
  }

  lemma HaveFilled(s: Stream, x: nat, body: Bytes, s': Stream)
    requires x < |s.frags| && s.frags[x].None? && s'.frags == s.frags[x := Some(body)]
    ensures Have(s') == Have(s) + {x} && x !in Have(s) && |Have(s')| == |Have(s)| + 1
  {
    assert Have(s') == Have(s) + {x};
  }

  /** Filling an empty place of a stream. */
  lemma Fill(c: Codec, id: u64, o: Outgoing, s: Stream, m: Message, s': Stream)
    requires m in Frags(c, id, o)
    requires |s.frags| == |Frags(c, id, o)| > 1 && s.received == |Have(s)|
    requires forall i :: 0 <= i < |s.frags| && s.frags[i].Some? ==> s.frags[i].value == Frags(c, id, o)[i].payload
    requires m.header.fragIndex < |s.frags| && s.frags[m.header.fragIndex].None?
    requires s' == Stream(s.frags[m.header.fragIndex := Some(m.payload)], s.received + 1, s.arrivedAt)
    ensures Have(s') == Have(s) + {m.header.fragIndex} && s'.received == |Have(s')|
    ensures s'.received == |s'.frags| <==> Have(s') == All(c, id, o)
    ensures s'.received != |s'.frags| ==> StreamOk(c, id, o, s')
    ensures forall i :: 0 <= i < |s'.frags| && s'.frags[i].Some? ==> s'.frags[i].value == Frags(c, id, o)[i].payload
  {
    var x, fs := m.header.fragIndex, Frags(c, id, o);
    FragFacts(c, id, o, m);
    HaveFilled(s, x, m.payload, s');
    FullIffAll(s');
    forall i | 0 <= i < |s'.frags| && s'.frags[i].Some? ensures s'.frags[i].value == fs[i].payload {
      assert i != x ==> s'.frags[i] == s.frags[i];
    }
  }

  /** The opened stream of a fragment, whether it was there or is new. */
  lemma Opened(c: Codec, w: World, st: Streams, m: Message, now: int)
    requires StreamsOk(c, w, st) && FragOf(c, w, m) && m.header.fragTotal > 1
    requires GetOrCreate(st, m.header, now).Some?
    ensures var s := GetOrCreate(st, m.header, now).value;
            StreamOk(c, m.header.msgID, w[m.header.msgID], s) && Have(s) == Held(st, m.header.msgID)
  {
    var s := GetOrCreate(st, m.header, now).value;
    FragFacts(c, m.header.msgID, w[m.header.msgID], m);
    if m.header.msgID !in st {
      assert Have(s) == {};
    }
  }

  /**
   * One step of the refinement.  A fragment of a message that was sent never indexes past the
   * table and never fails to unpack; it is refused only when a new stream is needed and the table is
   * full; otherwise it joins the set of held fragments, and the message completes, with the
   * payload that was sent, exactly when that set becomes all of them.
   */
  ghost predicate Refined(c: Codec, w: World, st: Streams, m: Message, st': Streams, r: Outcome)
    requires FragOf(c, w, m)
  {
    var id, i := m.header.msgID, m.header.fragIndex;
    var held, all := Held(st, id), All(c, id, w[id]);
    && StreamsOk(c, w, st')
    && (forall k :: k != id ==> Held(st', k) == Held(st, k))
    && (r == Incomplete || r == Complete(w[id].payload) || r == TooMany)
    && (r == TooMany <==> |all| > 1 && id !in st && |st| >= MAX_STREAMS)
    && (r.Complete? <==> r != TooMany && i !in held && held + {i} == all)
    && Held(st', id) == (if r.Complete? then {} else if r == TooMany then held else held + {i})
    && Held(st', id) != all
  }

  lemma AddRefines(c: Codec, w: World, st: Streams, m: Message, now: int)
    requires RoundTrips(c) && StreamsOk(c, w, st) && FragOf(c, w, m)
    ensures var (st', r) := Add(c, st, m, now); Refined(c, w, st, m, st', r)
  {
    FragFacts(c, m.header.msgID, w[m.header.msgID], m);
    if m.header.fragTotal == 1 {
      AddSingle(c, w, st, m, now);
    } else if GetOrCreate(st, m.header, now).None? {
      assert Held(st, m.header.msgID) == {};
      assert 0 in All(c, m.header.msgID, w[m.header.msgID]);
    } else {
      AddOne(c, w, st, m, now);
    }
  }

  lemma AddSingle(c: Codec, w: World, st: Streams, m: Message, now: int)
    requires RoundTrips(c) && StreamsOk(c, w, st) && FragOf(c, w, m) && m.header.fragTotal == 1
    ensures var (st', r) := Add(c, st, m, now); Refined(c, w, st, m, st', r)
  {
    var id := m.header.msgID;
    FragFacts(c, id, w[id], m);
    assert id !in st;
    assert All(c, id, w[id]) == {0};
    JoinCons(m.payload, []);
    assert [m.payload] + [] == [m.payload];
    JoinedPayload(c, id, w[id], m, [m.payload]);
  }

  lemma StreamsOkPut(c: Codec, w: World, st: Streams, id: u64, s: Stream)
    requires StreamsOk(c, w, st) && id in w && StreamOk(c, id, w[id], s)
    ensures StreamsOk(c, w, st[id := s]) && Held(st[id := s], id) == Have(s)
    ensures forall k :: k != id ==> Held(st[id := s], k) == Held(st, k)
  {
  }

  lemma StreamsOkDrop(c: Codec, w: World, st: Streams, id: u64)
    requires StreamsOk(c, w, st)
    ensures StreamsOk(c, w, st - {id}) && Held(st - {id}, id) == {}
    ensures forall k :: k != id ==> Held(st - {id}, k) == Held(st, k)
  {
  }

  lemma NotAllHeld(c: Codec, id: u64, o: Outgoing, s: Stream)
    requires StreamOk(c, id, o, s)
    ensures Have(s) != All(c, id, o)
  {
    FullIffAll(s);
  }

  lemma RefinedPut(c: Codec, w: World, st: Streams, m: Message, s: Stream)
    requires StreamsOk(c, w, st) && FragOf(c, w, m)
    requires m.header.msgID in st || |st| < MAX_STREAMS
    requires StreamOk(c, m.header.msgID, w[m.header.msgID], s)
    requires Have(s) == Held(st, m.header.msgID) + {m.header.fragIndex}
    ensures Refined(c, w, st, m, st[m.header.msgID := s], Incomplete)
  {
    StreamsOkPut(c, w, st, m.header.msgID, s);
    NotAllHeld(c, m.header.msgID, w[m.header.msgID], s);
  }

  lemma RefinedDrop(c: Codec, w: World, st: Streams, m: Message)
    requires StreamsOk(c, w, st) && FragOf(c, w, m)
    requires m.header.msgID in st || |st| < MAX_STREAMS
    requires m.header.fragIndex !in Held(st, m.header.msgID)
    requires Held(st, m.header.msgID) + {m.header.fragIndex} == All(c, m.header.msgID, w[m.header.msgID])
    ensures Refined(c, w, st, m, st - {m.header.msgID}, Complete(w[m.header.msgID].payload))
  {
    StreamsOkDrop(c, w, st, m.header.msgID);
    assert m.header.fragIndex in All(c, m.header.msgID, w[m.header.msgID]);
  }

  /** What Add does with a fragment of a stream, before saying what it means. */
  lemma AddValue(c: Codec, st: Streams, m: Message, now: int, s: Stream)
    requires ValidFragment(m.header, m.payload) && m.header.fragTotal > 1
    requires GetOrCreate(st, m.header, now) == Some(s) && m.header.fragIndex < |s.frags|
    ensures var id, i := m.header.msgID, m.header.fragIndex;
            var s' := Stream(s.frags[i := Some(m.payload)], s.received + 1, s.arrivedAt);
            && (s.frags[i].Some? ==> Add(c, st, m, now) == (st[id := s], Incomplete))
            && (s.frags[i].None? && s'.received != |s'.frags| ==> Add(c, st, m, now) == (st[id := s'], Incomplete))
            && (s.frags[i].None? && s'.received == |s'.frags| ==>
                  Add(c, st, m, now) == (st - {id}, Finish(c, Join(Bodies(s'.frags)), m.header.flags)))
  {
  }

  lemma AddOne(c: Codec, w: World, st: Streams, m: Message, now: int)
    requires RoundTrips(c) && StreamsOk(c, w, st) && FragOf(c, w, m) && m.header.fragTotal > 1
    requires GetOrCreate(st, m.header, now).Some?
    ensures var (st', r) := Add(c, st, m, now); Refined(c, w, st, m, st', r)
  {
    var id, i, o := m.header.msgID, m.header.fragIndex, w[m.header.msgID];
    var s := GetOrCreate(st, m.header, now).value;
    FragFacts(c, id, o, m);
    Opened(c, w, st, m, now);
    AddValue(c, st, m, now, s);
    if s.frags[i].Some? {
      assert i in Have(s);
      assert Have(s) == Held(st, id) + {i};
      RefinedPut(c, w, st, m, s);
    } else {
      assert i !in Have(s);
      var s' := Stream(s.frags[i := Some(m.payload)], s.received + 1, s.arrivedAt);
      Fill(c, id, o, s, m, s');
      if s'.received == |s'.frags| {
        JoinedAll(c, id, o, m, s');
        RefinedDrop(c, w, st, m);
      } else {
        RefinedPut(c, w, st, m, s');
      }
    }
  }

  lemma JoinedAll(c: Codec, id: u64, o: Outgoing, m: Message, s: Stream)
    requires RoundTrips(c) && m in Frags(c, id, o)
    requires Have(s) == All(c, id, o) && |s.frags| == |Frags(c, id, o)|
    requires forall i :: 0 <= i < |s.frags| && s.frags[i].Some? ==> s.frags[i].value == Frags(c, id, o)[i].payload
    ensures Finish(c, Join(Bodies(s.frags)), m.header.flags) == Complete(o.payload)
  {
    forall i | 0 <= i < |s.frags| ensures Bodies(s.frags)[i] == Frags(c, id, o)[i].payload {
      assert i in All(c, id, o);
      assert s.frags[i].Some?;
    }
    JoinedPayload(c, id, o, m, Bodies(s.frags));
  }

  // ---------------------------------------------------------------- runs

  datatype Event = Arrive(msg: Message, now: int) | Expire(cutoff: int)

  /** The table, what was handed up, and the IDs that had a fragment refused or a stream purged. */
  datatype Run = Run(streams: Streams, up: seq<Inbound>, lost: set<u64>)

  function Absorb(c: Codec, r: Run, e: Event): Run
  {
    match e
    case Arrive(m, now) =>
      var (st, out) := Add(c, r.streams, m, now);
      Run(st,
          if out.Complete? then r.up + [Inbound(m.header.msgID, m.header.contentType, out.payload)] else r.up,
          if out == TooMany then r.lost + {m.header.msgID} else r.lost)
    case Expire(cutoff) =>
      Run(Purge(r.streams, cutoff), r.up, r.lost + (r.streams.Keys - Purge(r.streams, cutoff).Keys))
  }

  function Runs(c: Codec, es: seq<Event>): Run
  {
    if es == [] then Run(map[], [], {}) else Absorb(c, Runs(c, es[..|es| - 1]), es[|es| - 1])
  }

  lemma RunsSnoc(c: Codec, es: seq<Event>, e: Event)
    ensures Runs(c, es + [e]) == Absorb(c, Runs(c, es), e)
  {
    assert (es + [e])[..|es|] == es;
  }

  /** A fragment loses its message if it is the first of several and finds 1024 streams. */
  lemma LostOnArrival(c: Codec, es: seq<Event>, m: Message, now: int, id: u64)
    ensures var r, r' := Runs(c, es), Runs(c, es + [Arrive(m, now)]);
            id in r'.lost <==> id in r.lost || (m.header.msgID == id && ValidFragment(m.header, m.payload) && m.header.fragTotal > 1
                                                && id !in r.streams && |r.streams| >= 1024)
  {
    RunsSnoc(c, es, Arrive(m, now));
    AddRefuses(c, Runs(c, es).streams, m, now);
  }

  /** A purge loses the messages whose streams are too old, and nothing else. */
  lemma LostOnPurge(c: Codec, es: seq<Event>, cutoff: int, id: u64)
    ensures var r, r' := Runs(c, es), Runs(c, es + [Expire(cutoff)]);
            && r'.up == r.up
            && (id in r'.lost <==> id in r.lost || (id in r.streams && r.streams[id].arrivedAt < cutoff))
            && (id in r'.streams <==> id in r.streams && r.streams[id].arrivedAt >= cutoff)
            && (id in r'.streams ==> r'.streams[id] == r.streams[id])
  {
    RunsSnoc(c, es, Expire(cutoff));
  }

  ghost predicate FromWorld(c: Codec, w: World, es: seq<Event>)
  {
    forall i :: 0 <= i < |es| && es[i].Arrive? ==> FragOf(c, w, es[i].msg)
  }

  function Arrivals(es: seq<Event>, id: u64, i: nat): nat
  {
    if es == [] then 0
    else
      var e := es[|es| - 1];
      Arrivals(es[..|es| - 1], id, i)
      + if e.Arrive? && e.msg.header.msgID == id && e.msg.header.fragIndex == i then 1 else 0
  }

  function Completions(up: seq<Inbound>, id: u64): nat
  {
    if up == [] then 0 else Completions(up[..|up| - 1], id) + if up[|up| - 1].id == id then 1 else 0
  }

  lemma CompletionsSnoc(up: seq<Inbound>, d: Inbound, id: u64)
    ensures Completions(up + [d], id) == Completions(up, id) + if d.id == id then 1 else 0
  {
    assert (up + [d])[..|up|] == up;
  }

  /**
   * What every step keeps, for one message: `held` of its fragments `all` are in the table, it was
   * handed up `done` times, and its fragments arrived as in `es`.
   */
  ghost predicate Counted(all: set<nat>, held: set<nat>, done: nat, lost: bool, es: seq<Event>, id: u64)
  {
    && held < all
    && (forall i :: i in all ==> done + (if i in held then 1 else 0) <= Arrivals(es, id, i))
    && (!lost && done == 0 ==> forall i :: i in all ==> (i in held <==> Arrivals(es, id, i) > 0))
  }

  ghost predicate Kept(c: Codec, w: World, es: seq<Event>, id: u64)
    requires id in w
  {
    var r := Runs(c, es);
    Counted(All(c, id, w[id]), Held(r.streams, id), Completions(r.up, id), id in r.lost, es, id)
  }

  lemma PurgeKeepsOk(c: Codec, w: World, st: Streams, cutoff: int)
    requires StreamsOk(c, w, st)
    ensures StreamsOk(c, w, Purge(st, cutoff))
    ensures forall id :: Held(Purge(st, cutoff), id) <= Held(st, id)
    ensures forall id :: id !in st.Keys - Purge(st, cutoff).Keys ==> Held(Purge(st, cutoff), id) == Held(st, id)
  {
  }

  /** Integrity, with no proviso: whatever is refused or purged, nothing wrong is handed up. */
  lemma {:induction false} OnlyWhatWasSent(c: Codec, w: World, es: seq<Event>)
    requires RoundTrips(c) && FromWorld(c, w, es)
    ensures StreamsOk(c, w, Runs(c, es).streams)
    ensures forall d :: d in Runs(c, es).up ==> d.id in w && d == Inbound(d.id, w[d.id].ct, w[d.id].payload)
  {
    if es != [] {
      var n := |es| - 1;
      OnlyWhatWasSent(c, w, es[..n]);
      var r := Runs(c, es[..n]);
      match es[n] {
        case Arrive(m, now) =>
          assert FragOf(c, w, m);
          AddRefines(c, w, r.streams, m, now);
          FragFacts(c, m.header.msgID, w[m.header.msgID], m);
        case Expire(cutoff) => PurgeKeepsOk(c, w, r.streams, cutoff);
      }
    }
  }

  lemma {:induction false} KeptAlways(c: Codec, w: World, es: seq<Event>, id: u64)
    requires RoundTrips(c) && FromWorld(c, w, es)
    requires id in w && Frags(c, id, w[id]) != []
    ensures Kept(c, w, es, id)
  {
    if es == [] {
      assert 0 in All(c, id, w[id]);
    } else {
      var n := |es| - 1;
      var r := Runs(c, es[..n]);
      KeptAlways(c, w, es[..n], id);
      OnlyWhatWasSent(c, w, es[..n]);
      if es[n].Arrive? {
        KeptArrive(c, w, es, id);
      } else {
        KeptExpire(c, w, es, id);
      }
    }
  }

  lemma KeptExpire(c: Codec, w: World, es: seq<Event>, id: u64)
    requires es != [] && es[|es| - 1].Expire? && id in w
    requires Kept(c, w, es[..|es| - 1], id) && StreamsOk(c, w, Runs(c, es[..|es| - 1]).streams)
    ensures Kept(c, w, es, id)
  {
    var n := |es| - 1;
    PurgeKeepsOk(c, w, Runs(c, es[..n]).streams, es[n].cutoff);
    assert forall i :: Arrivals(es, id, i) == Arrivals(es[..n], id, i);
  }

  lemma KeptArrive(c: Codec, w: World, es: seq<Event>, id: u64)
    requires RoundTrips(c) && FromWorld(c, w, es) && id in w
    requires es != [] && es[|es| - 1].Arrive?
    requires Kept(c, w, es[..|es| - 1], id) && StreamsOk(c, w, Runs(c, es[..|es| - 1]).streams)
    ensures Kept(c, w, es, id)
  {
    var n := |es| - 1;
    var r, m := Runs(c, es[..n]), es[n].msg;
    assert FragOf(c, w, m);
    AddRefines(c, w, r.streams, m, es[n].now);
    FragFacts(c, m.header.msgID, w[m.header.msgID], m);
    var (st', out) := Add(c, r.streams, m, es[n].now);
    if out.Complete? {
      CompletionsSnoc(r.up, Inbound(m.header.msgID, m.header.contentType, out.payload), id);
    }
    CountedAdd(All(c, id, w[id]), Held(r.streams, id), Completions(r.up, id), id in r.lost, es, id, out);
  }

  lemma CountedAdd(all: set<nat>, held: set<nat>, done: nat, lost: bool, es: seq<Event>, id: u64, out: Outcome)
    requires es != [] && es[|es| - 1].Arrive? && Counted(all, held, done, lost, es[..|es| - 1], id)
    requires var h := es[|es| - 1].msg.header;
             h.msgID == id ==> h.fragIndex in all && (out.Complete? <==> out != TooMany && h.fragIndex !in held && held + {h.fragIndex} == all)
    ensures var h := es[|es| - 1].msg.header;
            if h.msgID != id then Counted(all, held, done, lost, es, id)
            else if out.Complete? then Counted(all, {}, done + 1, lost, es, id)
            else if out == TooMany then Counted(all, held, done, true, es, id)
            else Counted(all, held + {h.fragIndex}, done, lost, es, id)
  {
    var h := es[|es| - 1].msg.header;
    assert forall i :: Arrivals(es, id, i) == Arrivals(es[..|es| - 1], id, i) + if h.msgID == id && i == h.fragIndex then 1 else 0;
  }

  /** With at most 1024 messages and no purge no fragment is ever refused and no stream dropped. */
  lemma {:induction false} NothingLost(c: Codec, w: World, es: seq<Event>)
    requires RoundTrips(c) && FromWorld(c, w, es) && |w| <= 1024 && forall i :: 0 <= i < |es| ==> es[i].Arrive?
    ensures Runs(c, es).lost == {}
  {
    if es != [] {
      var n := |es| - 1;
      NothingLost(c, w, es[..n]);
      OnlyWhatWasSent(c, w, es[..n]);
      assert FragOf(c, w, es[n].msg);
      NotRefused(c, w, Runs(c, es[..n]).streams, es[n].msg, es[n].now);
    }
  }

  lemma NotRefused(c: Codec, w: World, st: Streams, m: Message, now: int)
    requires RoundTrips(c) && StreamsOk(c, w, st) && FragOf(c, w, m) && |w| <= 1024
    ensures Add(c, st, m, now).1 != TooMany
  {
    AddRefuses(c, st, m, now);
    if m.header.msgID !in st {
      assert st.Keys <= w.Keys - {m.header.msgID};
      KeysFit(st.Keys, w.Keys - {m.header.msgID});
    }
  }

  lemma KeysFit(a: set<u64>, b: set<u64>)
    requires a <= b
    ensures |a| <= |b|
  {
    assert |b - a| == |b| - |a|;
  }

  /** Every fragment of every message, once each and in any order: every message is handed up once, as it was sent. */
  lemma ReassembledOnce(c: Codec, w: World, es: seq<Event>, id: u64)
    requires RoundTrips(c) && FromWorld(c, w, es) && |w| <= 1024 && forall i :: 0 <= i < |es| ==> es[i].Arrive?
    requires id in w && Frags(c, id, w[id]) != [] && forall i :: 0 <= i < |Frags(c, id, w[id])| ==> Arrivals(es, id, i) == 1
    ensures Completions(Runs(c, es).up, id) == 1
    ensures Inbound(id, w[id].ct, w[id].payload) in Runs(c, es).up
  {
    NothingLost(c, w, es);
    ReassemblyCounts(c, w, es, id);
    OnlyWhatWasSent(c, w, es);
    CompletedIsUp(Runs(c, es).up, id);
  }

  lemma {:induction false} CompletedIsUp(up: seq<Inbound>, id: u64)
    requires Completions(up, id) > 0
    ensures exists d :: d in up && d.id == id
  {
    if up[|up| - 1].id == id {
      assert up[|up| - 1] in up;
    } else {
      CompletedIsUp(up[..|up| - 1], id);
      var d :| d in up[..|up| - 1] && d.id == id;
      assert d in up;
    }
  }

  predicate IsArrival(e: Event, id: u64, i: nat) { e.Arrive? && e.msg.header.msgID == id && e.msg.header.fragIndex == i }

  function UpAt(up: seq<Inbound>, id: u64): set<int> { set k | 0 <= k < |up| && up[k].id == id }
  function ArrivedAt(es: seq<Event>, id: u64, i: nat): set<int> { set k | 0 <= k < |es| && IsArrival(es[k], id, i) }

  /** The counts are of the places where the message was handed up, and where the fragment arrived. */
  lemma {:induction false} CompletionsAre(up: seq<Inbound>, id: u64)
    ensures Completions(up, id) == |UpAt(up, id)|
  {
    if up != [] {
      var n := |up| - 1;
      CompletionsAre(up[..n], id);
      assert UpAt(up, id) == UpAt(up[..n], id) + if up[n].id == id then {n} else {};
    }
  }

  lemma {:induction false} ArrivalsAre(es: seq<Event>, id: u64, i: nat)
    ensures Arrivals(es, id, i) == |ArrivedAt(es, id, i)|
  {
    if es != [] {
      var n := |es| - 1;
      ArrivalsAre(es[..n], id, i);
      assert ArrivedAt(es, id, i) == ArrivedAt(es[..n], id, i) + if IsArrival(es[n], id, i) then {n} else {};
    }
  }

  /**
   * Reassembly.  Take any messages with distinct IDs and any interleaving, reordering and
   * duplication of their fragments.  A message is handed up at most as often as its least-copied
   * fragment arrived; and, when none of its streams was refused or purged, at least once if every
   * fragment arrived, hence exactly once if every fragment arrived exactly once.
   */
  lemma ReassemblyCounts(c: Codec, w: World, es: seq<Event>, id: u64)
    requires RoundTrips(c) && FromWorld(c, w, es)
    requires id in w && Frags(c, id, w[id]) != []
    ensures var n, r := |Frags(c, id, w[id])|, Runs(c, es);
            && (forall i :: 0 <= i < n ==> Completions(r.up, id) <= Arrivals(es, id, i))
            && (id !in r.lost && (forall i :: 0 <= i < n ==> Arrivals(es, id, i) > 0) ==> Completions(r.up, id) >= 1)
            && (id !in r.lost && (forall i :: 0 <= i < n ==> Arrivals(es, id, i) == 1) ==> Completions(r.up, id) == 1)
  {
    KeptAlways(c, w, es, id);
    var all := All(c, id, w[id]);
    assert forall i: nat :: i in all <==> i < |Frags(c, id, w[id])|;
    assert 0 in all;
    if forall i :: i in all ==> Arrivals(es, id, i) > 0 {
      assert id in Runs(c, es).lost || Completions(Runs(c, es).up, id) > 0;
    }
  }
}
