/**
 * The relay's byte bridge (cmd/relay, handle, coordinate and bridge2; pkg/rendezvous, bufConn): lines
 * are read through a buffer that may run ahead, the first peer's through a 257-byte cap that is
 * lifted before bridging, and what was buffered must still flow through.
 */
module Bridge {
  import opened Bytes

  const CONTROL_CAP: nat := 257
  const LIFTED_CAP: nat := 0x4000_0000_0000_0000
  const BUFFER: nat := 4096
  const NL: byte := 10

  predicate HasNL(b: Bytes) { NL in b }

  /** Where the first line ends. */
  function LineEnd(b: Bytes): (n: nat)
    requires HasNL(b)
    ensures 0 < n <= |b| && b[n - 1] == 10 && 10 !in b[..n - 1]
  {
    if b[0] == NL then 1 else 1 + LineEnd(b[1..])
  }

  /** One line: a newline at the end and nowhere else. */
  predicate IsLine(l: Bytes) { l != [] && l[|l| - 1] == NL && NL !in l[..|l| - 1] }

  lemma LineEndUnique(b: Bytes, n: nat)
    requires 0 < n <= |b| && b[n - 1] == NL && NL !in b[..n - 1]
    ensures HasNL(b) && LineEnd(b) == n
  {
    var m := LineEnd(b);
  }

  lemma LineEndOf(l: Bytes, rest: Bytes)
    requires IsLine(l)
    ensures HasNL(l + rest) && LineEnd(l + rest) == |l|
  {
    assert (l + rest)[..|l| - 1] == l[..|l| - 1];
    LineEndUnique(l + rest, |l|);
  }

  lemma CutLine(line: Bytes, buf: Bytes, src: Bytes, n: nat)
    requires n <= |buf|
    ensures (line + (buf + src))[..|line| + n] == line + buf[..n]
    ensures (line + (buf + src))[|line| + n..] == buf[n..] + src
  {
    assert buf == buf[..n] + buf[n..];
    assert line + (buf + src) == (line + buf[..n]) + (buf[n..] + src);
  }

  /** A newline found in the buffer ends the line that was being read. */
  lemma LineFound(all: Bytes, reach: nat, line: Bytes, buf: Bytes, src: Bytes)
    requires all == line + (buf + src) && |line + buf| <= reach <= |all| && NL !in line && HasNL(buf)
    ensures HasNL(all[..reach]) && LineEnd(all[..reach]) == |line| + LineEnd(buf)
  {
    var n := LineEnd(buf);
    var m := |line| + n;
    CutLine(line, buf, src, n - 1);
    assert all[..reach][..m - 1] == all[..m - 1] == line + buf[..n - 1];
    assert all[m - 1] == buf[n - 1];
    LineEndUnique(all[..reach], m);
  }

  /** A buffered reader over a capped source.  `src` is all that the peer has yet to be read. */
  class Reader {
    var src: Bytes
    var cap: nat
    var buf: Bytes

    constructor (src: Bytes, cap: nat)
      ensures this.src == src && this.cap == cap && buf == []
    {
      this.src, this.cap, buf := src, cap, [];
    }

    /** Everything not yet consumed. */
    ghost function Content(): Bytes
      reads this
    {
      buf + src
    }

    /** How much of it may still be consumed: what is buffered, and what cap and arrival let through. */
    ghost function Reachable(arrived: nat): nat
      reads this
    {
      var more := if cap < arrived then cap else arrived;
      |buf| + if more < |src| then more else |src|
    }

    /**
     * ReadString up to a newline, with reads of any sizes; only `arrived` more bytes come before the deadline.
     * Without a newline among them the part that was read is consumed and lost.
     */
    method ReadLine(arrived: nat) returns (line: Bytes, ok: bool)
      modifies this
      ensures ok == HasNL(old(Content())[..old(Reachable(arrived))])
      ensures ok ==> line == old(Content())[..LineEnd(old(Content())[..old(Reachable(arrived))])]
      ensures !ok ==> line == old(Content())[..old(Reachable(arrived))]
      ensures Content() == old(Content())[|line|..]
      ensures |buf| + cap + |line| == |old(buf)| + old(cap) && |old(src)| <= |src| + arrived
    {
      ghost var all, reach := Content(), Reachable(arrived);
      line, ok := Gather(arrived);
      if ok {
        line := FinishLine(all, reach, line);
      } else {
        PartsOf(line, Content());
      }
    }

    /** The newline is in the buffer. */
    method FinishLine(ghost all: Bytes, ghost reach: nat, start: Bytes) returns (line: Bytes)
      requires all == start + Content() && |start + buf| <= reach <= |all| && NL !in start && HasNL(buf)
      modifies this
      ensures HasNL(all[..reach]) && line == all[..LineEnd(all[..reach])] && Content() == all[|line|..]
      ensures |buf| + |line| == |old(buf)| + |start| && src == old(src) && cap == old(cap)
    {
      var n := LineEnd(buf);
      LineFound(all, reach, start, buf, src);
      CutLine(start, buf, src, n);
      line, buf := start + buf[..n], buf[n..];
    }

    /** Move whole buffers without a newline into `line`, until one has a newline or nothing more comes. */
    method Gather(arrived: nat) returns (line: Bytes, found: bool)
      modifies this
      ensures old(Content()) == line + Content() && NL !in line
      ensures found ==> HasNL(buf) && |line + buf| <= old(Reachable(arrived))
      ensures !found ==> buf == [] && |line| == old(Reachable(arrived))
      ensures |buf| + cap + |line| == |old(buf)| + old(cap) && |old(src)| <= |src| + arrived
    {
      ghost var all, reach := Content(), Reachable(arrived);
      line, found := [], true;
      var left: nat := arrived;
      while !HasNL(buf)
        invariant all == line + Content() && |line| + Reachable(left) == reach
        invariant |buf| + cap + |line| == |old(buf)| + old(cap) && |old(src)| - |src| == arrived - left
        invariant NL !in line
        decreases |src|
      {
        line, buf := line + buf, [];
        assert all == line + Content();
        var k := Fill(left);
        if k == 0 {
          return line, false;
        }
        left := left - k;
      }
    }

    /** One read into the empty buffer; zero at the cap, at the deadline and at the end. */
    method Fill(left: nat) returns (k: nat)
      requires buf == []
      modifies this
      ensures k <= left && Content() == old(Content()) && Reachable(left - k) == old(Reachable(left))
      ensures |buf| + cap == old(cap) && |old(src)| - |src| == k == |buf|
      ensures k == 0 ==> old(Reachable(left)) == 0
    {
      var more := if cap < left then cap else left;
      if more == 0 || src == [] {
        return 0;
      }
      k :| 1 <= k <= BUFFER && k <= more && k <= |src|;
      buf, src, cap := src[..k], src[k..], cap - k;
    }

    /** Read to the end of the source, in pieces of any sizes. */
    method ReadRest() returns (data: Bytes)
      modifies this
      ensures data == old(Content())[..old(Reachable(|src|))]
    {
      data := buf;
      buf := [];
      ghost var all, reach := old(Content()), old(Reachable(|src|));
      while cap > 0 && src != []
        invariant data + src == all && |data| + (if cap < |src| then cap else |src|) == reach
        invariant buf == []
        decreases |src|
      {
        var k :| 1 <= k <= cap && k <= |src|;
        data, src, cap := data + src[..k], src[k..], cap - k;
      }
      assert all[..reach] == data;
    }
  }

  /** Read a line that is known to come next, of which `reach` bytes can be reached. */
  method ReadKnownLine(r: Reader, l: Bytes, rest: Bytes, arrived: nat) returns (line: Bytes, ok: bool)
    requires IsLine(l) && r.Content() == l + rest
    modifies r
    ensures ok == (|l| <= old(r.Reachable(arrived)))
    ensures line == if ok then l else l[..old(r.Reachable(arrived))]
    ensures r.Content() == if ok then rest else l[|line|..] + rest
    ensures |r.buf| + r.cap + |line| == |old(r.buf)| + old(r.cap) && |old(r.src)| <= |r.src| + arrived
  {
    ghost var reach := r.Reachable(arrived);
    ghost var seen := (l + rest)[..reach];
    if |l| <= reach {
      assert seen == l + rest[..reach - |l|];
      LineEndOf(l, rest[..reach - |l|]);
    } else {
      assert seen == l[..reach];
      assert NL !in seen by {
        assert forall i :: 0 <= i < reach ==> seen[i] == l[..|l| - 1][i];
      }
    }
    line, ok := r.ReadLine(arrived);
    assert (l + rest)[..|l|] == l;
  }

  /**
   * The first peer's side of the bridge.  It writes its session and info lines, its report and then
   * its data; `arrived` of its bytes have come when the report deadline passes.  The relay drops the
   * connection when the first two lines exceed the cap.  Otherwise what it forwards is exactly the
   * data if and only if the three control lines fit the cap and had arrived in time; past either
   * limit the rest of the report line is forwarded as if it were data.
   */
  method FirstPeerForwards(sid: Bytes, info: Bytes, report: Bytes, data: Bytes, arrived: nat) returns (forwarded: Option<Bytes>)
    requires IsLine(sid) && IsLine(info) && IsLine(report)
    requires |sid + info| <= arrived && |sid + info + report + data| <= 0x4000_0000_0000_0000
    ensures forwarded.Some? <==> |sid + info| <= 257
    ensures forwarded.Some? ==> (forwarded.value == data <==> |sid + info + report| <= 257 && |sid + info + report| <= arrived)
    ensures forwarded.Some? ==> exists k :: 0 <= k <= |report| && forwarded.value == report[k..] + data
  {
    var stream := sid + (info + (report + data));
    var r := new Reader(stream, CONTROL_CAP);
    var ok := ReadTwoLines(r, sid, info, report + data, arrived);
    if !ok {
      return None;
    }
    var rest := ReportThenRest(r, report, data, arrived - (|stream| - |r.src|));
    return Some(rest);
  }

  method ReadTwoLines(r: Reader, sid: Bytes, info: Bytes, rest: Bytes, arrived: nat) returns (ok: bool)
    requires IsLine(sid) && IsLine(info) && r.buf == [] && r.src == sid + (info + rest) && |sid + info| <= arrived
    modifies r
    ensures ok == (|sid + info| <= old(r.cap))
    ensures ok ==> r.Content() == rest && |r.buf| + r.cap == old(r.cap) - |sid + info| && |old(r.src)| <= |r.src| + arrived
  {
    ghost var total := |r.src|;
    var _, ok1 := ReadKnownLine(r, sid, info + rest, arrived);
    if !ok1 {
      return false;
    }
    var _, ok2 := ReadKnownLine(r, info, rest, arrived - (|sid + (info + rest)| - |r.src|));
    return ok2;
  }

  /** The report, then, with the cap lifted, everything that is left. */
  method ReportThenRest(r: Reader, report: Bytes, data: Bytes, arrived: nat) returns (rest: Bytes)
    requires IsLine(report) && r.Content() == report + data && |report + data| <= 0x4000_0000_0000_0000
    modifies r
    ensures rest == data <==> |report| <= old(r.Reachable(arrived))
    ensures exists k :: 0 <= k <= |report| && rest == report[k..] + data
  {
    var line, ok := ReadKnownLine(r, report, data, arrived);
    r.cap := LIFTED_CAP;
    ghost var k := |line|;
    assert report[|report|..] + data == data;
    assert r.Content() == report[k..] + data;
    rest := r.ReadRest();
    assert rest == report[k..] + data;
  }

  /**
   * The second peer's side: a new, uncapped reader starts at its report, which it writes only after
   * START.  Here only the deadline matters.
   */
  method SecondPeerForwards(report: Bytes, data: Bytes, arrived: nat) returns (forwarded: Bytes)
    requires IsLine(report) && |report + data| <= 0x4000_0000_0000_0000
    ensures forwarded == data <==> |report| <= arrived
    ensures exists k :: 0 <= k <= |report| && forwarded == report[k..] + data
  {
    var r := new Reader(report + data, LIFTED_CAP);
    forwarded := ReportThenRest(r, report, data, arrived);
  }

  /** A client that has read partner info, START and BRIDGE gets every byte after them, buffered or not. */
  method ClientReads(info: Bytes, start: Bytes, decision: Bytes, data: Bytes) returns (got: Bytes)
    requires IsLine(info) && IsLine(start) && IsLine(decision) && |info + start + decision + data| <= 0x4000_0000_0000_0000
    ensures got == data
  {
    var stream := info + (start + (decision + data));
    var r := new Reader(stream, |stream|);
    var _, _ := ReadKnownLine(r, info, start + (decision + data), |r.src|);
    var _, _ := ReadKnownLine(r, start, decision + data, |r.src|);
    var _, _ := ReadKnownLine(r, decision, data, |r.src|);
    got := r.ReadRest();
  }

  /** What a peer writes to the relay. */
  datatype Writes = Writes(sid: Bytes, info: Bytes, report: Bytes, data: Bytes)

  predicate WellFormed(w: Writes)
  {
    IsLine(w.sid) && IsLine(w.info) && IsLine(w.report) && |w.sid + w.info + w.report + w.data| <= 0x4000_0000_0000_0000
  }

  /** Whether the relay goes on with a peer: its first two lines fit the cap. */
  method Admits(sid: Bytes, info: Bytes) returns (ok: bool)
    requires IsLine(sid) && IsLine(info)
    ensures ok == (|sid + info| <= 257)
  {
    var stream := sid + (info + []);
    var r := new Reader(stream, CONTROL_CAP);
    ok := ReadTwoLines(r, sid, info, [], |stream|);
  }

  /**
   * Bridge transparency, both ways.  The relay bridges two peers exactly when the first two lines of
   * each fit the cap.  Then, if the first peer's report fits the cap too and both reports arrive
   * before the deadline, each peer reads after BRIDGE exactly the bytes the other wrote after its
   * report, whatever the sizes of the reads on the way.
   */
  method Bridged(a: Writes, b: Writes, toA: (Bytes, Bytes, Bytes), toB: (Bytes, Bytes, Bytes), arrivedA: nat, arrivedB: nat)
    returns (readByA: Option<Bytes>, readByB: Option<Bytes>)
    requires WellFormed(a) && WellFormed(b)
    requires IsLine(toA.0) && IsLine(toA.1) && IsLine(toA.2) && |toA.0 + toA.1 + toA.2 + b.report + b.data| <= 0x4000_0000_0000_0000
    requires IsLine(toB.0) && IsLine(toB.1) && IsLine(toB.2) && |toB.0 + toB.1 + toB.2 + a.report + a.data| <= 0x4000_0000_0000_0000
    requires |a.sid + a.info| <= arrivedA
    ensures readByA.Some? == readByB.Some? == (|a.sid + a.info| <= 257 && |b.sid + b.info| <= 257)
    ensures readByB.Some? ==>
              (readByB.value == a.data <==> |a.sid + a.info + a.report| <= 257 && |a.sid + a.info + a.report| <= arrivedA)
    ensures readByA.Some? ==> (readByA.value == b.data <==> |b.report| <= arrivedB)
  {
    var fromA := FirstPeerForwards(a.sid, a.info, a.report, a.data, arrivedA);
    var admitted := Admits(b.sid, b.info);
    if fromA.None? || !admitted {
      return None, None;
    }
    var fromB := SecondPeerForwards(b.report, b.data, arrivedB);
    var toPeerB := ClientReads(toB.0, toB.1, toB.2, fromA.value);
    var toPeerA := ClientReads(toA.0, toA.1, toA.2, fromB);
    return Some(toPeerA), Some(toPeerB);
  }
}
