/** The parallel transfer comes to its end (pkg/transfer): every step of the protocol is progress. */
module Progress {
  import opened Bytes
  import opened Ranges
  import opened Transfer
  import opened Parallel

  /** Messages between the two sides. */
  function Volume(q: seq<seq<Msg>>): nat
  {
    if q == [] then 0 else Volume(q[..|q| - 1]) + |q[|q| - 1]|
  }

  lemma {:induction false} VolumeShrinks(q: seq<seq<Msg>>, i: nat)
    requires i < |q| && q[i] != []
    ensures Volume(q[i := q[i][1..]]) == Volume(q) - 1
  {
    var n := |q| - 1;
    var q' := q[i := q[i][1..]];
    if i < n {
      VolumeShrinks(q[..n], i);
      assert q'[..n] == q[..n][i := q[..n][i][1..]];
    } else {
      assert q'[..n] == q[..n];
    }
  }

  function AtLeast0(x: int): nat { if x > 0 then x else 0 }

  /** What the first `n` goroutines still have to write of the file: bytes, and EOS. */
  function Unsent(j: Job, src: Bytes, off: seq<int>, eos: seq<bool>, n: nat): nat
    requires n <= j.n && |off| == |eos| == j.n
  {
    if n == 0 then 0 else Unsent(j, src, off, eos, n - 1) + AtLeast0(Hi(j, src, n - 1) - off[n - 1]) + if eos[n - 1] then 0 else 1
  }

  lemma {:induction false} UnsentSame(j: Job, src: Bytes, off: seq<int>, eos: seq<bool>, off': seq<int>, eos': seq<bool>, n: nat)
    requires n <= j.n && |off| == |eos| == j.n == |off'| == |eos'|
    requires forall x :: 0 <= x < n ==> off[x] == off'[x] && eos[x] == eos'[x]
    ensures Unsent(j, src, off, eos, n) == Unsent(j, src, off', eos', n)
  {
    if n > 0 {
      UnsentSame(j, src, off, eos, off', eos', n - 1);
    }
  }

  lemma {:induction false} UnsentShrinks(j: Job, src: Bytes, off: seq<int>, eos: seq<bool>, i: nat, o: int, e: bool, n: nat)
    requires i < n <= j.n && |off| == |eos| == j.n && !eos[i]
    requires if off[i] < Hi(j, src, i) then off[i] < o && !e else o == off[i] && e
    ensures Unsent(j, src, off[i := o], eos[i := e], n) < Unsent(j, src, off, eos, n)
  {
    if i < n - 1 {
      UnsentShrinks(j, src, off, eos, i, o, e, n - 1);
    } else {
      UnsentSame(j, src, off, eos, off[i := o], eos[i := e], n - 1);
    }
  }

  // ---------------------------------------------------------------- the distance to the end

  /** Files to acknowledge, the sender's phase, whether the file is saved, what is to be written and to be read. */
  datatype Distance = Distance(files: nat, phase: nat, unsaved: nat, unsent: nat, unread: nat)

  function DistanceOf(j: Job, s: State): Distance
  {
    Distance(AtLeast0(|j.files| - s.snd.k),
             if s.snd.phase == Idle then 2 else if s.snd.phase == Sending then 1 else 0,
             AtLeast0(s.snd.k + 1 - |s.rcv.saved|),
             if s.snd.phase == Sending && s.snd.k < |j.files| && |s.snd.off| == |s.snd.eos| == j.n then Unsent(j, j.files[s.snd.k], s.snd.off, s.snd.eos, j.n) else 0,
             Volume(s.fwd))
  }

  /** Closer to the end, in lexicographic order. */
  predicate Closer(a: Distance, b: Distance)
  {
    || a.files < b.files
    || (a.files == b.files && a.phase < b.phase)
    || (a.files == b.files && a.phase == b.phase && a.unsaved < b.unsaved)
    || (a.files == b.files && a.phase == b.phase && a.unsaved == b.unsaved && a.unsent < b.unsent)
    || (a.files == b.files && a.phase == b.phase && a.unsaved == b.unsaved && a.unsent == b.unsent && a.unread < b.unread)
  }

  lemma PutCloser(j: Job, s: State, i: nat)
    requires JobOk(j) && Inv(j, s) && Enabled(j, s, Put(i))
    ensures Closer(DistanceOf(j, Next(j, s, Put(i))), DistanceOf(j, s))
  {
    var src, s' := j.files[s.snd.k], Next(j, s, Put(i));
    var off, hi := s.snd.off[i], Hi(j, src, i);
    var o, e := if off < hi then off + Take(off, hi) else off, off >= hi;
    UnsentShrinks(j, src, s.snd.off, s.snd.eos, i, o, e, j.n);
    assert s'.snd.off == s.snd.off[i := o] && s'.snd.eos == s.snd.eos[i := e];
  }

  lemma GetCloser(j: Job, s: State, i: nat, step: Step)
    requires JobOk(j) && Inv(j, s) && Enabled(j, s, step) && (step == Get(i) || (step == GetHeader && i == 0))
    ensures Closer(DistanceOf(j, Next(j, s, step)), DistanceOf(j, s))
  {
    NextInv(j, s, step);
    VolumeShrinks(s.fwd, i);
    var s' := Next(j, s, step);
    assert s'.fwd == s.fwd[i := s.fwd[i][1..]] && s'.snd == s.snd;
    ReadSaves(j, s, step);
  }

  lemma ReadSaves(j: Job, s: State, step: Step)
    requires step.Get? || step.GetHeader?
    ensures Next(j, s, step).rcv.saved == s.rcv.saved
  {
  }

  /** Every step of the protocol brings the transfer closer to its end, so no run of it goes on for ever. */
  lemma StepCloser(j: Job, s: State, step: Step)
    requires JobOk(j) && Inv(j, s) && Enabled(j, s, step) && !Fault(step)
    ensures Closer(DistanceOf(j, Next(j, s, step)), DistanceOf(j, s))
  {
    match step {
      case PutHeader => NextInv(j, s, step);
      case Put(i) => PutCloser(j, s, i);
      case PutTrailer => NextInv(j, s, step);
      case GetDone =>
        KeepGetDone(j, s);
      case GetHeader => GetCloser(j, s, 0, step);
      case Get(i) => GetCloser(j, s, i, step);
      case Finish(w) =>
        KeepFinish(j, s, w);
        assert |Next(j, s, step).rcv.saved| == |s.rcv.saved| + 1;
    }
  }

  /** Neither side fails by itself, and no DONE gets lost. */
  lemma StepKeepsAlive(j: Job, s: State, step: Step)
    requires JobOk(j) && Inv(j, s) && !Fault(step) && s.snd.alive && s.rcv.alive && !s.lostDone
    ensures var s' := Next(j, s, step); s'.snd.alive && s'.rcv.alive && !s'.lostDone
  {
    NextInv(j, s, step);
    if Enabled(j, s, step) && step.Get? {
      ReadAlive(j, s.rcv, step.i, s.fwd[step.i][0]);
    }
  }

  lemma ReadAlive(j: Job, r: Receiver, i: nat, m: Msg)
    requires i < |r.done| == |r.got| == |r.seen|
    ensures Read(j, r, i, m).alive == r.alive || Read(j, r, i, m).corrupt
  {
  }

  lemma Snoc(j: Job, steps: seq<Step>, step: Step)
    ensures Exec(j, steps + [step]) == Next(j, Exec(j, steps), step)
  {
    assert (steps + [step])[..|steps|] == steps;
  }

  function Left(j: Job, steps: seq<Step>): Distance { DistanceOf(j, Exec(j, steps)) }

  /**
   * The transfer completes.  From every reachable state in which neither side has failed and no DONE
   * was lost, some steps of the protocol alone lead to where every file is saved, byte for byte, and
   * acknowledged.
   */
  lemma {:induction false} Completes(j: Job, steps: seq<Step>) returns (more: seq<Step>)
    requires JobOk(j)
    requires var s := Exec(j, steps); s.snd.alive && s.rcv.alive && !s.lostDone
    ensures forall i :: 0 <= i < |more| ==> !Fault(more[i])
    ensures var s := Exec(j, steps + more); s.snd.k == |j.files| && s.rcv.saved == j.files && !s.rcv.corrupt
    decreases Left(j, steps).files, Left(j, steps).phase, Left(j, steps).unsaved, Left(j, steps).unsent, Left(j, steps).unread
  {
    var s := Exec(j, steps);
    InvAlways(j, steps);
    if s.snd.k >= |j.files| {
      more := [];
      assert steps + more == steps;
      TransferCorrect(j, steps);
      KAtMost(j, s);
    } else {
      NoDeadlock(j, steps);
      var step :| !Fault(step) && Enabled(j, s, step);
      Snoc(j, steps, step);
      StepCloser(j, s, step);
      StepKeepsAlive(j, s, step);
      InvAlways(j, steps + [step]);
      var rest := Completes(j, steps + [step]);
      more := [step] + rest;
      assert steps + [step] + rest == steps + more;
    }
  }

  lemma KAtMost(j: Job, s: State)
    requires JobOk(j) && Inv(j, s) && s.snd.k >= |j.files|
    ensures s.snd.k == |j.files| && s.rcv.saved == j.files
  {
  }
}
