/**
 * The three-party decision between a direct link and the relay's bridge (cmd/relay, coordinate;
 * pkg/rendezvous, Dial and validatePunch).
 */
module Rendezvous {
  import opened Bytes

  type Link = nat

  datatype Verdict = Unknown | Valid | Invalid

  /** What Dial hands back; the direct connection may in principle be absent. */
  datatype Outcome = Direct(conn: Option<Link>) | Bridged

  /**
   * One client.  `picked` is set once, to the one connection it chose among those punched, or to
   * none; the magic is written on that connection only.
   */
  datatype Client = Client(
    picked: Option<Option<Link>>, wrote: bool, verdict: Verdict, report: Option<bool>, result: Option<Outcome>, failed: bool)

  /** `heard` is what the relay made of each report; a timeout counts as a failed punch. */
  datatype State = State(a: Client, b: Client, heardA: Option<bool>, heardB: Option<bool>, direct: Option<bool>)

  datatype Step =
    | Pick(byA: bool, link: Option<Link>)
    | WriteMagic(byA: bool)
    | ReadMagic(byA: bool)
    | ValidationFails(byA: bool)
    | Report(byA: bool)
    | Hear(byA: bool)
    | ReportTimeout(byA: bool)
    | Decide
    | GetDecision(byA: bool)
    | DialFails(byA: bool)

  predicate OnLink(c: Client, l: Link) { c.picked == Some(Some(l)) }

  /**
   * `joins` are the links whose two ends are these two clients.  On any other link the magic, if it
   * comes, comes from a stranger.
   */
  predicate ClientCan(joins: set<Link>, me: Client, other: Client, direct: Option<bool>, step: Step)
  {
    !me.failed && me.result.None? &&
    match step
    case Pick(_, _) => me.picked.None?
    case WriteMagic(_) => me.picked.Some? && me.picked.value.Some? && !me.wrote && me.verdict == Unknown
    case ReadMagic(_) =>
      me.wrote && me.verdict == Unknown && me.picked.Some? && me.picked.value.Some?
      && (me.picked.value.value in joins ==> other.wrote && OnLink(other, me.picked.value.value))
    case ValidationFails(_) => me.picked.Some? && me.picked.value.Some? && me.verdict == Unknown
    case Report(_) => me.report.None? && me.picked.Some? && (me.picked.value.None? || me.verdict != Unknown)
    case GetDecision(_) => me.report.Some? && direct.Some?
    case _ => false
  }

  /** The validated connection, if there is one. */
  function Chosen(c: Client): Option<Link>
  {
    if c.verdict == Valid && c.picked.Some? then c.picked.value else None
  }

  function ClientNext(me: Client, direct: Option<bool>, step: Step): Client
  {
    match step
    case Pick(_, l) => me.(picked := Some(l))
    case WriteMagic(_) => me.(wrote := true)
    case ReadMagic(_) => me.(verdict := Valid)
    case ValidationFails(_) => me.(verdict := Invalid)
    case Report(_) => me.(report := Some(Chosen(me).Some?))
    case GetDecision(_) => me.(result := Some(if direct == Some(true) then Direct(Chosen(me)) else Bridged))
    case DialFails(_) => me.(failed := true)
    case _ => me
  }

  function Next(joins: set<Link>, s: State, step: Step): State
  {
    match step
    case Hear(byA) =>
      if byA then (if s.heardA.None? && s.a.report.Some? then s.(heardA := s.a.report) else s)
      else (if s.heardB.None? && s.b.report.Some? then s.(heardB := s.b.report) else s)
    case ReportTimeout(byA) =>
      if byA then (if s.heardA.None? then s.(heardA := Some(false)) else s)
      else (if s.heardB.None? then s.(heardB := Some(false)) else s)
    case Decide =>
      if s.heardA.Some? && s.heardB.Some? && s.direct.None? then s.(direct := Some(s.heardA.value && s.heardB.value)) else s
    case DialFails(byA) =>
      if byA then (if s.a.result.None? then s.(a := ClientNext(s.a, s.direct, step)) else s)
      else (if s.b.result.None? then s.(b := ClientNext(s.b, s.direct, step)) else s)
    case _ =>
      if step.byA then (if ClientCan(joins, s.a, s.b, s.direct, step) then s.(a := ClientNext(s.a, s.direct, step)) else s)
      else (if ClientCan(joins, s.b, s.a, s.direct, step) then s.(b := ClientNext(s.b, s.direct, step)) else s)
  }

  function Start(): State
  {
    var c := Client(None, false, Unknown, None, None, false);
    State(c, c, None, None, None)
  }

  function Exec(joins: set<Link>, steps: seq<Step>): State
  {
    if steps == [] then Start() else Next(joins, Exec(joins, steps[..|steps| - 1]), steps[|steps| - 1])
  }

  ghost predicate ClientOk(joins: set<Link>, me: Client, other: Client, heard: Option<bool>, direct: Option<bool>)
  {
    && (me.verdict == Valid ==> me.picked.Some? && me.picked.value.Some?)
    && (me.verdict == Valid && me.picked.value.value in joins ==> OnLink(other, me.picked.value.value))
    && (me.report.Some? ==> me.picked.Some? && (me.verdict == Unknown ==> me.picked.value.None?))
    && (me.report.Some? ==> me.report.value == Chosen(me).Some?)
    && (heard == Some(true) ==> me.report == Some(true))
    && (me.result.Some? ==> direct.Some? && me.result.value == if direct.value then Direct(Chosen(me)) else Bridged)
  }

  ghost predicate Inv(joins: set<Link>, s: State)
  {
    && ClientOk(joins, s.a, s.b, s.heardA, s.direct)
    && ClientOk(joins, s.b, s.a, s.heardB, s.direct)
    && (s.direct.Some? ==> s.heardA.Some? && s.heardB.Some? && s.direct.value == (s.heardA.value && s.heardB.value))
  }

  /** A client goes one step after the other: link, magic, answer, report, decision. */
  ghost predicate InOrder(c: Client, heard: Option<bool>, direct: Option<bool>)
  {
    && (c.wrote ==> c.picked.Some? && c.picked.value.Some?)
    && (c.verdict == Valid ==> c.wrote)
    && (c.verdict == Invalid ==> c.picked.Some? && c.picked.value.Some?)
    && (c.report.Some? ==> c.picked.Some? && (c.picked.value.Some? ==> c.verdict != Unknown))
    && (c.result.Some? ==> c.report.Some? && direct.Some?)
    && (heard == Some(true) ==> c.report == Some(true))
    && (direct.Some? ==> heard.Some?)
  }

  lemma NextInOrder(joins: set<Link>, s: State, step: Step)
    requires InOrder(s.a, s.heardA, s.direct) && InOrder(s.b, s.heardB, s.direct)
    ensures var s' := Next(joins, s, step); InOrder(s'.a, s'.heardA, s'.direct) && InOrder(s'.b, s'.heardB, s'.direct)
  {
    if step.Hear? || step.ReportTimeout? || step.Decide? || step.DialFails? {
      RelayInOrder(joins, s, step);
    } else if step.byA && ClientCan(joins, s.a, s.b, s.direct, step) {
      ClientInOrder(joins, s.a, s.b, s.heardA, s.direct, step);
    } else if !step.byA && ClientCan(joins, s.b, s.a, s.direct, step) {
      ClientInOrder(joins, s.b, s.a, s.heardB, s.direct, step);
    }
  }

  lemma RelayInOrder(joins: set<Link>, s: State, step: Step)
    requires InOrder(s.a, s.heardA, s.direct) && InOrder(s.b, s.heardB, s.direct)
    requires step.Hear? || step.ReportTimeout? || step.Decide? || step.DialFails?
    ensures var s' := Next(joins, s, step); InOrder(s'.a, s'.heardA, s'.direct) && InOrder(s'.b, s'.heardB, s'.direct)
  {
  }

  lemma ClientInOrder(joins: set<Link>, me: Client, other: Client, heard: Option<bool>, direct: Option<bool>, step: Step)
    requires InOrder(me, heard, direct) && ClientCan(joins, me, other, direct, step)
    ensures InOrder(ClientNext(me, direct, step), heard, direct)
  {
  }

  /** Both clients do so in every run, and nobody gets a decision that the relay has not made. */
  lemma {:induction false} AlwaysInOrder(joins: set<Link>, steps: seq<Step>)
    ensures var s := Exec(joins, steps); InOrder(s.a, s.heardA, s.direct) && InOrder(s.b, s.heardB, s.direct)
  {
    if steps != [] {
      AlwaysInOrder(joins, steps[..|steps| - 1]);
      NextInOrder(joins, Exec(joins, steps[..|steps| - 1]), steps[|steps| - 1]);
    }
  }

  /** A Dial that has failed or has a result takes no further step. */
  lemma EndIsFinal(joins: set<Link>, s: State, step: Step)
    ensures s.a.failed || s.a.result.Some? ==> Next(joins, s, step).a == s.a || (step == DialFails(true) && s.a.failed)
    ensures s.b.failed || s.b.result.Some? ==> Next(joins, s, step).b == s.b || (step == DialFails(false) && s.b.failed)
    ensures s.a.result.None? ==> Next(joins, s, DialFails(true)) == s.(a := s.a.(failed := true))
    ensures s.b.result.None? ==> Next(joins, s, DialFails(false)) == s.(b := s.b.(failed := true))
  {
  }

  /** After the answer, or the wait for it, a client writes no magic and does not change its mind. */
  lemma AnswerIsFinal(joins: set<Link>, s: State, step: Step)
    ensures s.a.verdict != Unknown ==> Next(joins, s, step).a.wrote == s.a.wrote && Next(joins, s, step).a.verdict == s.a.verdict
    ensures s.b.verdict != Unknown ==> Next(joins, s, step).b.wrote == s.b.wrote && Next(joins, s, step).b.verdict == s.b.verdict
  {
  }

  /** A step of one client, seen from both sides. */
  lemma ClientKeeps(joins: set<Link>, me: Client, other: Client, heard: Option<bool>, heardOther: Option<bool>, direct: Option<bool>, step: Step)
    requires ClientOk(joins, me, other, heard, direct) && ClientOk(joins, other, me, heardOther, direct)
    requires step.DialFails? || ClientCan(joins, me, other, direct, step)
    ensures ClientOk(joins, ClientNext(me, direct, step), other, heard, direct)
    ensures ClientOk(joins, other, ClientNext(me, direct, step), heardOther, direct)
  {
  }

  lemma NextInv(joins: set<Link>, s: State, step: Step)
    requires Inv(joins, s)
    ensures Inv(joins, Next(joins, s, step))
  {
    match step {
      case Hear(_) =>
      case ReportTimeout(_) =>
      case Decide =>
      case _ =>
        if step.byA && (step.DialFails? || ClientCan(joins, s.a, s.b, s.direct, step)) {
          ClientKeeps(joins, s.a, s.b, s.heardA, s.heardB, s.direct, step);
        }
        if !step.byA && (step.DialFails? || ClientCan(joins, s.b, s.a, s.direct, step)) {
          ClientKeeps(joins, s.b, s.a, s.heardB, s.heardA, s.direct, step);
        }
    }
  }

  lemma {:induction false} InvAlways(joins: set<Link>, steps: seq<Step>)
    ensures Inv(joins, Exec(joins, steps))
  {
    if steps != [] {
      InvAlways(joins, steps[..|steps| - 1]);
      NextInv(joins, Exec(joins, steps[..|steps| - 1]), steps[|steps| - 1]);
    }
  }

  /**
   * Transport agreement.  In every run in which both Dials succeed, both are direct or both are
   * bridged.  When direct, both hold a validated connection; and the two connections are the ends of
   * one link that joins the clients exactly when either of them is on such a link.
   */
  lemma TransportAgreement(joins: set<Link>, steps: seq<Step>)
    requires var s := Exec(joins, steps); s.a.result.Some? && s.b.result.Some?
    ensures var s := Exec(joins, steps);
            var ra, rb := s.a.result.value, s.b.result.value;
            || (ra == Bridged && rb == Bridged)
            || (ra.Direct? && rb.Direct? && ra.conn.Some? && rb.conn.Some?
                && ((ra.conn == rb.conn && ra.conn.value in joins) <==> (ra.conn.value in joins || rb.conn.value in joins)))
  {
    InvAlways(joins, steps);
  }

  /** The links that a client can punch are those of its own: `ra` for the first, `rb` for the second. */
  ghost predicate PicksWithin(ra: set<Link>, rb: set<Link>, steps: seq<Step>)
  {
    forall i :: 0 <= i < |steps| ==> MayPick(ra, rb, steps[i])
  }

  predicate MayPick(ra: set<Link>, rb: set<Link>, step: Step)
  {
    step.Pick? && step.link.Some? ==> step.link.value in if step.byA then ra else rb
  }

  predicate PickedIn(reach: set<Link>, c: Client)
  {
    c.picked.Some? && c.picked.value.Some? ==> c.picked.value.value in reach
  }

  lemma {:induction false} PicksAreSteps(joins: set<Link>, ra: set<Link>, rb: set<Link>, steps: seq<Step>)
    requires PicksWithin(ra, rb, steps)
    ensures PickedIn(ra, Exec(joins, steps).a) && PickedIn(rb, Exec(joins, steps).b)
  {
    if steps != [] {
      var front, step := steps[..|steps| - 1], steps[|steps| - 1];
      PicksAreSteps(joins, ra, rb, front);
      assert MayPick(ra, rb, step);
      PicksKept(joins, ra, rb, Exec(joins, front), step);
    }
  }

  lemma PicksKept(joins: set<Link>, ra: set<Link>, rb: set<Link>, s: State, step: Step)
    requires PickedIn(ra, s.a) && PickedIn(rb, s.b) && MayPick(ra, rb, step)
    ensures PickedIn(ra, Next(joins, s, step).a) && PickedIn(rb, Next(joins, s, step).b)
  {
    match step {
      case Pick(_, _) =>
      case _ =>
    }
  }

  ghost predicate SameResult(s: State)
  {
    s.a.result.Some? && s.b.result.Some? ==> s.a.result == s.b.result
  }

  /** No link of the first client to a stranger differs from one of the second. */
  ghost predicate NoTwoStrangers(joins: set<Link>, ra: set<Link>, rb: set<Link>)
  {
    forall k, l :: k in ra - joins && l in rb - joins ==> k == l
  }

  lemma FewStrangersSameLink(joins: set<Link>, ra: set<Link>, rb: set<Link>, steps: seq<Step>)
    requires PicksWithin(ra, rb, steps) && NoTwoStrangers(joins, ra, rb)
    ensures SameResult(Exec(joins, steps))
  {
    var s := Exec(joins, steps);
    InvAlways(joins, steps);
    PicksAreSteps(joins, ra, rb, steps);
    if s.a.result.Some? && s.b.result.Some? {
      TransportAgreement(joins, steps);
      if s.a.result.value.Direct? {
        var k, l := s.a.result.value.conn.value, s.b.result.value.conn.value;
        assert k in ra && l in rb;
        assert k !in joins ==> k in ra - joins;
        assert l !in joins ==> l in rb - joins;
      }
    }
  }

  /** When every link that can be punched joins the two clients, both always end with the same result. */
  lemma SameLinkInClosedWorld(joins: set<Link>, steps: seq<Step>)
    requires PicksWithin(joins, joins, steps)
    ensures SameResult(Exec(joins, steps))
  {
    FewStrangersSameLink(joins, joins, joins, steps);
  }

  /**
   * When the clients reach the links `ra` and `rb`, two Dials that succeed have the same result in
   * every run, down to the link, exactly when there is no choice of a stranger's link for each of
   * them that differs.  With such a choice each client can take its own.
   */
  lemma SameLinkIff(joins: set<Link>, ra: set<Link>, rb: set<Link>)
    ensures (forall steps: seq<Step> :: PicksWithin(ra, rb, steps) ==> SameResult(Exec(joins, steps)))
       <==> NoTwoStrangers(joins, ra, rb)
  {
    if NoTwoStrangers(joins, ra, rb) {
      forall steps: seq<Step> | PicksWithin(ra, rb, steps) ensures SameResult(Exec(joins, steps)) {
        FewStrangersSameLink(joins, ra, rb, steps);
      }
    } else {
      var k, l :| k in ra - joins && l in rb - joins && k != l;
      StrangersSplitTheLink(joins, k, l);
      assert PicksWithin(ra, rb, Strangers(k, l));
      assert !SameResult(Exec(joins, Strangers(k, l)));
    }
  }

  /** Strangers around one client only do no harm. */
  lemma OneSidedStrangers(joins: set<Link>, ra: set<Link>, rb: set<Link>, steps: seq<Step>)
    requires (ra <= joins || rb <= joins) && PicksWithin(ra, rb, steps)
    ensures SameResult(Exec(joins, steps))
  {
    SameLinkIff(joins, ra, rb);
  }

  /** What a client does on a link that answers with the magic, up to the relay hearing of it. */
  function Validates(byA: bool, l: Link): seq<Step>
  {
    [Pick(byA, Some(l)), WriteMagic(byA), ReadMagic(byA), Report(byA), Hear(byA)]
  }

  lemma ExecAppend(joins: set<Link>, a: seq<Step>, step: Step)
    ensures Exec(joins, a + [step]) == Next(joins, Exec(joins, a), step)
  {
    assert (a + [step])[..|a|] == a;
  }

  lemma ValidatesIn(joins: set<Link>, run: seq<Step>, byA: bool, l: Link)
    requires l !in joins
    requires var s := Exec(joins, run);
             if byA then s.a == Start().a && s.heardA.None? else s.b == Start().b && s.heardB.None?
    ensures var s := Exec(joins, run);
            var c := Client(Some(Some(l)), true, Valid, Some(true), None, false);
            Exec(joins, run + Validates(byA, l)) == if byA then s.(a := c, heardA := Some(true)) else s.(b := c, heardB := Some(true))
  {
    var r1 := run + [Pick(byA, Some(l))];
    var r2 := r1 + [WriteMagic(byA)];
    var r3 := r2 + [ReadMagic(byA)];
    var r4 := r3 + [Report(byA)];
    ExecAppend(joins, run, Pick(byA, Some(l)));
    ExecAppend(joins, r1, WriteMagic(byA));
    ExecAppend(joins, r2, ReadMagic(byA));
    ExecAppend(joins, r3, Report(byA));
    ExecAppend(joins, r4, Hear(byA));
    assert run + Validates(byA, l) == r4 + [Hear(byA)];
  }

  /** Each client reaches a stranger that answers with the magic, and the relay decides. */
  function Strangers(k: Link, l: Link): seq<Step>
  {
    Validates(true, k) + Validates(false, l) + [Decide] + [GetDecision(true)] + [GetDecision(false)]
  }

  /** Then both end direct, on different links: the validation does not tell who answers. */
  lemma StrangersSplitTheLink(joins: set<Link>, k: Link, l: Link)
    requires k !in joins && l !in joins
    ensures var s := Exec(joins, Strangers(k, l)); s.a.result == Some(Direct(Some(k))) && s.b.result == Some(Direct(Some(l)))
  {
    var r1 := Validates(true, k);
    var r2 := r1 + Validates(false, l);
    var r3 := r2 + [Decide];
    assert [] + r1 == r1;
    ValidatesIn(joins, [], true, k);
    ValidatesIn(joins, r1, false, l);
    ExecAppend(joins, r2, Decide);
    ExecAppend(joins, r3, GetDecision(true));
    ExecAppend(joins, r3 + [GetDecision(true)], GetDecision(false));
  }

  /** A single client never ends direct without a connection, whatever happens to the other. */
  lemma DirectHasConnection(joins: set<Link>, steps: seq<Step>)
    ensures var s := Exec(joins, steps);
            (s.a.result.Some? && s.a.result.value.Direct? ==> s.a.result.value.conn.Some?)
            && (s.b.result.Some? && s.b.result.value.Direct? ==> s.b.result.value.conn.Some?)
  {
    InvAlways(joins, steps);
  }

  // ---------------------------------------------------------------- what two honest clients reach

  /** A client that has picked a link and written the magic on it. */
  function OnItsLink(l: Link): Client { Client(Some(Some(l)), true, Unknown, None, None, false) }

  function Punched(l: Link): seq<Step>
  {
    [Pick(true, Some(l))] + [Pick(false, Some(l))] + [WriteMagic(true)] + [WriteMagic(false)]
  }

  function Validated(): seq<Step>
  {
    [ReadMagic(true)] + [ReadMagic(false)] + [Report(true)] + [Report(false)]
  }

  function Concluded(): seq<Step>
  {
    [Hear(true)] + [Hear(false)] + [Decide] + [GetDecision(true)] + [GetDecision(false)]
  }

  lemma ExecConcat(joins: set<Link>, a: seq<Step>, b: seq<Step>)
    requires |b| == 4
    ensures Exec(joins, a + b) == Next(joins, Next(joins, Next(joins, Next(joins, Exec(joins, a), b[0]), b[1]), b[2]), b[3])
  {
    ExecAppend(joins, a, b[0]);
    ExecAppend(joins, a + [b[0]], b[1]);
    ExecAppend(joins, a + [b[0]] + [b[1]], b[2]);
    ExecAppend(joins, a + [b[0]] + [b[1]] + [b[2]], b[3]);
    assert a + b == a + [b[0]] + [b[1]] + [b[2]] + [b[3]];
  }

  lemma PunchedIs(joins: set<Link>, l: Link)
    ensures Exec(joins, Punched(l)) == State(OnItsLink(l), OnItsLink(l), None, None, None)
  {
    ExecConcat(joins, [], Punched(l));
    assert [] + Punched(l) == Punched(l);
  }

  lemma ValidatedIs(joins: set<Link>, run: seq<Step>, l: Link)
    requires Exec(joins, run) == State(OnItsLink(l), OnItsLink(l), None, None, None)
    ensures var c := Client(Some(Some(l)), true, Valid, Some(true), None, false);
            Exec(joins, run + Validated()) == State(c, c, None, None, None)
  {
    ExecConcat(joins, run, Validated());
  }

  /** From both reports to both results. */
  lemma ConcludedIs(joins: set<Link>, run: seq<Step>, a: Client, b: Client)
    requires Exec(joins, run) == State(a, b, None, None, None) && a.report.Some? && b.report.Some?
    requires a.result.None? && b.result.None? && !a.failed && !b.failed
    ensures var s := Exec(joins, run + Concluded());
            var both := a.report.value && b.report.value;
            && s.a.result == Some(if both then Direct(Chosen(a)) else Bridged)
            && s.b.result == Some(if both then Direct(Chosen(b)) else Bridged)
  {
    var four := [Hear(true)] + [Hear(false)] + [Decide] + [GetDecision(true)];
    ExecConcat(joins, run, four);
    ExecAppend(joins, run + four, GetDecision(false));
    assert run + Concluded() == run + four + [GetDecision(false)];
  }

  /**
   * Two clients on a link that joins them go direct over it, in the run in which each step happens
   * once: both pick it, write the magic, read it and report, and the relay hears both.
   */
  lemma GenuinePeersGoDirect(joins: set<Link>, l: Link)
    ensures var s := Exec(joins, Punched(l) + Validated() + Concluded());
            s.a.result == Some(Direct(Some(l))) && s.b.result == Some(Direct(Some(l)))
  {
    var c := Client(Some(Some(l)), true, Valid, Some(true), None, false);
    PunchedIs(joins, l);
    ValidatedIs(joins, Punched(l), l);
    ConcludedIs(joins, Punched(l) + Validated(), c, c);
  }

  /** The first client has no link, and the second picks `link` and does not validate it, if it has one. */
  function NoPunch(link: Option<Link>): seq<Step>
  {
    [Pick(true, None)] + [Report(true)] + [Pick(false, link)] + [ValidationFails(false)] + [Report(false)]
  }

  /** Then both end on the relay's bridge. */
  lemma WithoutPunchBridged(joins: set<Link>, link: Option<Link>)
    ensures var s := Exec(joins, NoPunch(link) + Concluded());
            s.a.result == Some(Bridged) && s.b.result == Some(Bridged)
  {
    var four := [Pick(true, None)] + [Report(true)] + [Pick(false, link)] + [ValidationFails(false)];
    ExecConcat(joins, [], four);
    assert [] + four == four && NoPunch(link) == four + [Report(false)];
    ExecAppend(joins, four, Report(false));
    var a := Client(Some(None), false, Unknown, Some(false), None, false);
    var b := Client(Some(link), false, if link.Some? then Invalid else Unknown, Some(false), None, false);
    assert Exec(joins, NoPunch(link)) == State(a, b, None, None, None);
    ConcludedIs(joins, NoPunch(link), a, b);
  }

  /** A report that comes too late counts as a failed punch: both are bridged, even with a good link. */
  lemma LateReportBridged(joins: set<Link>, l: Link, lateA: bool)
    ensures var s := Exec(joins, Punched(l) + Validated() + ([Hear(!lateA)] + [ReportTimeout(lateA)] + [Decide] + [GetDecision(true)]) + [GetDecision(false)]);
            s.a.result == Some(Bridged) && s.b.result == Some(Bridged)
  {
    PunchedIs(joins, l);
    ValidatedIs(joins, Punched(l), l);
    var run, four := Punched(l) + Validated(), [Hear(!lateA)] + [ReportTimeout(lateA)] + [Decide] + [GetDecision(true)];
    ExecConcat(joins, run, four);
    ExecAppend(joins, run + four, GetDecision(false));
  }
}
