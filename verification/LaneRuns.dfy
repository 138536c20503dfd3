/** Lanes over whole runs: creates and gated tail appends, each asking admission and taking its rows in one
    step; releases that ask nobody; rows given back; robots leaving. Rows and robots are kept apart: what the
    table says, and where robots have been sent. */
module LaneRuns {
  import opened Plans
  import Release
  import opened LaneAdmission
  import opened LaneSplice

  /** `occ` are the occupancy rows (order, lane); `sent` are the lanes robots have been sent into and have
      not left. */
  datatype World = World(occ: set<(nat, nat)>, sent: set<(nat, nat)>)

  /** How the handover of a create ends.
      Accepted: the fleet has the order and Core has its id.
      AnswerLost: the fleet took the order and Core got an error.
      Cancelled: the fleet took the order, but it turned terminal meanwhile or its id could not be stored;
      Core cancels it, and that is `done` or fails.
      NotSent: the self-check, the claim or the create failed and the fleet has nothing.
      LostRace: another caller moved the order first.
      TakeFailed: a row could not be written; the rows `got` before that stay. */
  datatype Handover =
    | Accepted
    | AnswerLost
    | Cancelled(done: bool)
    | NotSent
    | LostRace
    | TakeFailed(got: set<nat>)

  /** `Create` and `Tail` carry what the lookups gave them. `Release` is the operator's or the hard release
      of a segment. `Leave` is a robot driving out of a lane. The last two only delete rows: the lane's on a
      bin's lift, and all the order's on a completed dropoff or when the order ends. */
  datatype Event =
    | Create(a: Asker, plan: Plan, read: Site, answers: Reads, handover: Handover)
    | Tail(a: Asker, plan: Plan, w: nat, read: Site, answers: Reads, link: Release.Link)
    | Release(o: nat, plan: Plan, w: nat, delivery: string, link: Release.Link)
    | Leave(o: nat, lane: nat)
    | Lifted(o: nat, lane: nat)
    | Cleared(o: nat)

  function Occupants(occ: set<(nat, nat)>, lane: nat): set<nat> {
    set r | r in occ && r.1 == lane :: r.0
  }

  /** Reads may be missing but are not wrong. */
  ghost predicate TrueReads(rs: Reads, occ: set<(nat, nat)>) {
    forall lane | lane in rs.occupants :: rs.occupants[lane] == Occupants(occ, lane)
  }

  /** Nor are lookups: a name may not resolve and a lane may not be read, but what is read is so. */
  ghost predicate ReadOf(read: Site, site: Site) {
    && read.marks == site.marks && read.grouped == site.grouped
    && forall n | n in read.laneOf ::
         n in site.laneOf && (read.laneOf[n].Unread? || read.laneOf[n] == site.laneOf[n])
  }

  function Rows(o: nat, lanes: set<nat>): set<(nat, nat)> {
    set lane | lane in lanes :: (o, lane)
  }

  function Without(occ: set<(nat, nat)>, o: nat): set<(nat, nat)> {
    set r | r in occ && r.0 != o
  }

  ghost predicate Nowhere(sent: set<(nat, nat)>, o: nat) {
    forall r | r in sent :: r.0 != o
  }

  /** The lanes the blocks of a stretch of plan send a robot into, waits that name a node included. */
  function BlockLanes(site: Site, p: Plan): set<nat> {
    set s | s in p && EmitsBlock(s) && s.node != "" && s.node in site.laneOf && site.laneOf[s.node].InLane? ::
      site.laneOf[s.node].lane
  }

  /** The self-check of a create: every block that resolves is read, and its lane is one rows are taken on. */
  ghost predicate Declares(read: Site, p: Plan) {
    forall s | s in p && EmitsBlock(s) && s.node != "" && s.node in read.laneOf ::
      && !read.laneOf[s.node].Unread?
      && (read.laneOf[s.node].InLane? ==> read.laneOf[s.node].lane in LanesOf(read, p))
  }

  /** A tail append opens a lane wait that has its entry right behind it. */
  ghost predicate OpensLane(site: Site, q: Plan, w: nat, lane: nat) {
    && w < |Waits(q)|
    && Waits(q)[w] + 1 < |q|
    && IsLaneWait(q[Waits(q)[w]]) && q[Waits(q)[w]].waitLane == lane
    && StepIn(site, q[Waits(q)[w] + 1], lane)
  }

  /** The steps a create sends. */
  function Sent(read: Site, p: Plan): Plan {
    PreWait(Spliced(read, p))
  }

  ghost predicate Enabled(site: Site, s: World, e: Event) {
    match e
    case Create(a, p, read, rs, handover) =>
      && ReadOf(read, site) && TrueReads(rs, s.occ)
      && PlanVerdict(read, rs, a, FOR_COMPLEX_ENTRY, p).Admitted?
      && Splices(read, p)
      && (if handover.TakeFailed? then handover.got <= LanesOf(read, Sent(read, p))
          else handover.NotSent? || Declares(read, Sent(read, p)))
    case Tail(a, q, w, read, rs, _) =>
      && ReadOf(read, site) && TrueReads(rs, s.occ)
      && w < |Waits(q)| && q[Waits(q)[w]].waitLane >= 0 && OpensLane(read, q, w, q[Waits(q)[w]].waitLane)
      && var entry := q[Waits(q)[w] + 1];
         AdmitLane(read, rs, a, FOR_GATED_ENTRY, entry.node, entry.action.Pickup?).Admitted?
    case Release(_, q, w, _, _) => w < |Waits(q)|
    case _ => true
  }

  ghost function CreateEffect(site: Site, s: World, o: nat, steps: Plan, read: Site, handover: Handover): World {
    var rows := Rows(o, LanesOf(read, steps));
    var robot := Rows(o, BlockLanes(site, steps));
    match handover
    case Accepted => World(s.occ + rows, s.sent + robot)
    case AnswerLost => World(Without(s.occ, o), s.sent + robot)
    case Cancelled(done) => World(Without(s.occ, o), if done then s.sent else s.sent + robot)
    case NotSent => s.(occ := Without(s.occ, o))
    case LostRace => s.(occ := s.occ + rows)
    case TakeFailed(got) => s.(occ := s.occ + Rows(o, got))
  }

  ghost function Effect(site: Site, s: World, e: Event): World
    requires Enabled(site, s, e)
  {
    match e
    case Create(a, p, read, _, handover) => CreateEffect(site, s, a.order, Sent(read, p), read, handover)
    case Tail(a, q, w, _, _, link) =>
      var row := (a.order, q[Waits(q)[w]].waitLane as nat);
      World(
        if !link.Delivered? && row !in s.occ then s.occ else s.occ + {row},
        if link.NotReached? then s.sent else s.sent + Rows(a.order, BlockLanes(site, Segment(q, w))))
    case Release(o, q, w, delivery, link) =>
      if link.NotReached? then s
      else s.(sent := s.sent + Rows(o, BlockLanes(site, Release.SegmentSteps(q, w, delivery))))
    case Leave(o, lane) => s.(sent := s.sent - {(o, lane)})
    case Lifted(o, lane) => s.(occ := s.occ - {(o, lane)})
    case Cleared(o) => s.(occ := Without(s.occ, o))
  }

  ghost function Next(site: Site, s: World, e: Event): World {
    if Enabled(site, s, e) then Effect(site, s, e) else s
  }

  ghost function Run(site: Site, s: World, es: seq<Event>): World {
    if es == [] then s else Next(site, Run(site, s, es[..|es| - 1]), es[|es| - 1])
  }

  const EMPTY := World({}, {})

  // ---- what a step leaves, row by row and robot by robot ----

  /** The fleet has the order of a create that was accepted, whose answer was lost, or whose cancel failed. */
  ghost predicate FleetHas(handover: Handover) {
    handover == Accepted || handover == AnswerLost || handover == Cancelled(false)
  }

  /** A create changes only its own order's rows and robot. The robot goes into the lanes of what was sent if the
      fleet has it; the rows on the lanes read stand if it was accepted or another caller won the order; those written
      stand if a write failed; in every other case the order has no row left. */
  lemma CreateLeaves(site: Site, s: World, e: Event, o: nat, lane: nat)
    requires e.Create? && Enabled(site, s, e)
    ensures
      var t, mine, steps := Next(site, s, e), o == e.a.order, Sent(e.read, e.plan);
      && ((o, lane) in t.sent <==>
            (o, lane) in s.sent || (mine && FleetHas(e.handover) && lane in BlockLanes(site, steps)))
      && (!mine ==> ((o, lane) in t.occ <==> (o, lane) in s.occ))
      && (mine && (e.handover == Accepted || e.handover == LostRace) ==>
            ((o, lane) in t.occ <==> (o, lane) in s.occ || lane in LanesOf(e.read, steps)))
      && (mine && e.handover.TakeFailed? ==>
            ((o, lane) in t.occ <==> (o, lane) in s.occ || lane in e.handover.got))
      && (mine && (e.handover.AnswerLost? || e.handover.Cancelled? || e.handover.NotSent?) ==> (o, lane) !in t.occ)
  {
    hide BlockLanes, LanesOf, Sent, Enabled;
    assert Next(site, s, e) == Effect(site, s, e);
  }

  /** A robot that drives out is gone from that lane and no row changes; a lift drops one row and the end of an order
      all of its rows, and no robot moves. */
  lemma OutsideLeaves(site: Site, s: World, e: Event, o: nat, lane: nat)
    requires e.Leave? || e.Lifted? || e.Cleared?
    ensures
      var t := Next(site, s, e);
      && ((o, lane) in t.sent <==> (o, lane) in s.sent && e != Leave(o, lane))
      && ((o, lane) in t.occ <==> (o, lane) in s.occ && e != Lifted(o, lane) && e != Cleared(o))
  {
  }

  /** Nothing happens where the splice refuses the plan, or at a wait that is no lane wait or has not the entry into its
      lane right behind it. */
  lemma RefusedChangesNothing(site: Site, s: World, e: Event)
    ensures e.Create? && !Splices(e.read, e.plan) ==> Next(site, s, e) == s
    ensures e.Create? && e.handover.TakeFailed? && !(e.handover.got <= LanesOf(e.read, Sent(e.read, e.plan))) ==>
      Next(site, s, e) == s
    ensures e.Tail? && e.w < |Waits(e.plan)| ==>
      var i := Waits(e.plan)[e.w];
      e.plan[i].waitKind != Lane || i + 1 == |e.plan| || !StandsIn(e.read, e.plan[i + 1], e.plan[i].waitLane) ==>
        Next(site, s, e) == s
  {
    hide Splices, LanesOf, Sent, Waits;
  }

  // ---- every run: one order's row per lane ----

  ghost predicate Single(rows: set<(nat, nat)>) {
    forall r, t | r in rows && t in rows && r.1 == t.1 :: r.0 == t.0
  }

  lemma {:induction false} SplicedSteps(site: Site, p: Plan, s: Step)
    requires s in Spliced(site, p) && !s.action.Wait?
    ensures s in p
  {
    if p != [] {
      var front := p[..|p| - 1];
      if s in Spliced(site, front) {
        SplicedSteps(site, front, s);
      }
    }
  }

  /** The create takes rows only on lanes of the plan that are asked about. */
  lemma CreateLanesAreAsked(site: Site, p: Plan, lane: nat)
    requires lane in LanesOf(site, Sent(site, p))
    ensures lane in LanesOf(site, p) && !OwnedByGate(site, lane)
  {
    var q := Spliced(site, p);
    var i := LaneStep(site, PreWait(q), lane);
    CreateEntersNoGatesLane(site, p, i);
    hide Spliced;
    assert PreWait(q)[i] == q[i] && q[i] in q;
    if OwnedByGate(site, lane) {
      StepInGatesLane(site, q[i], lane);
    }
    SplicedSteps(site, p, q[i]);
    var k :| 0 <= k < |p| && p[k] == q[i];
    LaneOfStep(site, p, k, lane);
  }

  lemma LaneStep(site: Site, p: Plan, lane: nat) returns (i: nat)
    requires lane in LanesOf(site, p)
    ensures i < |p| && StepIn(site, p[i], lane)
  {
    var s :| s in p && Asked(site, s) && site.laneOf[s.node].InLane? && site.laneOf[s.node].lane == lane;
    i :| 0 <= i < |p| && p[i] == s;
  }

  /** So nobody else is in a lane the create takes a row on. */
  lemma CreateLanesAreFree(site: Site, s: World, e: Event, lane: nat)
    requires e.Create? && Enabled(site, s, e)
    requires lane in LanesOf(e.read, Sent(e.read, e.plan))
    ensures Occupants(s.occ, lane) <= {e.a.order}
  {
    CreateLanesAreAsked(e.read, e.plan, lane);
    AdmittedLaneIsFree(e.read, e.answers, e.a, FOR_COMPLEX_ENTRY, e.plan, lane);
  }

  lemma RowsKeepSingle(occ: set<(nat, nat)>, o: nat, lanes: set<nat>)
    requires Single(occ) && forall lane | lane in lanes :: Occupants(occ, lane) <= {o}
    ensures Single(occ + Rows(o, lanes))
  {
    forall r, t | r in occ + Rows(o, lanes) && t in Rows(o, lanes) && r.1 == t.1
      ensures r.0 == o
    {
      if r in occ {
        assert r.0 in Occupants(occ, r.1);
      }
    }
  }

  lemma CreateKeepsSingle(site: Site, s: World, e: Event)
    requires Single(s.occ) && e.Create? && Enabled(site, s, e)
    ensures Single(Effect(site, s, e).occ)
  {
    var lanes := LanesOf(e.read, Sent(e.read, e.plan));
    forall lane | lane in lanes
      ensures Occupants(s.occ, lane) <= {e.a.order}
    {
      CreateLanesAreFree(site, s, e, lane);
    }
    hide PlanVerdict, Splices, LanesOf, Sent;
    RowsKeepSingle(s.occ, e.a.order, lanes);
    if e.handover.TakeFailed? {
      RowsKeepSingle(s.occ, e.a.order, e.handover.got);
    }
  }

  lemma TailKeepsSingle(site: Site, s: World, e: Event)
    requires Single(s.occ) && e.Tail? && Enabled(site, s, e)
    ensures Single(Effect(site, s, e).occ)
  {
    var lane := e.plan[Waits(e.plan)[e.w]].waitLane as nat;
    assert Rows(e.a.order, {lane}) == {(e.a.order, lane)};
    assert Occupants(s.occ, lane) <= {e.a.order};
    RowsKeepSingle(s.occ, e.a.order, {lane});
  }

  lemma NextKeepsSingle(site: Site, s: World, e: Event)
    requires Single(s.occ)
    ensures Single(Next(site, s, e).occ)
  {
    if Enabled(site, s, e) {
      if e.Create? {
        CreateKeepsSingle(site, s, e);
      } else if e.Tail? {
        TailKeepsSingle(site, s, e);
      }
    }
  }

  /** In every reachable state at most one order has a row on a lane. */
  lemma {:induction false} OneOrderPerLane(site: Site, es: seq<Event>)
    ensures Single(Run(site, EMPTY, es).occ)
  {
    if es != [] {
      var n := |es| - 1;
      OneOrderPerLane(site, es[..n]);
      NextKeepsSingle(site, Run(site, EMPTY, es[..n]), es[n]);
    }
  }

  // ---- when the rows also say where the robots are ----

  /** The order has a row on every one of these lanes, or gets one here. */
  ghost predicate Covered(occ: set<(nat, nat)>, o: nat, lanes: set<nat>, taken: set<nat>) {
    forall l | l in lanes :: l in taken || (o, l) in occ
  }

  /** The guard of each step, told by what it is about to do.
      A create that stands needs a row on every lane its blocks go into. A create that fails gives all of the
      order's rows back: then no robot of the order may be anywhere, and one that the fleet took all the same
      must not be going into a lane.
      A tail append must not lose its answer unless the row was there before, and its segment may go on only
      into lanes the order has rows on. A release takes no row, so it needs them all.
      Rows may be deleted only where the robot is not. */
  ghost predicate Lawful(site: Site, s: World, e: Event)
    requires Enabled(site, s, e)
  {
    match e
    case Create(a, p, read, _, handover) =>
      var robot := BlockLanes(site, Sent(read, p));
      (match handover
       case Accepted => Covered(s.occ, a.order, robot, LanesOf(read, Sent(read, p)))
       case AnswerLost => robot == {} && Nowhere(s.sent, a.order)
       case Cancelled(done) => (done || robot == {}) && Nowhere(s.sent, a.order)
       case NotSent => Nowhere(s.sent, a.order)
       case LostRace => true
       case TakeFailed(_) => true)
    case Tail(a, q, w, _, _, link) =>
      var lane := q[Waits(q)[w]].waitLane as nat;
      && (link.ReplyLost? ==> (a.order, lane) in s.occ)
      && (!link.NotReached? ==> Covered(s.occ, a.order, BlockLanes(site, Segment(q, w)), {lane}))
    case Release(o, q, w, delivery, link) =>
      link.NotReached? || Covered(s.occ, o, BlockLanes(site, Release.SegmentSteps(q, w, delivery)), {})
    case Leave(_, _) => true
    case Lifted(o, lane) => (o, lane) !in s.sent
    case Cleared(o) => Nowhere(s.sent, o)
  }

  ghost predicate Safe(s: World) {
    Single(s.occ) && s.sent <= s.occ
  }

  lemma EntryIsInSegment(site: Site, q: Plan, w: nat, lane: nat)
    requires OpensLane(site, q, w, lane)
    ensures lane in BlockLanes(site, Segment(q, w))
  {
    var i := Waits(q)[w];
    assert i + 1 < Stop(q, w + 1) by {
      if w + 1 < |Waits(q)| {
        WaitsAreWaits(q, w + 1);
        assert Waits(q)[w + 1] != i + 1;
      }
    }
    assert Segment(q, w)[0] == q[i + 1];
    assert q[i + 1] in Segment(q, w);
  }

  /** Adding a robot and rows of one order: covered exactly lane by lane. */
  lemma CoveredIff(occ: set<(nat, nat)>, sent: set<(nat, nat)>, o: nat, lanes: set<nat>, taken: set<nat>)
    requires sent <= occ
    ensures sent + Rows(o, lanes) <= occ + Rows(o, taken) <==> Covered(occ, o, lanes, taken)
  {
    if sent + Rows(o, lanes) <= occ + Rows(o, taken) {
      forall l | l in lanes
        ensures l in taken || (o, l) in occ
      {
        assert (o, l) in Rows(o, lanes);
      }
    }
  }

  lemma WithoutIff(occ: set<(nat, nat)>, sent: set<(nat, nat)>, o: nat, lanes: set<nat>)
    requires sent <= occ
    ensures sent + Rows(o, lanes) <= Without(occ, o) <==> lanes == {} && Nowhere(sent, o)
  {
    assert forall l | l in lanes :: (o, l) in Rows(o, lanes);
  }

  lemma CreateIsSafeIff(site: Site, s: World, e: Event)
    requires Safe(s) && e.Create? && Enabled(site, s, e)
    ensures Effect(site, s, e).sent <= Effect(site, s, e).occ <==> Lawful(site, s, e)
  {
    hide PlanVerdict, Splices, LanesOf, BlockLanes, Sent, Declares;
    var steps := Sent(e.read, e.plan);
    var robot := BlockLanes(site, steps);
    CoveredIff(s.occ, s.sent, e.a.order, robot, LanesOf(e.read, steps));
    WithoutIff(s.occ, s.sent, e.a.order, robot);
    WithoutIff(s.occ, s.sent, e.a.order, {});
    assert s.sent + Rows(e.a.order, {}) == s.sent;
  }

  lemma TailIsSafeIff(site: Site, s: World, e: Event)
    requires Safe(s) && e.Tail? && Enabled(site, s, e)
    ensures Effect(site, s, e).sent <= Effect(site, s, e).occ <==> Lawful(site, s, e)
  {
    var o, lane := e.a.order, e.plan[Waits(e.plan)[e.w]].waitLane as nat;
    assert OpensLane(site, e.plan, e.w, lane);
    EntryIsInSegment(site, e.plan, e.w, lane);
    var lanes := BlockLanes(site, Segment(e.plan, e.w));
    hide BlockLanes, Segment, Waits, AdmitLane;
    assert Rows(o, {lane}) == {(o, lane)} && Rows(o, {}) == {};
    CoveredIff(s.occ, s.sent, o, lanes, {lane});
    CoveredIff(s.occ, s.sent, o, lanes, {});
  }

  lemma ReleaseIsSafeIff(site: Site, s: World, e: Event)
    requires Safe(s) && e.Release? && Enabled(site, s, e)
    ensures Effect(site, s, e).sent <= Effect(site, s, e).occ <==> Lawful(site, s, e)
  {
    hide BlockLanes, Release.SegmentSteps;
    assert Rows(e.o, {}) == {};
    CoveredIff(s.occ, s.sent, e.o, BlockLanes(site, Release.SegmentSteps(e.plan, e.w, e.delivery)), {});
  }

  /** From a state whose rows cover every robot, a step keeps them covering exactly when it is lawful. */
  lemma StepIsSafeIff(site: Site, s: World, e: Event)
    requires Safe(s) && Enabled(site, s, e)
    ensures Safe(Effect(site, s, e)) <==> Lawful(site, s, e)
  {
    NextKeepsSingle(site, s, e);
    match e
    case Create(_, _, _, _, _) => CreateIsSafeIff(site, s, e);
    case Tail(_, _, _, _, _, _) => TailIsSafeIff(site, s, e);
    case Release(_, _, _, _, _) => ReleaseIsSafeIff(site, s, e);
    case Leave(_, _) =>
    case Lifted(_, _) =>
    case Cleared(o) =>
      WithoutIff(s.occ, s.sent, o, {});
      assert s.sent + Rows(o, {}) == s.sent;
  }

  ghost predicate LawfulRun(site: Site, es: seq<Event>) {
    forall i | 0 <= i < |es| ::
      var s := Run(site, EMPTY, es[..i]);
      Enabled(site, s, es[i]) ==> Lawful(site, s, es[i])
  }

  /** No lane ever has two robots in it, in any run whose steps are lawful; and the rows cover every robot
      after every step if and only if each step is. */
  lemma {:induction false} OneRobotPerLane(site: Site, es: seq<Event>)
    ensures LawfulRun(site, es) <==> forall i | 0 <= i <= |es| :: Safe(Run(site, EMPTY, es[..i]))
    ensures LawfulRun(site, es) ==> Single(Run(site, EMPTY, es).sent)
  {
    if es == [] {
      assert es[..0] == [];
    } else {
      hide Enabled, Effect, Lawful;
      var n := |es| - 1;
      var s := Run(site, EMPTY, es[..n]);
      OneRobotPerLane(site, es[..n]);
      assert forall i | 0 <= i <= n :: es[..n][..i] == es[..i];
      assert es[..n + 1] == es;
      PrefixLawful(site, es);
      if LawfulRun(site, es[..n]) {
        assert Safe(Run(site, EMPTY, es[..n][..n]));
        if Enabled(site, s, es[n]) {
          StepIsSafeIff(site, s, es[n]);
        }
        NextIs(site, s, es[n]);
      }
    }
  }

  lemma NextIs(site: Site, s: World, e: Event)
    ensures Next(site, s, e) == if Enabled(site, s, e) then Effect(site, s, e) else s
  {
  }

  lemma PrefixLawful(site: Site, es: seq<Event>)
    requires es != []
    ensures
      var n := |es| - 1;
      var s := Run(site, EMPTY, es[..n]);
      LawfulRun(site, es)
      <==> LawfulRun(site, es[..n]) && (Enabled(site, s, es[n]) ==> Lawful(site, s, es[n]))
  {
    hide Enabled, Lawful, Run;
    var n := |es| - 1;
    assert forall i | 0 <= i < n :: es[..n][..i] == es[..i] && es[..n][i] == es[i];
  }

  /** When every name of the steps it sends resolves, a create that stands is lawful: the self-check has seen
      to the waits. */
  lemma ReadCreateIsLawful(site: Site, s: World, e: Event)
    requires e.Create? && e.handover.Accepted? && Enabled(site, s, e)
    requires forall t | t in Sent(e.read, e.plan) && t.node in site.laneOf :: t.node in e.read.laneOf
    ensures Lawful(site, s, e)
  {
    var steps := Sent(e.read, e.plan);
    hide Sent, PlanVerdict, Splices;
    forall l | l in BlockLanes(site, steps)
      ensures l in LanesOf(e.read, steps)
    {
      var t :| t in steps && EmitsBlock(t) && t.node != "" && t.node in site.laneOf
            && site.laneOf[t.node].InLane? && site.laneOf[t.node].lane == l;
      assert t.node in e.read.laneOf;
    }
  }
}
