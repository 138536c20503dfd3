/** Whether a move may enter the lanes it touches. Every read can fail, and a failed read refuses. */
module LaneAdmission {
  import opened Plans

  /** What asking for a node's lane gives. */
  datatype LaneRead = NoLane | InLane(lane: nat) | Unread

  /** `laneOf` has the nodes a name resolves to, `marks` the gate point of every lane that has one,
      `grouped` the lanes that belong to a group. */
  datatype Site = Site(laneOf: map<string, LaneRead>, marks: map<nat, string>, grouped: set<nat>)

  datatype Reach = Clear | Buried | Elsewhere

  /** The answers one admission gets about each lane; a lane that is absent could not be read. A dig
      owner of 0 is nobody. */
  datatype Reads = Reads(
    dig: map<nat, nat>, excavator: map<nat, nat>, occupants: map<nat, set<nat>>, reach: map<nat, Reach>)

  /** The order that asks, with the dig owners that count as its own. */
  datatype Asker = Asker(order: nat, digs: set<nat>)

  datatype Skips = Skips(reachability: bool, entryWhenGated: bool)

  const FOR_COMPLEX_ENTRY := Skips(false, true)
  const FOR_GATED_ENTRY := Skips(false, false)

  datatype Cause = DigActive | HeldSource | Occupied | PickupElsewhere | TargetBuried

  /** `Undetermined` is the zero verdict that comes with an error: not an admission. */
  datatype Verdict = Admitted | Refused(cause: Cause, lane: nat) | Undetermined

  predicate Gated(site: Site, lane: nat) {
    lane in site.marks && site.marks[lane] != ""
  }

  /** The gate owns this lane's entry: the lane has a mark and a group. */
  predicate OwnedByGate(site: Site, lane: nat) {
    lane in site.grouped && Gated(site, lane)
  }

  predicate EntryDeferred(site: Site, skip: Skips, lane: nat) {
    skip.entryWhenGated && OwnedByGate(site, lane)
  }

  function AdmitLane(site: Site, rs: Reads, a: Asker, skip: Skips, node: string, isSource: bool): Verdict
    requires node in site.laneOf
  {
    match site.laneOf[node]
    case Unread => Undetermined
    case NoLane => Admitted
    case InLane(lane) =>
      if EntryDeferred(site, skip, lane) then Admitted
      else if lane !in rs.dig then Undetermined
      else if rs.dig[lane] != 0 && rs.dig[lane] !in a.digs then
        Refused(if lane in rs.excavator && rs.excavator[lane] == 0 then HeldSource else DigActive, lane)
      else if lane !in rs.occupants then Undetermined
      else if exists o | o in rs.occupants[lane] :: o != a.order then Refused(Occupied, lane)
      else if !isSource || skip.reachability then Admitted
      else if lane !in rs.reach then Undetermined
      else
        match rs.reach[lane]
        case Elsewhere => Refused(PickupElsewhere, lane)
        case Buried => Refused(TargetBuried, lane)
        case Clear => Admitted
  }

  /** The steps admission asks about: a pickup or dropoff at a node that resolves. */
  predicate Asked(site: Site, s: Step) {
    !s.action.Wait? && s.node != "" && s.node in site.laneOf
  }

  function VerdictOn(site: Site, rs: Reads, a: Asker, skip: Skips, s: Step): Verdict {
    if Asked(site, s) then AdmitLane(site, rs, a, skip, s.node, s.action.Pickup?) else Admitted
  }

  /** Nobody but the asker's own family digs there. */
  predicate DigAllows(rs: Reads, a: Asker, lane: nat) {
    lane in rs.dig && (rs.dig[lane] == 0 || rs.dig[lane] in a.digs)
  }

  predicate Vacant(rs: Reads, a: Asker, lane: nat) {
    lane in rs.occupants && rs.occupants[lane] <= {a.order}
  }

  /** A lane is entered only on three answers, each of them given: no foreign dig, nobody else inside, and,
      for a pickup that is not excused, the bin in reach. */
  lemma LaneAdmitsIff(site: Site, rs: Reads, a: Asker, skip: Skips, node: string, isSource: bool, lane: nat)
    requires node in site.laneOf && site.laneOf[node] == InLane(lane)
    ensures AdmitLane(site, rs, a, skip, node, isSource).Admitted? <==>
      || EntryDeferred(site, skip, lane)
      || (DigAllows(rs, a, lane) && Vacant(rs, a, lane)
          && (isSource && !skip.reachability ==> lane in rs.reach && rs.reach[lane].Clear?))
  {
  }

  /** What each cause of a refusal claims. */
  ghost predicate CauseHolds(rs: Reads, a: Asker, cause: Cause, lane: nat, isSource: bool) {
    match cause
    case DigActive => lane in rs.dig && rs.dig[lane] != 0 && rs.dig[lane] !in a.digs
    case HeldSource =>
      && lane in rs.dig && rs.dig[lane] != 0 && rs.dig[lane] !in a.digs
      && lane in rs.excavator && rs.excavator[lane] == 0
    case Occupied => lane in rs.occupants && exists o | o in rs.occupants[lane] :: o != a.order
    case PickupElsewhere => isSource && lane in rs.reach && rs.reach[lane].Elsewhere?
    case TargetBuried => isSource && lane in rs.reach && rs.reach[lane].Buried?
  }

  lemma RefusalIsTrue(site: Site, rs: Reads, a: Asker, skip: Skips, node: string, isSource: bool)
    requires node in site.laneOf && AdmitLane(site, rs, a, skip, node, isSource).Refused?
    ensures
      var v := AdmitLane(site, rs, a, skip, node, isSource);
      && site.laneOf[node] == InLane(v.lane) && !EntryDeferred(site, skip, v.lane)
      && CauseHolds(rs, a, v.cause, v.lane, isSource)
  {
  }

  /** The first step that is not admitted decides. */
  function PlanVerdict(site: Site, rs: Reads, a: Asker, skip: Skips, p: Plan): Verdict {
    if p == [] then Admitted
    else
      var v := PlanVerdict(site, rs, a, skip, p[..|p| - 1]);
      if v.Admitted? then VerdictOn(site, rs, a, skip, p[|p| - 1]) else v
  }

  method AdmitPlan(site: Site, rs: Reads, a: Asker, skip: Skips, p: Plan) returns (v: Verdict)
    ensures v == PlanVerdict(site, rs, a, skip, p)
  {
    for i := 0 to |p|
      invariant PlanVerdict(site, rs, a, skip, p[..i]) == Admitted
    {
      assert p[..i + 1][..i] == p[..i];
      var s := p[i];
      if s.action.Wait? || s.node == "" || s.node !in site.laneOf {
        continue;
      }
      v := AdmitLane(site, rs, a, skip, s.node, s.action.Pickup?);
      if !v.Admitted? {
        FirstRefusalStands(site, rs, a, skip, p, i);
        return;
      }
    }
    assert p[..|p|] == p;
    v := Admitted;
  }

  lemma {:induction false} FirstRefusalStands(site: Site, rs: Reads, a: Asker, skip: Skips, p: Plan, i: nat)
    requires i < |p| && !PlanVerdict(site, rs, a, skip, p[..i + 1]).Admitted?
    ensures PlanVerdict(site, rs, a, skip, p) == PlanVerdict(site, rs, a, skip, p[..i + 1])
    decreases |p|
  {
    var n := |p| - 1;
    if i == n {
      assert p[..n + 1] == p;
    } else {
      assert p[..n][..i + 1] == p[..i + 1];
      FirstRefusalStands(site, rs, a, skip, p[..n], i);
    }
  }

  lemma {:induction false} AdmittedIffEveryStep(site: Site, rs: Reads, a: Asker, skip: Skips, p: Plan)
    ensures PlanVerdict(site, rs, a, skip, p).Admitted?
      <==> forall s | s in p :: VerdictOn(site, rs, a, skip, s).Admitted?
  {
    if p != [] {
      var n := |p| - 1;
      AdmittedIffEveryStep(site, rs, a, skip, p[..n]);
      assert p == p[..n] + [p[n]];
    }
  }

  predicate StepIn(site: Site, s: Step, lane: nat) {
    Asked(site, s) && site.laneOf[s.node] == InLane(lane)
  }

  /** The lanes a stretch of plan goes into. */
  function LanesOf(site: Site, p: Plan): set<nat> {
    set s | s in p && Asked(site, s) && site.laneOf[s.node].InLane? :: site.laneOf[s.node].lane
  }

  /** A whole plan is admitted exactly when no lane it touches was unreadable, each of them is left to its gate
      or answered free of foreign digs and of others, and each unexcused pickup's bin is in reach. */
  lemma PlanAdmitsIff(site: Site, rs: Reads, a: Asker, skip: Skips, p: Plan)
    ensures PlanVerdict(site, rs, a, skip, p).Admitted? <==>
      && (forall s | s in p && Asked(site, s) :: !site.laneOf[s.node].Unread?)
      && (forall lane | lane in LanesOf(site, p) ::
            EntryDeferred(site, skip, lane) || (DigAllows(rs, a, lane) && Vacant(rs, a, lane)))
      && (forall s, lane | s in p && s.action.Pickup? && StepIn(site, s, lane) ::
            EntryDeferred(site, skip, lane) || skip.reachability || (lane in rs.reach && rs.reach[lane].Clear?))
  {
    AdmittedIffEveryStep(site, rs, a, skip, p);
    forall s, lane | s in p && StepIn(site, s, lane)
      ensures VerdictOn(site, rs, a, skip, s).Admitted? <==>
        || EntryDeferred(site, skip, lane)
        || (DigAllows(rs, a, lane) && Vacant(rs, a, lane)
            && (s.action.Pickup? && !skip.reachability ==> lane in rs.reach && rs.reach[lane].Clear?))
    {
      LaneAdmitsIff(site, rs, a, skip, s.node, s.action.Pickup?, lane);
    }
    hide PlanVerdict, AdmitLane, EntryDeferred, DigAllows, Vacant;
    forall s | s in p && !(Asked(site, s) && site.laneOf[s.node].InLane?)
      ensures VerdictOn(site, rs, a, skip, s).Admitted? <==> !(Asked(site, s) && site.laneOf[s.node].Unread?)
    {
      OutsideLanes(site, rs, a, skip, s);
    }
    forall lane | lane in LanesOf(site, p)
      ensures exists s | s in p :: StepIn(site, s, lane)
    {
      var s :| s in p && Asked(site, s) && site.laneOf[s.node].InLane? && site.laneOf[s.node].lane == lane;
      assert StepIn(site, s, lane);
    }
    forall s | s in p && Asked(site, s) && site.laneOf[s.node].InLane?
      ensures site.laneOf[s.node].lane in LanesOf(site, p) && StepIn(site, s, site.laneOf[s.node].lane)
    {
    }
  }

  lemma OutsideLanes(site: Site, rs: Reads, a: Asker, skip: Skips, s: Step)
    requires !(Asked(site, s) && site.laneOf[s.node].InLane?)
    ensures VerdictOn(site, rs, a, skip, s).Admitted? <==> !(Asked(site, s) && site.laneOf[s.node].Unread?)
  {
  }

  /** The cause a refused plan is parked with is true, of the lane it names, at the first step that is not
      admitted. */
  lemma {:induction false} PlanRefusalIsTrue(site: Site, rs: Reads, a: Asker, skip: Skips, p: Plan) returns (i: nat)
    requires PlanVerdict(site, rs, a, skip, p).Refused?
    ensures i < |p| && forall j | 0 <= j < i :: VerdictOn(site, rs, a, skip, p[j]).Admitted?
    ensures
      var v := PlanVerdict(site, rs, a, skip, p);
      StepIn(site, p[i], v.lane) && CauseHolds(rs, a, v.cause, v.lane, p[i].action.Pickup?)
  {
    var n := |p| - 1;
    if PlanVerdict(site, rs, a, skip, p[..n]).Admitted? {
      i := n;
      AdmittedIffEveryStep(site, rs, a, skip, p[..n]);
      forall j | 0 <= j < n
        ensures VerdictOn(site, rs, a, skip, p[j]).Admitted?
      {
        assert p[j] in p[..n];
      }
      RefusalIsTrue(site, rs, a, skip, p[n].node, p[n].action.Pickup?);
    } else {
      i := PlanRefusalIsTrue(site, rs, a, skip, p[..n]);
    }
  }

  // ---- fail closed, and skips only widen ----

  /** `ss` answers at least what `rs` answers, and alike. */
  ghost predicate AnswersMore(rs: Reads, ss: Reads) {
    && (forall l | l in rs.dig :: l in ss.dig && ss.dig[l] == rs.dig[l])
    && (forall l | l in rs.occupants :: l in ss.occupants && ss.occupants[l] == rs.occupants[l])
    && (forall l | l in rs.reach :: l in ss.reach && ss.reach[l] == rs.reach[l])
  }

  ghost predicate SkipsMore(skip: Skips, more: Skips) {
    (skip.reachability ==> more.reachability) && (skip.entryWhenGated ==> more.entryWhenGated)
  }

  lemma LaneAdmitsMore(site: Site, rs: Reads, ss: Reads, a: Asker, skip: Skips, more: Skips, s: Step)
    requires AnswersMore(rs, ss) && SkipsMore(skip, more) && VerdictOn(site, rs, a, skip, s).Admitted?
    ensures VerdictOn(site, ss, a, more, s).Admitted?
  {
  }

  /** Losing answers never admits what the full answers refuse, and removing a skip never turns a refusal
      into an admission. */
  lemma AdmissionIsMonotone(site: Site, rs: Reads, ss: Reads, a: Asker, skip: Skips, more: Skips, p: Plan)
    requires AnswersMore(rs, ss) && SkipsMore(skip, more) && PlanVerdict(site, rs, a, skip, p).Admitted?
    ensures PlanVerdict(site, ss, a, more, p).Admitted?
  {
    AdmittedIffEveryStep(site, rs, a, skip, p);
    AdmittedIffEveryStep(site, ss, a, more, p);
    forall s | s in p
      ensures VerdictOn(site, ss, a, more, s).Admitted?
    {
      LaneAdmitsMore(site, rs, ss, a, skip, more, s);
    }
  }

  // ---- what is asked about is what is registered ----

  /** The nodes rows are taken on: the registration's twin of admission's walk. */
  method PlanNodes(site: Site, p: Plan) returns (nodes: seq<string>)
    ensures forall node :: node in nodes <==> exists s | s in p :: Asked(site, s) && s.node == node
  {
    nodes := [];
    for i := 0 to |p|
      invariant forall node :: node in nodes <==> exists s | s in p[..i] :: Asked(site, s) && s.node == node
    {
      assert p[..i + 1] == p[..i] + [p[i]];
      if p[i].action.Wait? || p[i].node == "" || p[i].node !in site.laneOf {
        continue;
      }
      nodes := nodes + [p[i].node];
    }
    assert p[..|p|] == p;
  }

  /** Every lane of an admitted plan that the gate does not own was asked about, and nobody else was in it. */
  lemma AdmittedLaneIsFree(site: Site, rs: Reads, a: Asker, skip: Skips, p: Plan, lane: nat)
    requires PlanVerdict(site, rs, a, skip, p).Admitted? && lane in LanesOf(site, p)
    requires !EntryDeferred(site, skip, lane)
    ensures Vacant(rs, a, lane) && DigAllows(rs, a, lane)
  {
    PlanAdmitsIff(site, rs, a, skip, p);
  }
}
