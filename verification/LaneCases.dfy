/** Runs from the empty plant in which two robots are sent into one lane, one for each kind of step that is
    not lawful, and a plan whose recorded lanes are not the lanes it enters. */
module LaneCases {
  import opened Plans
  import Release
  import opened LaneAdmission
  import opened LaneSplice
  import opened LaneRuns

  function Drop(node: string): Step {
    Step(Dropoff, node, "", false, false, Untagged, 0)
  }

  function Pick(node: string): Step {
    Step(Pickup, node, "", false, false, Untagged, 0)
  }

  const STATION_WAIT := Step(Wait, "", "", false, false, Station, 0)

  /** Two lanes without gates, one slot each, and a line position outside them. */
  const OPEN := Site(map["S1" := InLane(1), "S2" := InLane(2), "LINE" := NoLane], map[], {})

  /** One lane with a mark in front of it. */
  const GATED := Site(map["S1" := InLane(1)], map[1 := "MARK"], {1})

  /** Nobody digs and nobody is inside. */
  const FREE := Reads(map[1 := 0, 2 := 0], map[], map[1 := {}, 2 := {}], map[])

  function Creating(o: nat, p: Plan, site: Site, handover: Handover): Event {
    Create(Asker(o, {}), p, site, FREE, handover)
  }

  lemma RunStep(site: Site, es: seq<Event>, e: Event)
    ensures Run(site, EMPTY, es + [e]) == Next(site, Run(site, EMPTY, es), e)
    ensures Run(site, EMPTY, []) == EMPTY
  {
    assert (es + [e])[..|es|] == es;
  }

  lemma FirstStep(site: Site, e: Event)
    ensures Run(site, EMPTY, [e]) == Next(site, EMPTY, e)
  {
    RunStep(site, [], e);
    assert [] + [e] == [e];
  }

  // ---- creates of plans without waits ----

  lemma {:induction false} Unspliced(p: Plan)
    ensures GatesOf(OPEN, p) == [] && Spliced(OPEN, p) == p
  {
    if p != [] {
      var n := |p| - 1;
      Unspliced(p[..n]);
      assert p == p[..n] + [p[n]];
    }
  }

  lemma {:induction false} NoWaits(p: Plan)
    requires forall s | s in p :: !s.action.Wait?
    ensures Waits(p) == [] && PreWait(p) == p
  {
    if p != [] {
      var n := |p| - 1;
      assert p[n] in p;
      NoWaits(p[..n]);
    }
  }

  /** Any such plan of named steps is admitted to empty lanes and sent whole. */
  lemma OpenCreate(s: World, o: nat, p: Plan, handover: Handover)
    requires forall t | t in p :: t.action.Dropoff? && t.node in OPEN.laneOf && t.node != ""
    requires TrueReads(FREE, s.occ) && !handover.TakeFailed?
    ensures Sent(OPEN, p) == p && BlockLanes(OPEN, p) == LanesOf(OPEN, p)
    ensures Enabled(OPEN, s, Creating(o, p, OPEN, handover))
    ensures Next(OPEN, s, Creating(o, p, OPEN, handover)) == CreateEffect(OPEN, s, o, p, OPEN, handover)
  {
    Unspliced(p);
    NoWaits(p);
    AdmittedIffEveryStep(OPEN, FREE, Asker(o, {}), FOR_COMPLEX_ENTRY, p);
    hide Spliced, PreWait, PlanVerdict, GatesOf;
  }

  lemma LanesOfOne(node: string, lane: nat)
    requires node in OPEN.laneOf && OPEN.laneOf[node] == InLane(lane) && node != ""
    ensures LanesOf(OPEN, [Drop(node)]) == {lane}
  {
    assert Drop(node) in [Drop(node)];
  }

  /** A create whose answer is lost gives its rows back behind the robot. */
  lemma LostCreateAnswerLetsTwoIn()
    ensures
      var s := Run(OPEN, EMPTY, [Creating(1, [Drop("S1")], OPEN, AnswerLost)]
                              + [Creating(2, [Drop("S1")], OPEN, Accepted)]);
      (1, 1) in s.sent && (2, 1) in s.sent
  {
    hide Enabled, Sent, BlockLanes, LanesOf, Run;
    var p := [Drop("S1")];
    var first, second := Creating(1, p, OPEN, AnswerLost), Creating(2, p, OPEN, Accepted);
    LanesOfOne("S1", 1);
    FirstStep(OPEN, first);
    RunStep(OPEN, [first], second);
    OpenCreate(EMPTY, 1, p, AnswerLost);
    var s := Next(OPEN, EMPTY, first);
    assert s.occ == {} && s.sent == {(1, 1)};
    OpenCreate(s, 2, p, Accepted);
  }

  /** A dropoff completes in the first of two lanes; the row on the second goes with it, before the robot has
      been there. */
  lemma FirstDropoffLetsTwoIn()
    ensures
      var s := Run(OPEN, EMPTY, [Creating(1, [Drop("S1"), Drop("S2")], OPEN, Accepted)]
                              + [Cleared(1)] + [Creating(2, [Drop("S2")], OPEN, Accepted)]);
      (1, 2) in s.sent && (2, 2) in s.sent
  {
    hide Enabled, Sent, BlockLanes, Run;
    var p := [Drop("S1"), Drop("S2")];
    var first, last := Creating(1, p, OPEN, Accepted), Creating(2, [Drop("S2")], OPEN, Accepted);
    FirstStep(OPEN, first);
    RunStep(OPEN, [first], Cleared(1));
    RunStep(OPEN, [first] + [Cleared(1)], last);
    OpenCreate(EMPTY, 1, p, Accepted);
    assert p[1] in p && 2 in LanesOf(OPEN, p);
    LanesOfOne("S2", 2);
    var s := Next(OPEN, EMPTY, first);
    ClearedDrops(s, 1);
    OpenCreate(Next(OPEN, s, Cleared(1)), 2, [Drop("S2")], Accepted);
  }

  lemma ClearedDrops(s: World, o: nat)
    requires forall r | r in s.occ :: r.0 == o
    ensures Next(OPEN, s, Cleared(o)) == World({}, s.sent)
  {
  }

  // ---- a segment behind a station's wait ----

  /** Fetch at the line, wait for the station, and store into a lane without a gate. */
  const STAGED := [Pick("LINE")] + [STATION_WAIT] + [Drop("S1")]

  lemma WaitsSnoc(p: Plan, s: Step)
    ensures Waits(p + [s]) == if s.action.Wait? then Waits(p) + [|p|] else Waits(p)
  {
    assert (p + [s])[..|p|] == p;
  }

  lemma StagedWaits()
    ensures Waits(STAGED) == [1]
  {
    hide Waits;
    WaitsSnoc([], Pick("LINE"));
    WaitsSnoc([Pick("LINE")], STATION_WAIT);
    WaitsSnoc([Pick("LINE")] + [STATION_WAIT], Drop("S1"));
    assert [] + [Pick("LINE")] == [Pick("LINE")];
    NoWaits([]);
  }

  lemma StagedCuts()
    ensures Spliced(OPEN, STAGED) == STAGED && Waits(STAGED) == [1]
    ensures PreWait(STAGED) == [Pick("LINE")] && Segment(STAGED, 0) == [Drop("S1")]
  {
    hide Spliced, Waits;
    Unspliced(STAGED);
    StagedWaits();
    assert STAGED[1] == STATION_WAIT;
    assert STAGED[..1] == [Pick("LINE")] && STAGED[2..3] == [Drop("S1")];
  }

  /** The lane is entered and never recorded: the plan is outside the condition of `RegisteredIffEntered`. */
  lemma StationWaitLaneIsUnrecorded()
    ensures
      var q := Spliced(OPEN, STAGED);
      1 in LanesOf(OPEN, q) && !Registers(OPEN, q, 1) && !LaterLanesWereCreated(OPEN, q)
  {
    StagedCuts();
    hide Spliced, Waits;
    assert STAGED[2] == Drop("S1") && StepIn(OPEN, STAGED[2], 1);
    LaneOfStep(OPEN, STAGED, 2, 1);
    assert LanesOf(OPEN, [Pick("LINE")]) == {};
    assert Stop(STAGED, 0) == 1;
  }

  lemma StagedCreate(s: World)
    requires s == EMPTY
    ensures Next(OPEN, s, Creating(1, STAGED, OPEN, Accepted)) == EMPTY
  {
    StagedCuts();
    var e := Creating(1, STAGED, OPEN, Accepted);
    var pre := [Pick("LINE")];
    Unspliced(STAGED);
    AdmittedIffEveryStep(OPEN, FREE, Asker(1, {}), FOR_COMPLEX_ENTRY, STAGED);
    hide Spliced, PreWait, PlanVerdict, GatesOf, Waits;
    assert LanesOf(OPEN, pre) == {} && BlockLanes(OPEN, pre) == {};
    assert Rows(1, {}) == {};
  }

  const STATION_RELEASE := LaneRuns.Event.Release(1, STAGED, 0, "", Release.Delivered)

  lemma StagedRelease()
    ensures Next(OPEN, EMPTY, STATION_RELEASE) == World({}, {(1, 1)})
  {
    StagedCuts();
    hide Spliced, Waits;
    assert Release.SegmentSteps(STAGED, 0, "") == [Drop("S1")];
    assert BlockLanes(OPEN, [Drop("S1")]) == {1} by {
      assert Drop("S1") in [Drop("S1")];
    }
    assert Rows(1, {1}) == {(1, 1)};
  }

  /** The station releases order 1 into the lane, nobody is told, and order 2 is admitted to it. */
  lemma StationReleaseLetsTwoIn()
    ensures
      var s := Run(OPEN, EMPTY, [Creating(1, STAGED, OPEN, Accepted)] + [STATION_RELEASE]
                              + [Creating(2, [Drop("S1")], OPEN, Accepted)]);
      (1, 1) in s.sent && (2, 1) in s.sent
  {
    hide Run, Next, Sent, BlockLanes, LanesOf, Creating;
    var first, last := Creating(1, STAGED, OPEN, Accepted), Creating(2, [Drop("S1")], OPEN, Accepted);
    FirstStep(OPEN, first);
    RunStep(OPEN, [first], STATION_RELEASE);
    RunStep(OPEN, [first] + [STATION_RELEASE], last);
    StagedCreate(EMPTY);
    StagedRelease();
    LanesOfOne("S1", 1);
    OpenCreate(World({}, {(1, 1)}), 2, [Drop("S1")], Accepted);
  }

  // ---- a gated tail whose answer is lost ----

  /** The wait at the mark and the entry behind it. */
  const TAIL := [LaneWait(GATED, 1)] + [Drop("S1")]

  function Entering(o: nat, link: Release.Link): Event {
    Tail(Asker(o, {}), TAIL, 0, GATED, FREE, link)
  }

  lemma TailCuts()
    ensures Spliced(GATED, [Drop("S1")]) == TAIL
    ensures Waits(TAIL) == [0] && Segment(TAIL, 0) == [Drop("S1")]
  {
    assert [Drop("S1")][..0] == [] && TAIL[..1] == [LaneWait(GATED, 1)] && TAIL[..1][..0] == [];
    assert Waits(TAIL[..1]) == [0];
  }

  lemma TailEnters(s: World, o: nat, link: Release.Link)
    requires TrueReads(FREE, s.occ) && (o, 1) !in s.occ
    ensures Next(GATED, s, Entering(o, link)) ==
      World(
        if link.Delivered? then s.occ + {(o, 1)} else s.occ,
        if link.NotReached? then s.sent else s.sent + {(o, 1)})
  {
    TailCuts();
    hide Waits;
    assert StepIn(GATED, TAIL[1], 1);
    assert BlockLanes(GATED, [Drop("S1")]) == {1} by {
      assert Drop("S1") in [Drop("S1")];
    }
    assert Rows(o, {1}) == {(o, 1)};
  }

  /** The create sends the robot to the mark and takes no row. */
  lemma GatedCreate(o: nat)
    ensures Next(GATED, EMPTY, Creating(o, [Drop("S1")], GATED, Accepted)) == EMPTY
  {
    TailCuts();
    var mark, p := [LaneWait(GATED, 1)], [Drop("S1")];
    assert PreWait(TAIL) == mark;
    AdmittedIffEveryStep(GATED, FREE, Asker(o, {}), FOR_COMPLEX_ENTRY, p);
    hide PreWait, PlanVerdict, Waits;
    assert LanesOf(GATED, mark) == {} && BlockLanes(GATED, mark) == {};
    assert Rows(o, {}) == {};
  }

  /** Two orders wait at the mark. Order 1's tail lands and its answer is lost, so its row is rolled back;
      order 2 asks and is let in. */
  lemma LostReplyLetsTwoIn()
    ensures
      var s := Run(GATED, EMPTY, [Creating(1, [Drop("S1")], GATED, Accepted)]
                               + [Creating(2, [Drop("S1")], GATED, Accepted)]
                               + [Entering(1, Release.ReplyLost)] + [Entering(2, Release.Delivered)]);
      (1, 1) in s.sent && (2, 1) in s.sent
  {
    hide Next, Run;
    var p := [Drop("S1")];
    var a, b := Creating(1, p, GATED, Accepted), Creating(2, p, GATED, Accepted);
    var first, second := Entering(1, Release.ReplyLost), Entering(2, Release.Delivered);
    FirstStep(GATED, a);
    RunStep(GATED, [a], b);
    RunStep(GATED, [a] + [b], first);
    RunStep(GATED, [a] + [b] + [first], second);
    GatedCreate(1);
    GatedCreate(2);
    TailEnters(EMPTY, 1, Release.ReplyLost);
    TailEnters(Next(GATED, EMPTY, first), 2, Release.Delivered);
  }
}
