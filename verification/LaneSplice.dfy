/** Putting a lane wait in front of every entry into a lane that the gate owns. */
module LaneSplice {
  import opened Plans
  import opened LaneAdmission

  /** Where a step puts the robot: a wait moves nothing, a blank node says nothing yet, and whatever is
      not in a gate's lane counts as outside. */
  datatype Place = Still | Blank | Outside | Within(lane: nat) | Unreadable

  function PlaceOf(site: Site, s: Step): Place {
    if s.action.Wait? then Still
    else if s.node == "" then Blank
    else if s.node !in site.laneOf then Outside
    else
      match site.laneOf[s.node]
      case Unread => Unreadable
      case NoLane => Outside
      case InLane(lane) => if OwnedByGate(site, lane) then Within(lane) else Outside
  }

  /** The gate's lane the robot is in after a plan, if any. */
  function Inside(site: Site, p: Plan): Place {
    if p == [] then Outside
    else
      match PlaceOf(site, p[|p| - 1])
      case Within(lane) => Within(lane)
      case Outside => Outside
      case _ => Inside(site, p[..|p| - 1])
  }

  predicate NeedsGate(site: Site, front: Plan, s: Step) {
    PlaceOf(site, s).Within? && PlaceOf(site, s) != Inside(site, front)
  }

  function LaneWait(site: Site, lane: nat): Step {
    Step(Wait, if lane in site.marks then site.marks[lane] else "", "", false, false, Lane, lane)
  }

  /** The plan with a wait in front of each step that enters a gate's lane from elsewhere. */
  function Spliced(site: Site, p: Plan): Plan {
    if p == [] then []
    else
      var front := p[..|p| - 1];
      var s := p[|p| - 1];
      if NeedsGate(site, front, s)
      then Spliced(site, front) + [LaneWait(site, PlaceOf(site, s).lane), s]
      else Spliced(site, front) + [s]
  }

  /** The self-check on the result: the step behind every lane wait stands in the lane the wait names, and
      a lane wait that ends the plan is where a robot holds a bin just picked up in that lane. */
  predicate WaitGatesEntry(site: Site, q: Plan, i: nat)
    requires i < |q|
  {
    !IsLaneWait(q[i])
    || (if i + 1 < |q| then StandsIn(site, q[i + 1], q[i].waitLane)
        else
          && StandsIn(site, q[i], q[i].waitLane)
          && i > 0 && q[i - 1].action.Pickup? && StandsIn(site, q[i - 1], q[i].waitLane))
  }

  predicate StandsIn(site: Site, s: Step, lane: int) {
    s.node in site.laneOf && site.laneOf[s.node].InLane? && site.laneOf[s.node].lane == lane
  }

  predicate EachWaitGates(site: Site, q: Plan) {
    forall i | 0 <= i < |q| :: WaitGatesEntry(site, q, i)
  }

  // ---- the two passes ----

  datatype Gate = Gate(index: nat, lane: nat)

  function GatesOf(site: Site, p: Plan): (gs: seq<Gate>)
    ensures forall k | 0 <= k < |gs| :: gs[k].index < |p|
    ensures forall j, k | 0 <= j < k < |gs| :: gs[j].index < gs[k].index
  {
    if p == [] then []
    else
      var n := |p| - 1;
      var front := GatesOf(site, p[..n]);
      if NeedsGate(site, p[..n], p[n]) then front + [Gate(n, PlaceOf(site, p[n]).lane)] else front
  }

  predicate Unsplicable(site: Site, p: Plan) {
    || (exists s | s in p :: PlaceOf(site, s).Unreadable?)
    || (var gs := GatesOf(site, p);
        gs != [] && exists i | 0 <= i < gs[|gs| - 1].index :: PlaceOf(site, p[i]).Blank?)
  }

  lemma GatesInPrefix(site: Site, p: Plan, i: nat)
    requires i < |p|
    ensures GatesOf(site, p[..i + 1]) ==
      GatesOf(site, p[..i]) + if NeedsGate(site, p[..i], p[i]) then [Gate(i, PlaceOf(site, p[i]).lane)] else []
  {
    assert p[..i + 1][..i] == p[..i];
    if !NeedsGate(site, p[..i], p[i]) {
      assert GatesOf(site, p[..i]) + [] == GatesOf(site, p[..i]);
    }
  }

  method FindGates(site: Site, p: Plan) returns (gates: seq<Gate>, blankAt: int, readable: bool)
    ensures readable <==> forall s | s in p :: !PlaceOf(site, s).Unreadable?
    ensures readable ==> gates == GatesOf(site, p)
    ensures readable ==> -1 <= blankAt < |p|
    ensures readable && blankAt < 0 ==> forall i | 0 <= i < |p| :: !PlaceOf(site, p[i]).Blank?
    ensures readable && blankAt >= 0 ==>
      PlaceOf(site, p[blankAt]).Blank? && forall i | 0 <= i < blankAt :: !PlaceOf(site, p[i]).Blank?
  {
    gates, blankAt, readable := [], -1, true;
    var inside := Outside;
    for i := 0 to |p|
      invariant inside == Inside(site, p[..i]) && gates == GatesOf(site, p[..i])
      invariant forall s | s in p[..i] :: !PlaceOf(site, s).Unreadable?
      invariant -1 <= blankAt < i
      invariant blankAt < 0 ==> forall j | 0 <= j < i :: !PlaceOf(site, p[j]).Blank?
      invariant blankAt >= 0 ==>
        PlaceOf(site, p[blankAt]).Blank? && forall j | 0 <= j < blankAt :: !PlaceOf(site, p[j]).Blank?
    {
      assert p[..i + 1][..i] == p[..i];
      assert p[..i + 1] == p[..i] + [p[i]];
      GatesInPrefix(site, p, i);
      match PlaceOf(site, p[i])
      case Still =>
      case Blank =>
        if blankAt < 0 {
          blankAt := i;
        }
      case Outside => inside := Outside;
      case Unreadable =>
        assert p[i] in p;
        readable := false;
        return;
      case Within(lane) =>
        if inside != Within(lane) {
          gates := gates + [Gate(i, lane)];
          inside := Within(lane);
        }
    }
    assert p[..|p|] == p;
  }

  method InsertWaits(site: Site, p: Plan, gates: seq<Gate>) returns (q: Plan)
    requires gates == GatesOf(site, p)
    ensures q == Spliced(site, p)
  {
    q := [];
    var next := 0;
    for i := 0 to |p|
      invariant next <= |gates| && gates[..next] == GatesOf(site, p[..i])
      invariant q == Spliced(site, p[..i])
    {
      assert p[..i + 1][..i] == p[..i];
      NextGate(site, p, i, next);
      if next < |gates| && gates[next].index == i {
        q := q + [LaneWait(site, gates[next].lane)];
        next := next + 1;
      }
      q := q + [p[i]];
    }
    assert p[..|p|] == p;
  }

  lemma {:induction false} GatesSplit(site: Site, p: Plan, i: nat)
    requires i <= |p|
    ensures GatesOf(site, p[..i]) <= GatesOf(site, p)
    ensures forall k | |GatesOf(site, p[..i])| <= k < |GatesOf(site, p)| :: GatesOf(site, p)[k].index >= i
    decreases |p|
  {
    if i == |p| {
      assert p[..i] == p;
    } else {
      var n := |p| - 1;
      assert p[..n][..i] == p[..i];
      GatesSplit(site, p[..n], i);
    }
  }

  lemma NextGate(site: Site, p: Plan, i: nat, next: nat)
    requires i < |p| && next <= |GatesOf(site, p)| && GatesOf(site, p)[..next] == GatesOf(site, p[..i])
    ensures NeedsGate(site, p[..i], p[i]) <==> next < |GatesOf(site, p)| && GatesOf(site, p)[next].index == i
    ensures NeedsGate(site, p[..i], p[i]) ==> GatesOf(site, p)[next].lane == PlaceOf(site, p[i]).lane
    ensures GatesOf(site, p[..i + 1]) == GatesOf(site, p)[..if NeedsGate(site, p[..i], p[i]) then next + 1 else next]
  {
    GatesInPrefix(site, p, i);
    GatesSplit(site, p, i + 1);
    var gs := GatesOf(site, p[..i + 1]);
    assert gs == GatesOf(site, p)[..|gs|];
  }

  predicate Splices(site: Site, p: Plan) {
    !Unsplicable(site, p) && (GatesOf(site, p) != [] ==> EachWaitGates(site, Spliced(site, p)))
  }

  /** The splice refuses a plan it cannot read or whose steps are not concrete up to its last gated entry,
      leaves a plan without gated entries alone, and checks its own result. */
  method SpliceLaneWait(site: Site, p: Plan) returns (q: Plan, gated: bool, ok: bool)
    ensures ok <==> Splices(site, p)
    ensures ok ==> q == Spliced(site, p) && (gated <==> GatesOf(site, p) != [])
  {
    q, gated, ok := [], false, false;
    var gates, blankAt, readable := FindGates(site, p);
    if !readable {
      return;
    }
    if gates == [] {
      NoGatesNoWaits(site, p);
      return p, false, true;
    }
    if 0 <= blankAt < gates[|gates| - 1].index {
      return;
    }
    q := InsertWaits(site, p, gates);
    gated := true;
    ok := EachWaitGates(site, q);
  }

  lemma {:induction false} NoGatesNoWaits(site: Site, p: Plan)
    requires GatesOf(site, p) == []
    ensures Spliced(site, p) == p
  {
    if p != [] {
      var n := |p| - 1;
      NoGatesNoWaits(site, p[..n]);
      assert p == p[..n] + [p[n]];
    }
  }

  // ---- what a spliced plan is ----

  function WithoutLaneWaits(p: Plan): Plan {
    if p == [] then []
    else
      var front := WithoutLaneWaits(p[..|p| - 1]);
      if IsLaneWait(p[|p| - 1]) then front else front + [p[|p| - 1]]
  }

  /** Take the lane waits out and the plan is what it was. */
  lemma {:induction false} SpliceOnlyInserts(site: Site, p: Plan)
    ensures WithoutLaneWaits(Spliced(site, p)) == WithoutLaneWaits(p)
  {
    if p != [] {
      var front := p[..|p| - 1];
      var s := p[|p| - 1];
      var q := Spliced(site, front);
      SpliceOnlyInserts(site, front);
      assert (q + [s])[..|q|] == q;
      if NeedsGate(site, front, s) {
        var w := LaneWait(site, PlaceOf(site, s).lane);
        assert (q + [w, s])[..|q| + 1] == q + [w];
        assert (q + [w])[..|q|] == q;
      }
    }
  }

  /** Every lane wait of the result was in the plan or was put in: then it is bare but for the lane it names and
      that lane's mark, at which the robot stops, and the step that enters the lane stands behind it. */
  lemma {:induction false} InsertedWaitIsAtMark(site: Site, p: Plan, i: nat)
    requires i < |Spliced(site, p)| && IsLaneWait(Spliced(site, p)[i]) && Spliced(site, p)[i] !in p
    ensures
      var q := Spliced(site, p);
      && i + 1 < |q| && q[i + 1] in p && PlaceOf(site, q[i + 1]).Within?
      && var lane := PlaceOf(site, q[i + 1]).lane;
         && lane in site.grouped && lane in site.marks && site.marks[lane] != ""
         && q[i] == Step(Wait, site.marks[lane], "", false, false, Lane, lane)
  {
    var front, s := p[..|p| - 1], p[|p| - 1];
    var q := Spliced(site, front);
    assert p == front + [s];
    if i < |q| {
      InsertedWaitIsAtMark(site, front, i);
    }
  }

  /** A step into a gate's lane is guarded: it stands directly behind a wait for that lane, or the robot
      has been in that lane since the last step that put it anywhere. */
  ghost predicate StillThere(site: Site, q: Plan, j: nat, i: nat)
    requires j <= i <= |q|
  {
    forall k | j < k < i :: PlaceOf(site, q[k]).Still? || PlaceOf(site, q[k]).Blank? || PlaceOf(site, q[k]).Unreadable?
  }

  ghost predicate Guarded(site: Site, q: Plan, i: nat)
    requires i < |q|
  {
    PlaceOf(site, q[i]).Within? ==>
      || (i > 0 && IsLaneWait(q[i - 1]) && q[i - 1].waitLane == PlaceOf(site, q[i]).lane)
      || exists j | 0 <= j < i :: PlaceOf(site, q[j]) == PlaceOf(site, q[i]) && StillThere(site, q, j, i)
  }

  lemma {:induction false} InsideSince(site: Site, q: Plan, lane: nat) returns (j: nat)
    requires Inside(site, q) == Within(lane)
    ensures j < |q| && PlaceOf(site, q[j]) == Within(lane) && StillThere(site, q, j, |q|)
  {
    var n := |q| - 1;
    if PlaceOf(site, q[n]).Within? {
      j := n;
    } else {
      j := InsideSince(site, q[..n], lane);
      forall k | j < k < |q|
        ensures PlaceOf(site, q[k]).Still? || PlaceOf(site, q[k]).Blank? || PlaceOf(site, q[k]).Unreadable?
      {
        if k < n {
          assert q[..n][k] == q[k];
        }
      }
    }
  }

  lemma InsideSnoc(site: Site, q: Plan, s: Step)
    ensures Inside(site, q + [s]) ==
      match PlaceOf(site, s)
      case Within(lane) => Within(lane)
      case Outside => Outside
      case _ => Inside(site, q)
  {
    assert (q + [s])[..|q|] == q;
  }

  lemma {:induction false} SpliceKeepsInside(site: Site, p: Plan)
    ensures Inside(site, Spliced(site, p)) == Inside(site, p)
  {
    if p != [] {
      var front := p[..|p| - 1];
      var s := p[|p| - 1];
      var q := Spliced(site, front);
      SpliceKeepsInside(site, front);
      InsideSnoc(site, q, s);
      if NeedsGate(site, front, s) {
        var w := LaneWait(site, PlaceOf(site, s).lane);
        InsideSnoc(site, q + [w], s);
        InsideSnoc(site, q, w);
        assert q + [w] + [s] == q + [w, s];
      }
    }
  }

  lemma GuardedInPrefix(site: Site, q: Plan, r: Plan, i: nat)
    requires q <= r && i < |q| && Guarded(site, q, i)
    ensures Guarded(site, r, i)
  {
    if PlaceOf(site, r[i]).Within?
      && !(i > 0 && IsLaneWait(q[i - 1]) && q[i - 1].waitLane == PlaceOf(site, q[i]).lane)
    {
      var j :| 0 <= j < i && PlaceOf(site, q[j]) == PlaceOf(site, q[i]) && StillThere(site, q, j, i);
      assert StillThere(site, r, j, i);
    }
  }

  /** Every entry into a gate's lane is guarded. */
  lemma {:induction false} SplicedIsGuarded(site: Site, p: Plan, i: nat)
    requires i < |Spliced(site, p)|
    ensures Guarded(site, Spliced(site, p), i)
  {
    var front := p[..|p| - 1];
    var s := p[|p| - 1];
    var q, r := Spliced(site, front), Spliced(site, p);
    if i < |q| {
      SplicedIsGuarded(site, front, i);
      GuardedInPrefix(site, q, r, i);
    } else if PlaceOf(site, r[i]).Within? && !NeedsGate(site, front, s) {
      SpliceKeepsInside(site, front);
      var j := InsideSince(site, q, PlaceOf(site, s).lane);
      assert StillThere(site, r, j, i);
    }
  }

  /** The step moves the robot nowhere: it waits, has no node yet, or has one whose lane could not be read. */
  ghost predicate Idle(site: Site, s: Step) {
    s.action == Wait || s.node == "" || (s.node in site.laneOf && site.laneOf[s.node] == Unread)
  }

  ghost predicate WorksIn(site: Site, s: Step, lane: nat) {
    s.action != Wait && s.node != "" && s.node in site.laneOf && site.laneOf[s.node] == InLane(lane)
  }

  /** Said of the site: a step in a lane that has a group and a mark stands directly behind a wait for that lane, or
      an earlier step stood in it and nothing in between moved the robot. */
  lemma EntryIsGuarded(site: Site, p: Plan, i: nat, lane: nat)
    requires i < |Spliced(site, p)| && WorksIn(site, Spliced(site, p)[i], lane)
    requires lane in site.grouped && lane in site.marks && site.marks[lane] != ""
    ensures
      var q := Spliced(site, p);
      || (i > 0 && q[i - 1].action == Wait && q[i - 1].waitKind == Lane && q[i - 1].waitLane == lane)
      || exists j | 0 <= j < i :: WorksIn(site, q[j], lane) && forall k | j < k < i :: Idle(site, q[k])
  {
    SplicedIsGuarded(site, p, i);
    hide Spliced;
    var q := Spliced(site, p);
    assert PlaceOf(site, q[i]) == Within(lane);
    if !(i > 0 && IsLaneWait(q[i - 1]) && q[i - 1].waitLane == lane) {
      var j :| 0 <= j < i && PlaceOf(site, q[j]) == Within(lane) && StillThere(site, q, j, i);
      forall k | j < k < i
        ensures Idle(site, q[k])
      {
        IdleIff(site, q[k]);
      }
      assert WorksIn(site, q[j], lane);
    }
  }

  lemma IdleIff(site: Site, s: Step)
    ensures Idle(site, s) <==> PlaceOf(site, s).Still? || PlaceOf(site, s).Blank? || PlaceOf(site, s).Unreadable?
  {
  }

  // ---- when the splice goes through ----

  ghost predicate HasGate(gs: seq<Gate>, j: nat) {
    exists k | 0 <= k < |gs| :: gs[k].index == j
  }

  lemma HasGateSnoc(gs: seq<Gate>, g: Gate, j: nat)
    ensures HasGate(gs + [g], j) <==> HasGate(gs, j) || g.index == j
  {
    var all := gs + [g];
    if HasGate(gs, j) {
      var k :| 0 <= k < |gs| && gs[k].index == j;
      assert all[k].index == j;
    }
    if HasGate(all, j) && g.index != j {
      var k :| 0 <= k < |all| && all[k].index == j;
      assert gs[k].index == j;
    }
    assert all[|gs|] == g;
  }

  lemma {:induction false} GateIsNeeded(site: Site, p: Plan, j: nat)
    requires j < |p|
    ensures HasGate(GatesOf(site, p), j) <==> NeedsGate(site, p[..j], p[j])
  {
    var n := |p| - 1;
    var front := GatesOf(site, p[..n]);
    if NeedsGate(site, p[..n], p[n]) {
      HasGateSnoc(front, Gate(n, PlaceOf(site, p[n]).lane), j);
    }
    hide NeedsGate, PlaceOf;
    if j < n {
      GateIsNeeded(site, p[..n], j);
      assert p[..n][..j] == p[..j];
    }
  }

  /** Every lane the splice asks for can be read. */
  ghost predicate AllRead(site: Site, p: Plan) {
    forall i | 0 <= i < |p| && p[i].action != Wait && p[i].node != "" && p[i].node in site.laneOf ::
      site.laneOf[p[i].node] != Unread
  }

  /** No step without a node stands in front of a gated entry. */
  ghost predicate ConcreteUpToGates(site: Site, p: Plan) {
    forall i, j | 0 <= i < j < |p| && p[i].action != Wait && p[i].node == "" :: !NeedsGate(site, p[..j], p[j])
  }

  ghost predicate EntersAGate(site: Site, p: Plan) {
    exists j | 0 <= j < |p| :: NeedsGate(site, p[..j], p[j])
  }

  /** A lane wait has the entry into its lane behind it or, at the end of the plan, stands in that lane behind a
      pickup there. */
  ghost predicate InPlace(site: Site, q: Plan, i: nat)
    requires i < |q|
  {
    q[i].action == Wait && q[i].waitKind == Lane ==>
      if i + 1 < |q| then StandsIn(site, q[i + 1], q[i].waitLane)
      else
        && i > 0 && q[i - 1].action == Pickup
        && StandsIn(site, q[i - 1], q[i].waitLane) && StandsIn(site, q[i], q[i].waitLane)
  }

  ghost predicate WaitsInPlace(site: Site, q: Plan) {
    forall i | 0 <= i < |q| :: InPlace(site, q, i)
  }

  /** When the splice goes through. */
  lemma SplicesIff(site: Site, p: Plan)
    ensures Splices(site, p) <==>
      && AllRead(site, p) && ConcreteUpToGates(site, p)
      && (EntersAGate(site, p) ==> WaitsInPlace(site, Spliced(site, p)))
  {
    ReadableIff(site, p);
    GatesIff(site, p, GatesOf(site, p));
    InPlaceIff(site, Spliced(site, p));
    hide GatesOf, Spliced, AllRead, ConcreteUpToGates, EntersAGate, WaitsInPlace, EachWaitGates, PlaceOf;
  }

  lemma InPlaceIff(site: Site, q: Plan)
    ensures EachWaitGates(site, q) <==> WaitsInPlace(site, q)
  {
    forall i | 0 <= i < |q|
      ensures WaitGatesEntry(site, q, i) <==> InPlace(site, q, i)
    {
      hide StandsIn;
    }
  }

  lemma GatesIff(site: Site, p: Plan, gs: seq<Gate>)
    requires gs == GatesOf(site, p)
    ensures gs != [] <==> EntersAGate(site, p)
    ensures (gs != [] && exists i | 0 <= i < gs[|gs| - 1].index :: PlaceOf(site, p[i]).Blank?) <==>
      !ConcreteUpToGates(site, p)
  {
    forall j | 0 <= j < |p|
      ensures HasGate(gs, j) <==> NeedsGate(site, p[..j], p[j])
    {
      GateIsNeeded(site, p, j);
    }
    hide GatesOf, NeedsGate, PlaceOf;
    if gs != [] {
      assert HasGate(gs, gs[0].index);
    }
    BlankInFrontIff(site, p, gs);
  }

  lemma ReadableIff(site: Site, p: Plan)
    ensures (exists s | s in p :: PlaceOf(site, s).Unreadable?) <==> !AllRead(site, p)
  {
    if !AllRead(site, p) {
      var i :| 0 <= i < |p|
        && p[i].action != Wait && p[i].node != "" && p[i].node in site.laneOf && site.laneOf[p[i].node] == Unread;
      assert p[i] in p;
    }
  }

  lemma BlankInFrontIff(site: Site, p: Plan, gs: seq<Gate>)
    requires gs == GatesOf(site, p)
    requires forall j | 0 <= j < |p| :: HasGate(gs, j) <==> NeedsGate(site, p[..j], p[j])
    ensures (gs != [] && exists i | 0 <= i < gs[|gs| - 1].index :: PlaceOf(site, p[i]).Blank?) <==>
      !ConcreteUpToGates(site, p)
  {
    hide GatesOf, NeedsGate;
    if gs != [] && exists i | 0 <= i < gs[|gs| - 1].index :: PlaceOf(site, p[i]).Blank? {
      var i :| 0 <= i < gs[|gs| - 1].index && PlaceOf(site, p[i]).Blank?;
      var j := gs[|gs| - 1].index;
      assert HasGate(gs, j);
      assert NeedsGate(site, p[..j], p[j]) && p[i].action != Wait && p[i].node == "";
    }
    if !ConcreteUpToGates(site, p) {
      var i, j :| 0 <= i < j < |p| && p[i].action != Wait && p[i].node == "" && NeedsGate(site, p[..j], p[j]);
      var k :| 0 <= k < |gs| && gs[k].index == j;
      assert gs[k].index <= gs[|gs| - 1].index;
      assert PlaceOf(site, p[i]).Blank?;
    }
  }

  // ---- what a create of a spliced plan enters and registers ----

  /** The part sent at create time goes into no lane the gate owns. */
  lemma {:induction false} CreateEntersNoGatesLane(site: Site, p: Plan, i: nat)
    requires i < Stop(Spliced(site, p), 0)
    ensures !PlaceOf(site, Spliced(site, p)[i]).Within?
    decreases i
  {
    var q := Spliced(site, p);
    SplicedIsGuarded(site, p, i);
    if PlaceOf(site, q[i]).Within? {
      if i > 0 && IsLaneWait(q[i - 1]) && q[i - 1].waitLane == PlaceOf(site, q[i]).lane {
        var k := WaitIsListed(q, i - 1);
      } else {
        var j :| 0 <= j < i && PlaceOf(site, q[j]) == PlaceOf(site, q[i]) && StillThere(site, q, j, i);
        CreateEntersNoGatesLane(site, p, j);
      }
    }
  }

  ghost predicate NoLaneWaits(p: Plan) {
    forall s | s in p :: !IsLaneWait(s)
  }

  /** Behind every lane wait of a spliced plan stands a step into the gate's lane that the wait names. */
  lemma {:induction false} InsertedWaits(site: Site, p: Plan, i: nat)
    requires NoLaneWaits(p) && i < |Spliced(site, p)| && IsLaneWait(Spliced(site, p)[i])
    ensures
      var q := Spliced(site, p);
      i + 1 < |q| && PlaceOf(site, q[i + 1]).Within? && q[i].waitLane == PlaceOf(site, q[i + 1]).lane
  {
    var front := p[..|p| - 1];
    var s := p[|p| - 1];
    assert s in p;
    if i < |Spliced(site, front)| {
      InsertedWaits(site, front, i);
    }
  }

  /** The splice's self-check cannot fail on a plan that came without lane waits. */
  lemma SelfCheckPasses(site: Site, p: Plan)
    requires NoLaneWaits(p)
    ensures EachWaitGates(site, Spliced(site, p))
  {
    var q := Spliced(site, p);
    forall i | 0 <= i < |q|
      ensures WaitGatesEntry(site, q, i)
    {
      if IsLaneWait(q[i]) {
        InsertedWaits(site, p, i);
      }
    }
  }

  /** The lanes an order is recorded in over its life: those of its create, and those its lane waits name. */
  ghost predicate Registers(site: Site, q: Plan, lane: nat) {
    lane in LanesOf(site, PreWait(q)) || exists s | s in q :: IsLaneWait(s) && s.waitLane == lane
  }

  /** Every lane a segment behind the first wait goes into, and that no gate owns, was in the create. */
  ghost predicate LaterLanesWereCreated(site: Site, q: Plan) {
    forall i, lane | Stop(q, 0) <= i < |q| && StepIn(site, q[i], lane) && !OwnedByGate(site, lane) ::
      lane in LanesOf(site, PreWait(q))
  }

  lemma LaneOfStep(site: Site, p: Plan, i: nat, lane: nat)
    requires i < |p| && StepIn(site, p[i], lane)
    ensures lane in LanesOf(site, p)
  {
    assert p[i] in p;
  }

  /** Entering a gate's lane takes a wait that names it. */
  lemma {:induction false} GatesLaneHasWait(site: Site, q: Plan, i: nat, lane: nat)
    requires i < |q| && PlaceOf(site, q[i]) == Within(lane)
    requires forall k | 0 <= k < |q| :: Guarded(site, q, k)
    ensures exists s | s in q :: IsLaneWait(s) && s.waitLane == lane
    decreases i
  {
    assert Guarded(site, q, i);
    if i > 0 && IsLaneWait(q[i - 1]) && q[i - 1].waitLane == lane {
      assert q[i - 1] in q;
    } else {
      var j :| 0 <= j < i && PlaceOf(site, q[j]) == PlaceOf(site, q[i]) && StillThere(site, q, j, i);
      GatesLaneHasWait(site, q, j, lane);
    }
  }

  lemma StepInGatesLane(site: Site, s: Step, lane: nat)
    requires StepIn(site, s, lane) && OwnedByGate(site, lane)
    ensures PlaceOf(site, s) == Within(lane)
  {
  }

  lemma EnteredIsRegistered(site: Site, q: Plan, lane: nat)
    requires forall k | 0 <= k < |q| :: Guarded(site, q, k)
    requires LaterLanesWereCreated(site, q) && lane in LanesOf(site, q)
    ensures Registers(site, q, lane)
  {
    hide Guarded;
    var s :| s in q && StepIn(site, s, lane);
    var i :| 0 <= i < |q| && q[i] == s;
    if OwnedByGate(site, lane) {
      StepInGatesLane(site, q[i], lane);
      GatesLaneHasWait(site, q, i, lane);
    } else if i < Stop(q, 0) {
      LaneOfStep(site, PreWait(q), i, lane);
    } else {
      assert StepIn(site, q[i], lane);
    }
  }

  lemma RegisteredIsEntered(site: Site, p: Plan, lane: nat)
    requires NoLaneWaits(p) && Registers(site, Spliced(site, p), lane)
    ensures lane in LanesOf(site, Spliced(site, p))
    ensures lane in LanesOf(site, PreWait(Spliced(site, p))) || OwnedByGate(site, lane)
  {
    var q := Spliced(site, p);
    hide Spliced, Waits;
    if lane in LanesOf(site, PreWait(q)) {
      var s :| s in PreWait(q) && StepIn(site, s, lane);
      assert s in q;
    } else {
      var s :| s in q && IsLaneWait(s) && s.waitLane == lane;
      var i :| 0 <= i < |q| && q[i] == s;
      InsertedWaits(site, p, i);
      LaneOfStep(site, q, i + 1, lane);
    }
  }

  /** The lanes an order is recorded in are exactly the lanes its robot goes into if and only if no segment
      behind the first wait goes into a lane that has no gate and was not in the create. */
  lemma RegisteredIffEntered(site: Site, p: Plan)
    requires NoLaneWaits(p)
    ensures
      var q := Spliced(site, p);
      (forall lane :: Registers(site, q, lane) <==> lane in LanesOf(site, q)) <==> LaterLanesWereCreated(site, q)
  {
    var q := Spliced(site, p);
    forall lane | Registers(site, q, lane)
      ensures lane in LanesOf(site, q)
      ensures lane in LanesOf(site, PreWait(q)) || OwnedByGate(site, lane)
    {
      RegisteredIsEntered(site, p, lane);
    }
    if LaterLanesWereCreated(site, q) {
      forall k | 0 <= k < |q|
        ensures Guarded(site, q, k)
      {
        SplicedIsGuarded(site, p, k);
      }
      forall lane | lane in LanesOf(site, q)
        ensures Registers(site, q, lane)
      {
        EnteredIsRegistered(site, q, lane);
      }
    }
    if forall lane :: Registers(site, q, lane) <==> lane in LanesOf(site, q) {
      forall i, lane | Stop(q, 0) <= i < |q| && StepIn(site, q[i], lane) && !OwnedByGate(site, lane)
        ensures lane in LanesOf(site, PreWait(q))
      {
        LaneOfStep(site, q, i, lane);
        assert Registers(site, q, lane);
      }
    }
  }
}
