/** The rewrites a queued plan goes through while it waits: group re-resolution, supply widening, and the
    revert of a fungible slot. Resolver and finder are answers supplied from outside. */
module PlanRewrites {
  import opened Plans
  import opened PlanShape
  import opened Pickups
  import opened Allocator
  import opened AllocatorRetry
  import opened AllocatorSlots

  type Name = s: string | s != "" witness "N"

  datatype NodeKind = Concrete | Group

  datatype Answer = Failed | Resolved(name: Name, group: string)

  /** The step is looked up and found to be a group still: only these are re-resolved. A lane wait
      names a map point and is never looked up. */
  predicate Unresolved(s: Step, kinds: map<string, NodeKind>) {
    s.node != "" && !s.waitKind.Lane? && s.node in kinds && kinds[s.node].Group?
  }

  /** On the first failure the caller gets the plan it came with. Otherwise every group step, and no
      other, gets its answer; the wait kind of a re-resolved wait is dropped on the way. */
  method ReResolve(p: Plan, kinds: map<string, NodeKind>, answers: seq<Answer>)
    returns (q: Plan, changed: bool, ok: bool)
    requires |answers| == |p|
    ensures SameShape(p, q) && SameLaneWaits(p, q)
    ensures !ok ==> q == p && !changed
    ensures ok <==> forall i | 0 <= i < |p| && Unresolved(p[i], kinds) :: answers[i].Resolved?
    ensures forall i | 0 <= i < |p| && !Unresolved(p[i], kinds) :: q[i] == p[i]
    ensures forall i | 0 <= i < |p| && ok && Unresolved(p[i], kinds) ::
      q[i] == p[i].(node := answers[i].name, group := answers[i].group, waitKind := Untagged, waitLane := 0)
    ensures changed <==> exists i | 0 <= i < |p| :: q[i].node != p[i].node
  {
    q, changed, ok := [], false, true;
    for i := 0 to |p|
      invariant |q| == i
      invariant forall j | 0 <= j < i && !Unresolved(p[j], kinds) :: q[j] == p[j]
      invariant forall j | 0 <= j < i && Unresolved(p[j], kinds) :: answers[j].Resolved?
      invariant forall j | 0 <= j < i && Unresolved(p[j], kinds) ::
        q[j] == p[j].(node := answers[j].name, group := answers[j].group, waitKind := Untagged, waitLane := 0)
      invariant changed <==> exists j | 0 <= j < i :: q[j].node != p[j].node
    {
      var s := p[i];
      if !Unresolved(s, kinds) {
        q := q + [s];
        continue;
      }
      if answers[i].Failed? {
        return p, false, false;
      }
      changed := changed || answers[i].name != s.node;
      q := q + [Step(s.action, answers[i].name, answers[i].group, s.empty, s.exclusiveSlot, Untagged, 0)];
    }
    forall i | 0 <= i < |p|
      ensures SameShapeStep(p[i], q[i])
    {
    }
  }

  // ---- widening ----

  /** A wait somebody outside the lane gate advances. */
  predicate OperatorWait(s: Step) {
    s.action.Wait? && !s.waitKind.Lane?
  }

  function Horizon(p: Plan): (h: nat)
    ensures h <= |p|
    ensures forall i | 0 <= i < h :: !OperatorWait(p[i])
    ensures h < |p| ==> OperatorWait(p[h])
  {
    if p == [] || OperatorWait(p[0]) then 0 else 1 + Horizon(p[1..])
  }

  predicate SupplyPickup(s: Step, processNode: string) {
    s.action.Pickup? && !s.empty && !(processNode != "" && s.node == processNode)
  }

  function Anchor(s: Step): string {
    if s.group != "" then s.group else s.node
  }

  /** What the finder, or the reachability check of a hold, says about one supply pickup: leave it, take
      it from another node of its pool, or stop here. */
  datatype Advice = Leave | Substitute(name: Name) | Blocked

  /** A pickup of a full bin anywhere but at the order's own line node. */
  ghost predicate IsSupply(s: Step, processNode: string) {
    s.action == Pickup && s.empty == false && (s.node == processNode ==> processNode == "")
  }

  /** Where a pickup shops: its group, or its own node if it has none. */
  ghost function Shop(s: Step): (name: string)
    ensures s.group == "" ==> name == s.node
    ensures s.group != "" ==> name == s.group
  {
    if s.group == "" then s.node else s.group
  }

  ghost predicate WidenedStep(s: Step, t: Step, processNode: string) {
    || t == s
    || (IsSupply(s, processNode) && exists name: Name :: t == s.(node := name, group := Shop(s)))
  }

  /** The supply pickups at a node in front of position `i`. */
  ghost function Earlier(p: Plan, processNode: string, node: string, i: nat): nat
    requires i <= |p|
  {
    if i == 0 then 0
    else
      Earlier(p, processNode, node, i - 1)
      + if IsSupply(p[i - 1], processNode) && p[i - 1].node == node then 1 else 0
  }

  /** One of the order's holds is left for this pickup: more holds of full bins at its node than supply pickups
      there in front of it. */
  ghost predicate Covered(p: Plan, processNode: string, holds: seq<Held>, i: nat)
    requires i < |p|
  {
    Supply(holds)[(p[i].node, false)] > Earlier(p, processNode, p[i].node, i)
  }

  /** The pickup is asked about: it has a hold, or it is anchored at a known node that is no group. */
  ghost predicate Consulted(p: Plan, processNode: string, holds: seq<Held>, kinds: map<string, NodeKind>, i: nat)
    requires i < |p|
  {
    && (forall j | 0 <= j < i && p[j].action == Wait :: p[j].waitKind == Lane)
    && IsSupply(p[i], processNode)
    && (|| Covered(p, processNode, holds, i)
        || (Shop(p[i]) != "" && Shop(p[i]) in kinds && kinds[Shop(p[i])] == Concrete))
  }

  ghost predicate Stops(
    p: Plan, processNode: string, holds: seq<Held>, kinds: map<string, NodeKind>, advice: seq<Advice>, i: nat)
    requires i < |p| == |advice|
  {
    Consulted(p, processNode, holds, kinds, i) && advice[i].Blocked?
  }

  /** The pickup moves to the node advised: nothing stopped the walk before it, and the node is another one, or
      the hold it had is to be replaced. */
  ghost predicate Moves(
    p: Plan, processNode: string, holds: seq<Held>, kinds: map<string, NodeKind>, advice: seq<Advice>, i: nat)
    requires i < |p| == |advice|
  {
    && (forall j | 0 <= j < i :: !Stops(p, processNode, holds, kinds, advice, j))
    && Consulted(p, processNode, holds, kinds, i) && advice[i].Substitute?
    && (Covered(p, processNode, holds, i) || advice[i].name != p[i].node)
  }

  /** Widening moves exactly those supply pickups to the nodes advised and does nothing else; nothing at or past
      the first operator wait changes. It is blocked exactly when some pickup asked about is. */
  method WidenSupplyPickups(
    p: Plan, processNode: string, holds: seq<Held>, kinds: map<string, NodeKind>, advice: seq<Advice>)
    returns (q: Plan, changed: bool, blocked: bool)
    requires |advice| == |p|
    ensures SameShape(p, q) && SameLaneWaits(p, q)
    ensures forall i | 0 <= i < |p| :: WidenedStep(p[i], q[i], processNode)
    ensures forall i, j | 0 <= i < j < |p| && p[i].action == Wait && p[i].waitKind != Lane :: q[j] == p[j]
    ensures forall i | 0 <= i < |p| ::
      q[i] == if Moves(p, processNode, holds, kinds, advice, i)
              then p[i].(node := advice[i].name, group := Shop(p[i])) else p[i]
    ensures changed <==> exists i | 0 <= i < |p| :: Moves(p, processNode, holds, kinds, advice, i)
    ensures blocked <==> exists i | 0 <= i < |p| :: Stops(p, processNode, holds, kinds, advice, i)
  {
    hide FirstMatch, Consulted, Covered, LeftOver, WidenedTo, Horizon, Stops, Moves;
    var held := holds;
    q, changed, blocked := p, false, false;
    var i := 0;
    Unused(p, processNode, holds);
    NothingWidened(p, processNode, holds, kinds, advice);
    while i < |p|
      invariant i <= Horizon(p)
      invariant |q| == |p| && |held| == |holds| && q[i..] == p[i..]
      invariant LeftOver(p, processNode, holds, held, i)
      invariant WidenedTo(p, processNode, holds, kinds, advice, i, q, changed)
      invariant !blocked
    {
      var s := q[i];
      assert s == q[i..][0] == p[i];
      ghost var was := q;
      if OperatorWait(s) {
        break;
      }
      InFrontOfHorizon(p, i);
      var asked, covered := false, false;
      if SupplyPickup(s, processNode) {
        var n := Need(i, s.node, s.empty, false);
        var k := FirstMatch(held, n, 0);
        UseHold(p, processNode, holds, held, i, n, k);
        covered := k < |held|;
        if k < |held| {
          // The hold is consumed, so a second pickup alike cannot ride on it.
          held := held[k := held[k].(used := true)];
        }
        asked := covered || (Anchor(s) != "" && Anchor(s) in kinds && kinds[Anchor(s)].Concrete?);
      } else {
        PassOver(p, processNode, holds, held, i);
      }
      AskedIff(p, processNode, holds, kinds, i, covered, asked);
      if asked && advice[i].Blocked? {
        blocked := true;
        WidenedAll(p, processNode, holds, kinds, advice, i, q, changed);
        return;
      }
      if asked && advice[i].Substitute? && (covered || advice[i].name != s.node) {
        q := q[i := s.(node := advice[i].name, group := Anchor(s))];
        changed := true;
      }
      OneMoreWidened(p, processNode, holds, kinds, advice, i, was, q, covered, asked);
      i := i + 1;
    }
    AtHorizon(p, i);
    WidenedAll(p, processNode, holds, kinds, advice, i, q, changed);
  }

  lemma InFrontOfHorizon(p: Plan, i: nat)
    requires i < |p| && i <= Horizon(p) && !OperatorWait(p[i])
    ensures i < Horizon(p)
  {
  }

  lemma AtHorizon(p: Plan, i: nat)
    requires i <= Horizon(p) && (i == |p| || (i < |p| && OperatorWait(p[i])))
    ensures i == Horizon(p)
  {
  }

  lemma AskedIff(
    p: Plan, processNode: string, holds: seq<Held>, kinds: map<string, NodeKind>, i: nat, covered: bool, asked: bool)
    requires i < |p| && i < Horizon(p)
    requires SupplyPickup(p[i], processNode) ==> (covered <==> Covered(p, processNode, holds, i))
    requires asked <==>
      && SupplyPickup(p[i], processNode)
      && (covered || (Anchor(p[i]) != "" && Anchor(p[i]) in kinds && kinds[Anchor(p[i])].Concrete?))
    ensures asked <==> Consulted(p, processNode, holds, kinds, i)
    ensures asked ==> (covered <==> Covered(p, processNode, holds, i))
  {
  }

  /** The walk has come to `i` without being stopped, and the pickups in front that move have moved. */
  ghost predicate WidenedTo(
    p: Plan, processNode: string, holds: seq<Held>, kinds: map<string, NodeKind>, advice: seq<Advice>, i: nat,
    q: Plan, changed: bool)
  {
    && |q| == |p| == |advice| && i <= |p|
    && (forall j | 0 <= j < i :: !Stops(p, processNode, holds, kinds, advice, j))
    && (forall j | 0 <= j < |p| ::
          q[j] == if j < i && Moves(p, processNode, holds, kinds, advice, j)
                  then p[j].(node := advice[j].name, group := Shop(p[j])) else p[j])
    && (changed <==> exists j | 0 <= j < i :: Moves(p, processNode, holds, kinds, advice, j))
  }

  lemma NothingWidened(
    p: Plan, processNode: string, holds: seq<Held>, kinds: map<string, NodeKind>, advice: seq<Advice>)
    requires |advice| == |p|
    ensures WidenedTo(p, processNode, holds, kinds, advice, 0, p, false)
  {
  }

  lemma OneMoreWidened(
    p: Plan, processNode: string, holds: seq<Held>, kinds: map<string, NodeKind>, advice: seq<Advice>, i: nat,
    q: Plan, r: Plan, covered: bool, asked: bool)
    requires i < |p| == |advice|
    requires asked <==> Consulted(p, processNode, holds, kinds, i)
    requires asked ==> (covered <==> Covered(p, processNode, holds, i)) && !advice[i].Blocked?
    requires
      var moves := asked && advice[i].Substitute? && (covered || advice[i].name != p[i].node);
      && |q| == |p|
      && r == if moves then q[i := p[i].(node := advice[i].name, group := Shop(p[i]))] else q
    ensures
      var moves := asked && advice[i].Substitute? && (covered || advice[i].name != p[i].node);
      forall changed | WidenedTo(p, processNode, holds, kinds, advice, i, q, changed) ::
        WidenedTo(p, processNode, holds, kinds, advice, i + 1, r, changed || moves)
  {
    hide Consulted, Covered;
    var moves := asked && advice[i].Substitute? && (covered || advice[i].name != p[i].node);
    assert !Stops(p, processNode, holds, kinds, advice, i);
    forall changed | WidenedTo(p, processNode, holds, kinds, advice, i, q, changed)
      ensures WidenedTo(p, processNode, holds, kinds, advice, i + 1, r, changed || moves)
    {
      assert Moves(p, processNode, holds, kinds, advice, i) <==> moves;
      hide Moves, Stops;
    }
  }

  /** A pickup that is asked about stands in front of the first operator wait. */
  lemma ConsultedInFront(p: Plan, processNode: string, holds: seq<Held>, kinds: map<string, NodeKind>, i: nat)
    requires i < |p| && Consulted(p, processNode, holds, kinds, i)
    ensures i < Horizon(p)
  {
    hide Horizon, Covered;
  }

  /** Nothing behind the end of the walk moves, and nothing there stops it unless that is what ended it. */
  lemma {:induction false} NothingBehind(
    p: Plan, processNode: string, holds: seq<Held>, kinds: map<string, NodeKind>, advice: seq<Advice>, i: nat, j: nat)
    requires i <= j < |p| == |advice|
    requires i == Horizon(p) || Stops(p, processNode, holds, kinds, advice, i)
    ensures !Moves(p, processNode, holds, kinds, advice, j)
    ensures i == Horizon(p) ==> !Stops(p, processNode, holds, kinds, advice, j)
  {
    hide Horizon, Covered;
    if Consulted(p, processNode, holds, kinds, j) {
      ConsultedInFront(p, processNode, holds, kinds, j);
      assert Stops(p, processNode, holds, kinds, advice, i);
      if i == j {
        assert advice[i].Blocked?;
      }
    }
  }

  lemma {:induction false} WidenedAll(
    p: Plan, processNode: string, holds: seq<Held>, kinds: map<string, NodeKind>, advice: seq<Advice>, i: nat,
    q: Plan, changed: bool)
    requires WidenedTo(p, processNode, holds, kinds, advice, i, q, changed)
    requires i == Horizon(p) || (i < |p| && Consulted(p, processNode, holds, kinds, i) && advice[i].Blocked?)
    ensures SameShape(p, q) && SameLaneWaits(p, q)
    ensures forall j | 0 <= j < |p| :: WidenedStep(p[j], q[j], processNode)
    ensures forall j | Horizon(p) <= j < |p| :: q[j] == p[j]
    ensures forall j | 0 <= j < |p| ::
      q[j] == if Moves(p, processNode, holds, kinds, advice, j)
              then p[j].(node := advice[j].name, group := Shop(p[j])) else p[j]
    ensures changed <==> exists j | 0 <= j < |p| :: Moves(p, processNode, holds, kinds, advice, j)
    ensures (exists j | 0 <= j < |p| :: Stops(p, processNode, holds, kinds, advice, j)) <==> i < Horizon(p)
  {
    if i != Horizon(p) {
      ConsultedInFront(p, processNode, holds, kinds, i);
      assert Stops(p, processNode, holds, kinds, advice, i);
    }
    forall j: nat | i <= j < |p|
      ensures !Moves(p, processNode, holds, kinds, advice, j)
      ensures i == Horizon(p) ==> !Stops(p, processNode, holds, kinds, advice, j)
    {
      NothingBehind(p, processNode, holds, kinds, advice, i, j);
    }
    forall j: nat | j < |p|
      ensures WidenedStep(p[j], q[j], processNode)
      ensures Horizon(p) <= j ==> q[j] == p[j]
    {
      if Moves(p, processNode, holds, kinds, advice, j) {
        ConsultedInFront(p, processNode, holds, kinds, j);
      }
    }
    hide Horizon, Moves, Stops, WidenedStep, Consulted;
    WidenedKeepsShape(p, q, processNode);
  }

  /** Of the holds at each node those are left that the supply pickups so far have not used up. */
  ghost predicate LeftOver(p: Plan, processNode: string, holds: seq<Held>, held: seq<Held>, i: nat)
    requires i <= |p|
  {
    forall node :: Supply(held)[(node, false)] == Left(p, processNode, holds, node, i)
  }

  ghost function Left(p: Plan, processNode: string, holds: seq<Held>, node: string, i: nat): nat
    requires i <= |p|
  {
    var all, used := Supply(holds)[(node, false)], Earlier(p, processNode, node, i);
    if used <= all then all - used else 0
  }

  lemma Unused(p: Plan, processNode: string, holds: seq<Held>)
    ensures LeftOver(p, processNode, holds, holds, 0)
  {
  }

  lemma PassOver(p: Plan, processNode: string, holds: seq<Held>, held: seq<Held>, i: nat)
    requires i < |p| && LeftOver(p, processNode, holds, held, i) && !SupplyPickup(p[i], processNode)
    ensures LeftOver(p, processNode, holds, held, i + 1)
  {
  }

  lemma UseHold(
    p: Plan, processNode: string, holds: seq<Held>, held: seq<Held>, i: nat, n: Need, k: nat)
    requires i < |p| && LeftOver(p, processNode, holds, held, i) && SupplyPickup(p[i], processNode)
    requires n.node == p[i].node && !n.empty && k == FirstMatch(held, n, 0)
    ensures k < |held| <==> Covered(p, processNode, holds, i)
    ensures LeftOver(p, processNode, holds, if k < |held| then held[k := held[k].(used := true)] else held, i + 1)
  {
    hide Supply, FirstMatch;
    MatchIffSupplied(held, n);
    var key := (n.node, false);
    assert key in Supply(held) <==> Supply(held)[key] > 0;
    if k < |held| {
      assert (held[k].node, held[k].empty) == key;
      SupplyUse(held, k);
      UsedOne(p, processNode, holds, Supply(held), Supply(held[k := held[k].(used := true)]), i);
    } else {
      UsedOne(p, processNode, holds, Supply(held), Supply(held), i);
    }
  }

  lemma UsedOne(
    p: Plan, processNode: string, holds: seq<Held>, was: multiset<Key>, now: multiset<Key>, i: nat)
    requires i < |p| && SupplyPickup(p[i], processNode)
    requires now == was - multiset{(p[i].node, false)}
    requires forall node :: was[(node, false)] == Left(p, processNode, holds, node, i)
    ensures forall node :: now[(node, false)] == Left(p, processNode, holds, node, i + 1)
  {
    hide Supply;
    forall node
      ensures now[(node, false)] == Left(p, processNode, holds, node, i + 1)
    {
      assert was[(node, false)] == Left(p, processNode, holds, node, i);
    }
  }

  lemma WidenedKeepsShape(p: Plan, q: Plan, processNode: string)
    requires |q| == |p| && forall j | 0 <= j < |p| :: WidenedStep(p[j], q[j], processNode)
    ensures SameShape(p, q) && SameLaneWaits(p, q)
  {
    forall j | 0 <= j < |p|
      ensures SameShapeStep(p[j], q[j])
    {
      assert WidenedStep(p[j], q[j], processNode);
    }
  }

  /** The slot reconcile's reverts keep the shape too. */
  lemma SlotRevertKeepsShape(p: Plan, q: Plan)
    requires |p| == |q| && forall i | 0 <= i < |p| :: RevertedStep(p[i], q[i])
    ensures SameShape(p, q) && SameLaneWaits(p, q)
  {
    forall i | 0 <= i < |p|
      ensures SameShapeStep(p[i], q[i])
    {
      assert RevertedStep(p[i], q[i]);
    }
  }

  /** Whatever rewrites a plan has been through, every wait index cuts it at the same places, with the
      same offset and the same waits to come. */
  lemma {:induction false} RewriteChainKeepsSegments(ps: seq<Plan>, w: nat)
    requires ps != [] && forall i | 0 <= i < |ps| - 1 :: SameShape(ps[i], ps[i + 1])
    ensures
      var p, q := ps[0], ps[|ps| - 1];
      && SameShape(p, q) && Waits(p) == Waits(q) && Stop(p, w) == Stop(q, w)
      && (w < |Waits(p)| ==> BlockOffset(p, w) == BlockOffset(q, w) && SameShape(Segment(p, w), Segment(q, w)))
  {
    var n := |ps| - 1;
    if n > 0 {
      forall i | 0 <= i < n - 1
        ensures SameShape(ps[..n][i], ps[..n][i + 1])
      {
        assert SameShape(ps[i], ps[i + 1]);
      }
      RewriteChainKeepsSegments(ps[..n], w);
      assert SameShape(ps[n - 1], ps[n - 1 + 1]);
      SameShapeTransitive(ps[0], ps[n - 1], ps[n]);
    }
    SameStop(ps[0], ps[n], w);
    SameSegments(ps[0], ps[n], w);
  }
}
