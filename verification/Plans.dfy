/** Plans of complex orders, and how a plan is cut into segments at its waits. */
module Plans {

  datatype Action = Pickup | Dropoff | Wait

  /** Who advances a wait. An untagged wait is read as the station's. */
  datatype WaitKind = Untagged | Station | Lane

  /** One resolved step. A blank `node` is a deferred dropoff or a bare wait. */
  datatype Step = Step(
    action: Action,
    node: string,
    group: string,
    empty: bool,
    exclusiveSlot: bool,
    waitKind: WaitKind,
    waitLane: int)

  type Plan = seq<Step>

  /** A bare wait is only a split marker; every other step becomes at least one fleet block. */
  predicate EmitsBlock(s: Step) {
    !s.action.Wait? || s.node != ""
  }

  /** A wait that only the lane evaluator advances. */
  predicate IsLaneWait(s: Step) {
    s.action.Wait? && s.waitKind.Lane?
  }

  /** The block-producing steps, in order. */
  function BlockSteps(p: Plan): Plan {
    if p == [] then []
    else if EmitsBlock(p[0]) then [p[0]] + BlockSteps(p[1..])
    else BlockSteps(p[1..])
  }

  /** The positions of a plan's waits, bare or not, in ascending order. */
  function Waits(p: Plan): (ws: seq<nat>)
    ensures forall k | 0 <= k < |ws| :: ws[k] < |p|
    ensures forall j, k | 0 <= j < k < |ws| :: ws[j] < ws[k]
  {
    if p == [] then []
    else
      var n := |p| - 1;
      var front := Waits(p[..n]);
      if p[n].action.Wait? then front + [n] else front
  }

  /** Where the part of the plan in front of wait `w` stops: after a wait that names a node,
      before a bare one, and at the end of the plan when there is no such wait. */
  function Stop(p: Plan, w: nat): (e: nat)
    ensures e <= |p|
  {
    if w < |Waits(p)| then
      var i := Waits(p)[w];
      if p[i].node != "" then i + 1 else i
    else |p|
  }

  /** The part a create sends: everything in front of the first wait. */
  function PreWait(p: Plan): Plan {
    p[..Stop(p, 0)]
  }

  lemma StopAfterStart(p: Plan, w: nat)
    requires w < |Waits(p)|
    ensures Waits(p)[w] + 1 <= Stop(p, w + 1)
  {
  }

  /** The steps released at wait `w`. */
  function Segment(p: Plan, w: nat): (s: Plan)
    requires w < |Waits(p)|
  {
    StopAfterStart(p, w);
    p[Waits(p)[w] + 1..Stop(p, w + 1)]
  }

  function BlockOffset(p: Plan, w: nat): nat
    requires w < |Waits(p)|
  {
    |BlockSteps(p[..Waits(p)[w] + 1])|
  }

  /** Everything sent once the create and the first `k` segments are out. */
  function Released(p: Plan, k: nat): Plan
    requires k <= |Waits(p)|
  {
    if k == 0 then PreWait(p) else Released(p, k - 1) + Segment(p, k - 1)
  }

  // ---------------------------------------------------------------- waits

  lemma {:induction false} WaitsOfPrefix(p: Plan, i: nat)
    requires i <= |p|
    ensures Waits(p[..i]) <= Waits(p)
    ensures forall k | |Waits(p[..i])| <= k < |Waits(p)| :: i <= Waits(p)[k]
    decreases |p| - i
  {
    if i == |p| {
      assert p[..i] == p;
    } else {
      WaitsOfPrefix(p, i + 1);
      assert p[..i + 1][..i] == p[..i];
      var longer := Waits(p[..i + 1]);
      forall k | |Waits(p[..i])| <= k < |Waits(p)|
        ensures i <= Waits(p)[k]
      {
        if k < |longer| {
          assert longer[k] == Waits(p)[k];
        }
      }
    }
  }

  lemma {:induction false} WaitsAreWaits(p: Plan, w: nat)
    requires w < |Waits(p)|
    ensures p[Waits(p)[w]].action.Wait?
  {
    var n := |p| - 1;
    if w < |Waits(p[..n])| {
      WaitsAreWaits(p[..n], w);
    }
  }

  /** Every wait of the plan is listed. */
  lemma {:induction false} WaitIsListed(p: Plan, i: nat) returns (w: nat)
    requires i < |p| && p[i].action.Wait?
    ensures w < |Waits(p)| && Waits(p)[w] == i
  {
    var n := |p| - 1;
    if i == n {
      w := |Waits(p)| - 1;
    } else {
      w := WaitIsListed(p[..n], i);
    }
  }

  /** Between one wait and the next there is no other wait. */
  lemma NoWaitBetween(p: Plan, w: nat, i: nat)
    requires w < |Waits(p)|
    requires Waits(p)[w] < i < |p|
    requires w + 1 < |Waits(p)| ==> i < Waits(p)[w + 1]
    ensures !p[i].action.Wait?
  {
    if p[i].action.Wait? {
      var k := WaitIsListed(p, i);
      assert false;
    }
  }

  lemma NoWaitBeforeFirst(p: Plan, i: nat)
    requires i < |p|
    requires Waits(p) != [] ==> i < Waits(p)[0]
    ensures !p[i].action.Wait?
  {
    if p[i].action.Wait? {
      var k := WaitIsListed(p, i);
      assert false;
    }
  }

  // ---------------------------------------------------------------- block-producing steps

  lemma {:induction false} BlockStepsConcat(a: Plan, b: Plan)
    ensures BlockSteps(a + b) == BlockSteps(a) + BlockSteps(b)
  {
    if a == [] {
      assert a + b == b;
    } else {
      assert (a + b)[1..] == a[1..] + b;
      BlockStepsConcat(a[1..], b);
    }
  }

  lemma {:induction false} BlockStepsOfEmitting(a: Plan)
    requires forall k | 0 <= k < |a| :: EmitsBlock(a[k])
    ensures BlockSteps(a) == a
  {
    if a != [] {
      BlockStepsOfEmitting(a[1..]);
    }
  }

  lemma SegmentEmits(p: Plan, w: nat)
    requires w < |Waits(p)|
    ensures forall k | 0 <= k < |Segment(p, w)| :: EmitsBlock(Segment(p, w)[k])
  {
    var from := Waits(p)[w] + 1;
    forall k | 0 <= k < |Segment(p, w)|
      ensures EmitsBlock(Segment(p, w)[k])
    {
      assert Segment(p, w)[k] == p[from + k];
      if w + 1 < |Waits(p)| && from + k == Waits(p)[w + 1] {
      } else {
        NoWaitBetween(p, w, from + k);
      }
    }
  }

  lemma PreWaitEmits(p: Plan)
    ensures forall k | 0 <= k < |PreWait(p)| :: EmitsBlock(PreWait(p)[k])
  {
    forall k | 0 <= k < |PreWait(p)|
      ensures EmitsBlock(PreWait(p)[k])
    {
      if Waits(p) != [] && k == Waits(p)[0] {
      } else {
        NoWaitBeforeFirst(p, k);
      }
    }
  }

  /** The block-producing steps up to and past wait `w` are those in front of its stop. */
  lemma StopSkipsOnlyBareWaits(p: Plan, w: nat)
    requires w < |Waits(p)|
    ensures BlockSteps(p[..Waits(p)[w] + 1]) == BlockSteps(p[..Stop(p, w)])
  {
    var i := Waits(p)[w];
    WaitsAreWaits(p, w);
    if p[i].node == "" {
      assert p[..i + 1] == p[..i] + [p[i]];
      BlockStepsConcat(p[..i], [p[i]]);
      assert BlockSteps([p[i]]) == [];
      assert BlockSteps(p[..i]) + [] == BlockSteps(p[..i]);
    }
  }

  lemma StopExtendsBySegment(p: Plan, w: nat)
    requires w < |Waits(p)|
    ensures BlockSteps(p[..Stop(p, w + 1)]) == BlockSteps(p[..Stop(p, w)]) + Segment(p, w)
  {
    var cut := Waits(p)[w] + 1;
    StopAfterStart(p, w);
    assert p[..Stop(p, w + 1)] == p[..cut] + Segment(p, w);
    BlockStepsConcat(p[..cut], Segment(p, w));
    SegmentEmits(p, w);
    BlockStepsOfEmitting(Segment(p, w));
    StopSkipsOnlyBareWaits(p, w);
  }

  lemma PreWaitIsBlockSteps(p: Plan)
    ensures PreWait(p) == BlockSteps(p[..Stop(p, 0)])
  {
    PreWaitEmits(p);
    BlockStepsOfEmitting(PreWait(p));
  }

  /** What has gone out after the create and `k` segments is exactly the block-producing steps
      in front of stop `k`: nothing skipped, repeated or reordered. */
  lemma {:induction false} ReleasedIsPrefix(p: Plan, k: nat)
    requires k <= |Waits(p)|
    ensures Released(p, k) == BlockSteps(p[..Stop(p, k)])
  {
    if k == 0 {
      PreWaitIsBlockSteps(p);
    } else {
      var w := k - 1;
      ReleasedIsPrefix(p, w);
      StopExtendsBySegment(p, w);
      ReleasedStep(p, w);
    }
  }

  lemma ReleasedStep(p: Plan, w: nat)
    requires w < |Waits(p)|
    ensures Released(p, w + 1) == Released(p, w) + Segment(p, w)
  {
  }

  /** The create and all the segments together are the plan's block-producing steps, in order. */
  lemma SegmentsPartitionPlan(p: Plan)
    ensures Released(p, |Waits(p)|) == BlockSteps(p)
  {
    ReleasedIsPrefix(p, |Waits(p)|);
    assert p[..|p|] == p;
  }

  /** A segment's block offset is the number of block-producing steps sent before it. */
  lemma OffsetCountsReleased(p: Plan, w: nat)
    requires w < |Waits(p)|
    ensures BlockOffset(p, w) == |Released(p, w)|
  {
    ReleasedIsPrefix(p, w);
    StopSkipsOnlyBareWaits(p, w);
  }

  /** A segment with another wait behind it is empty exactly when that next wait is bare and
      stands directly behind the one being released; a final one when the plan ends on its wait. */
  lemma EmptySegment(p: Plan, w: nat)
    requires w < |Waits(p)|
    ensures w + 1 < |Waits(p)| ==>
      (Segment(p, w) == [] <==> Waits(p)[w + 1] == Waits(p)[w] + 1 && p[Waits(p)[w + 1]].node == "")
    ensures w + 1 == |Waits(p)| ==> (Segment(p, w) == [] <==> Waits(p)[w] + 1 == |p|)
  {
    StopAfterStart(p, w);
  }

  // ---------------------------------------------------------------- the source's loops

  /** splitSegment: skip `waitIndex + 1` waits, count the blocks in front, and run to the next
      wait. `found` is false where the source returns a nil segment. */
  method SplitSegment(steps: Plan, waitIndex: int)
    returns (segment: Plan, moreWaits: bool, blockOffset: nat, found: bool)
    ensures found <==> 0 <= waitIndex < |Waits(steps)|
    ensures found ==> segment == Segment(steps, waitIndex)
    ensures found ==> (moreWaits <==> waitIndex + 1 < |Waits(steps)|)
    ensures found ==> blockOffset == |Released(steps, waitIndex)|
    ensures !found ==> segment == [] && !moreWaits && blockOffset == 0
  {
    segment, moreWaits, blockOffset := [], false, 0;
    var start;
    start, found := SegmentStart(steps, waitIndex);
    if found {
      blockOffset := CountBlocks(steps[..start]);
      OffsetCountsReleased(steps, waitIndex);
      var end;
      end, moreWaits := SegmentEnd(steps, waitIndex, start);
      segment := steps[start..end];
    }
  }

  /** The first loop of splitSegment. */
  method SegmentStart(steps: Plan, waitIndex: int) returns (start: nat, found: bool)
    ensures found <==> 0 <= waitIndex < |Waits(steps)|
    ensures found ==> start == Waits(steps)[waitIndex] + 1
  {
    start, found := 0, false;
    var waitsSeen, i := 0, 0;
    while i < |steps|
      invariant 0 <= i <= |steps|
      invariant waitsSeen == |Waits(steps[..i])|
      invariant waitIndex < 0 || waitsSeen <= waitIndex
    {
      assert steps[..i + 1][..i] == steps[..i];
      if steps[i].action.Wait? {
        waitsSeen := waitsSeen + 1;
        if waitsSeen == waitIndex + 1 {
          WaitsOfPrefix(steps, i + 1);
          assert Waits(steps[..i + 1])[waitIndex] == i;
          return i + 1, true;
        }
      }
      i := i + 1;
    }
    assert steps[..|steps|] == steps;
  }

  /** The second loop of splitSegment. */
  method CountBlocks(front: Plan) returns (n: nat)
    ensures n == |BlockSteps(front)|
  {
    n := 0;
    for i := 0 to |front|
      invariant n == |BlockSteps(front[..i])|
    {
      assert front[..i + 1] == front[..i] + [front[i]];
      BlockStepsConcat(front[..i], [front[i]]);
      if !front[i].action.Wait? || front[i].node != "" {
        n := n + 1;
      }
    }
    assert front[..|front|] == front;
  }

  /** The third loop of splitSegment. */
  method SegmentEnd(steps: Plan, waitIndex: nat, start: nat) returns (end: nat, moreWaits: bool)
    requires waitIndex < |Waits(steps)| && start == Waits(steps)[waitIndex] + 1
    ensures start <= end == Stop(steps, waitIndex + 1)
    ensures moreWaits <==> waitIndex + 1 < |Waits(steps)|
  {
    for i := start to |steps|
      invariant forall j | start <= j < i :: !steps[j].action.Wait?
    {
      if steps[i].action.Wait? {
        NextWaitIs(steps, waitIndex, i);
        if steps[i].node != "" {
          return i + 1, true;
        }
        return i, true;
      }
    }
    if waitIndex + 1 < |Waits(steps)| {
      WaitsAreWaits(steps, waitIndex + 1);
    }
    return |steps|, false;
  }

  lemma NextWaitIs(p: Plan, w: nat, i: nat)
    requires w < |Waits(p)|
    requires Waits(p)[w] < i < |p| && p[i].action.Wait?
    requires forall j | Waits(p)[w] < j < i :: !p[j].action.Wait?
    ensures w + 1 < |Waits(p)| && Waits(p)[w + 1] == i
  {
    var k := WaitIsListed(p, i);
    if w + 1 < k {
      WaitsAreWaits(p, w + 1);
    }
  }

  /** waitAt: the counting loop that finds the wait an order with this index is parked at. */
  method WaitAt(steps: Plan, waitIndex: int) returns (step: Step, ok: bool)
    ensures ok <==> 0 <= waitIndex < |Waits(steps)|
    ensures ok ==> step == steps[Waits(steps)[waitIndex]]
  {
    step := Step(Wait, "", "", false, false, Untagged, 0);
    ok := false;
    if waitIndex < 0 {
      return;
    }
    var seen, i := 0, 0;
    while i < |steps|
      invariant 0 <= i <= |steps|
      invariant seen == |Waits(steps[..i])| <= waitIndex
    {
      assert steps[..i + 1][..i] == steps[..i];
      if steps[i].action.Wait? {
        if seen == waitIndex {
          WaitsOfPrefix(steps, i + 1);
          assert Waits(steps[..i + 1])[waitIndex] == i;
          return steps[i], true;
        }
        seen := seen + 1;
      }
      i := i + 1;
    }
    assert steps[..|steps|] == steps;
  }

  /** splitAtWait: the create's half of the plan, and whether anything is held back. */
  method SplitAtWait(steps: Plan) returns (preWait: Plan, hasWait: bool)
    ensures preWait == PreWait(steps)
    ensures hasWait <==> Waits(steps) != []
  {
    var i := 0;
    while i < |steps|
      invariant 0 <= i <= |steps|
      invariant Waits(steps[..i]) == []
    {
      assert steps[..i + 1][..i] == steps[..i];
      if steps[i].action.Wait? {
        WaitsOfPrefix(steps, i + 1);
        assert Waits(steps[..i + 1])[0] == i;
        if steps[i].node != "" {
          return steps[..i + 1], true;
        }
        return steps[..i], true;
      }
      i := i + 1;
    }
    assert steps[..|steps|] == steps;
    return steps, false;
  }
}
