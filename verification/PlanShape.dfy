/** What a plan rewrite may not change: step count, actions, and which waits carry a node.
    Everything the segmented release derives from a plan depends on that shape only. */
module PlanShape {
  import opened Plans
  import opened Blocks

  ghost predicate SameShapeStep(a: Step, b: Step) {
    a.action == b.action && (a.action.Wait? ==> (a.node == "" <==> b.node == ""))
  }

  ghost predicate SameShape(p: Plan, q: Plan) {
    |p| == |q| && forall i | 0 <= i < |p| :: SameShapeStep(p[i], q[i])
  }

  /** Nor may it make or unmake a lane wait. */
  ghost predicate SameLaneWaits(p: Plan, q: Plan) {
    |p| == |q| && forall i | 0 <= i < |p| :: IsLaneWait(p[i]) <==> IsLaneWait(q[i])
  }

  lemma SameShapeTransitive(p: Plan, q: Plan, r: Plan)
    requires SameShape(p, q) && SameShape(q, r)
    ensures SameShape(p, r)
  {
    forall i | 0 <= i < |p|
      ensures SameShapeStep(p[i], r[i])
    {
      assert SameShapeStep(p[i], q[i]) && SameShapeStep(q[i], r[i]);
    }
  }

  lemma SameShapeSlice(p: Plan, q: Plan, i: nat, j: nat)
    requires SameShape(p, q) && i <= j <= |p|
    ensures SameShape(p[i..j], q[i..j])
  {
  }

  lemma {:induction false} SameWaits(p: Plan, q: Plan)
    requires SameShape(p, q)
    ensures Waits(p) == Waits(q)
  {
    if p != [] {
      var n := |p| - 1;
      SameWaits(p[..n], q[..n]);
      assert SameShapeStep(p[n], q[n]);
    }
  }

  lemma SameStop(p: Plan, q: Plan, w: nat)
    requires SameShape(p, q)
    ensures Waits(p) == Waits(q) && Stop(p, w) == Stop(q, w)
  {
    SameWaits(p, q);
    if w < |Waits(p)| {
      WaitsAreWaits(p, w);
      assert SameShapeStep(p[Waits(p)[w]], q[Waits(p)[w]]);
    }
  }

  lemma {:induction false} SameBlockCount(p: Plan, q: Plan)
    requires SameShape(p, q)
    ensures |BlockSteps(p)| == |BlockSteps(q)|
  {
    if p != [] {
      assert SameShapeStep(p[0], q[0]);
      SameBlockCount(p[1..], q[1..]);
    }
  }

  /** Plans of one shape are cut into the same index ranges, with the same offsets. */
  lemma SameSegments(p: Plan, q: Plan, w: nat)
    requires SameShape(p, q)
    ensures Waits(p) == Waits(q)
    ensures w < |Waits(p)| ==> SameShape(Segment(p, w), Segment(q, w)) && BlockOffset(p, w) == BlockOffset(q, w)
  {
    SameWaits(p, q);
    if w < |Waits(p)| {
      var from := Waits(p)[w] + 1;
      SameStop(p, q, w + 1);
      StopAfterStart(p, w);
      SameShapeSlice(p, q, from, Stop(p, w + 1));
      SameShapeSlice(p, q, 0, from);
      SameBlockCount(p[..from], q[..from]);
    }
  }

  lemma SamePreWait(p: Plan, q: Plan)
    requires SameShape(p, q)
    ensures SameShape(PreWait(p), PreWait(q))
  {
    SameStop(p, q, 0);
    SameShapeSlice(p, q, 0, Stop(p, 0));
  }

  lemma {:induction false} SameKeys(p: Plan, q: Plan, n: nat, tasks: seq<string>)
    requires SameShape(p, q)
    ensures Keys(p, n, tasks) == Keys(q, n, tasks)
  {
    if p != [] {
      assert SameShapeStep(p[0], q[0]);
      SameKeys(p[1..], q[1..], n + 1, TasksAfter(p[0], tasks));
    }
  }

  /** Plans of one shape name their blocks alike. */
  lemma SameIds(vendor: string, p: Plan, q: Plan, n: nat, tasks: seq<string>)
    requires SameShape(p, q)
    ensures Ids(ToBlocks(vendor, p, n, tasks)) == Ids(ToBlocks(vendor, q, n, tasks))
  {
    SameKeys(p, q, n, tasks);
    IdsAreKeyIds(vendor, p, n, tasks);
    IdsAreKeyIds(vendor, q, n, tasks);
  }

  lemma SameSegmentIds(vendor: string, p: Plan, q: Plan, w: nat)
    requires SameShape(p, q) && w < |Waits(p)|
    ensures Waits(p) == Waits(q)
    ensures Ids(ToBlocks(vendor, Segment(p, w), BlockOffset(p, w) + 1, []))
         == Ids(ToBlocks(vendor, Segment(q, w), BlockOffset(q, w) + 1, []))
  {
    SameSegments(p, q, w);
    SameIds(vendor, Segment(p, w), Segment(q, w), BlockOffset(p, w) + 1, []);
  }

  /** Whatever stage a release has reached, a plan of the same shape has sent the same ids. */
  lemma {:induction false} SameSentIds(vendor: string, p: Plan, q: Plan, loadSeq: seq<string>, k: nat)
    requires SameShape(p, q) && k <= |Waits(p)|
    ensures Waits(p) == Waits(q)
    ensures Ids(SentBlocks(vendor, p, loadSeq, k)) == Ids(SentBlocks(vendor, q, loadSeq, k))
  {
    SameWaits(p, q);
    if k == 0 {
      SamePreWait(p, q);
      SameIds(vendor, PreWait(p), PreWait(q), 1, loadSeq);
    } else {
      var w := k - 1;
      SameSentIds(vendor, p, q, loadSeq, w);
      SentIdsStep(vendor, p, loadSeq, w);
      SentIdsStep(vendor, q, loadSeq, w);
      SameSegmentIds(vendor, p, q, w);
    }
  }

  lemma SentIdsStep(vendor: string, p: Plan, loadSeq: seq<string>, w: nat)
    requires w < |Waits(p)|
    ensures Ids(SentBlocks(vendor, p, loadSeq, w + 1))
         == Ids(SentBlocks(vendor, p, loadSeq, w)) + Ids(ToBlocks(vendor, Segment(p, w), BlockOffset(p, w) + 1, []))
  {
    SentBlocksStep(vendor, p, loadSeq, w);
    IdsConcat(SentBlocks(vendor, p, loadSeq, w), ToBlocks(vendor, Segment(p, w), BlockOffset(p, w) + 1, []));
  }
}
