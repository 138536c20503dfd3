/** What is in the blocks the fleet holds, beyond their ids, when no plan rewrite intervenes. */
module ReleaseContents {
  import opened Plans
  import opened Blocks
  import opened PlanShape
  import opened Release

  /** The fleet's list after `k` segments, the last of them sent with redirect `delivery`. */
  function SentWith(vendor: string, p: Plan, loadSeq: seq<string>, k: nat, delivery: string): seq<Block>
    requires k <= |Waits(p)|
  {
    if k == 0 then SentBlocks(vendor, p, loadSeq, 0)
    else SentBlocks(vendor, p, loadSeq, k - 1) + SegmentBlocks(vendor, p, k - 1, delivery)
  }

  /** A redirect has no say before the last segment. */
  lemma RedirectWaitsForTheEnd(vendor: string, p: Plan, loadSeq: seq<string>, k: nat, delivery: string)
    requires k < |Waits(p)|
    ensures SentWith(vendor, p, loadSeq, k, delivery) == SentBlocks(vendor, p, loadSeq, k)
  {
    if k > 0 {
      var w := k - 1;
      SentBlocksStep(vendor, p, loadSeq, w);
    }
  }

  ghost predicate Holds(vendor: string, p: Plan, loadSeq: seq<string>, s: World) {
    && s.plan == p && s.landed <= |Waits(p)|
    && (forall r | r in s.pcs && s.pcs[r].Loaded? :: s.pcs[r].plan == p)
    && exists delivery :: s.blocks == SentWith(vendor, p, loadSeq, s.landed, delivery)
  }

  /** One append, given the line of ids it fits into. */
  lemma AppendKeepsContents(
    vendor: string, p: Plan, loadSeq: seq<string>, l: Line, s: World, r: nat, w: nat, bs: seq<Block>,
    complete: bool, link: Link, was: string, delivery: string)
    requires WellNamed(l) && w < |l.segs| == |Waits(p)| && Ids(bs) == l.segs[w]
    requires w <= s.landed <= |l.segs| && Ids(s.blocks) == Held(l, s.landed)
    requires bs == SegmentBlocks(vendor, p, w, delivery) && s.blocks == SentWith(vendor, p, loadSeq, s.landed, was)
    ensures
      var t := Append(s, r, w, bs, complete, link);
      var d := if w == s.landed && !link.NotReached? then delivery else was;
      t.landed <= |Waits(p)| && t.blocks == SentWith(vendor, p, loadSeq, t.landed, d)
  {
    hide SegmentBlocks, Waits, SentBlocks, Held, WellNamed, Accepted;
    AppendEffect(l, s, r, w, bs, complete, link);
    if w == s.landed {
      RedirectWaitsForTheEnd(vendor, p, loadSeq, w, was);
    }
  }

  lemma LineFacts(vendor: string, p: Plan, loadSeq: seq<string>, w: nat, delivery: string)
    requires w < |Waits(p)|
    ensures
      var l := LineOf(vendor, p, loadSeq);
      WellNamed(l) && |l.segs| == |Waits(p)| && Ids(SegmentBlocks(vendor, p, w, delivery)) == l.segs[w]
  {
    LineIsWellNamed(vendor, p, loadSeq);
    SameShapeSelf(p);
    hide SegmentBlocks, WellNamed;
    AttemptedIds(vendor, p, p, w, delivery);
  }

  lemma ActKeepsContents(
    vendor: string, p: Plan, loadSeq: seq<string>, s: World, r: nat, delivery: string, link: Link)
    requires Inv(p, LineOf(vendor, p, loadSeq), s) && Holds(vendor, p, loadSeq, s)
    requires r in s.pcs && s.pcs[r].Loaded?
    ensures Holds(vendor, p, loadSeq, Act(vendor, s, r, s.pcs[r], delivery, link))
  {
    hide SegmentBlocks, LineOf, Waits, SentWith, Held, WellNamed, SameShape;
    var l, w := LineOf(vendor, p, loadSeq), s.pcs[r].wait;
    var was :| s.blocks == SentWith(vendor, p, loadSeq, s.landed, was);
    var t := Act(vendor, s, r, s.pcs[r], delivery, link);
    if w < |Waits(p)| {
      LineFacts(vendor, p, loadSeq, w, delivery);
      assert PcOk(p, s.landed, s.pcs[r]);
      var bs := SegmentBlocks(vendor, p, w, delivery);
      AppendKeepsContents(vendor, p, loadSeq, l, s, r, w, bs, w + 1 == |Waits(p)|, link, was, delivery);
    } else {
      assert t.blocks == SentWith(vendor, p, loadSeq, t.landed, was);
    }
  }

  lemma SameShapeSelf(p: Plan)
    ensures SameShape(p, p)
  {
  }

  lemma NextKeepsContents(vendor: string, p: Plan, loadSeq: seq<string>, s: World, e: Event)
    requires Inv(p, LineOf(vendor, p, loadSeq), s) && Holds(vendor, p, loadSeq, s) && !e.Rewrite?
    ensures Holds(vendor, p, loadSeq, Next(vendor, s, e))
  {
    hide SegmentBlocks, LineOf, Waits, SentWith, Act, Inv;
    var was :| s.blocks == SentWith(vendor, p, loadSeq, s.landed, was);
    match e
    case Attempt(r, delivery, link) =>
      if r in s.pcs && s.pcs[r].Loaded? {
        ActKeepsContents(vendor, p, loadSeq, s, r, delivery, link);
      }
    case Load(r) =>
      assert Next(vendor, s, e).blocks == SentWith(vendor, p, loadSeq, s.landed, was);
    case Advance(r, _) =>
      assert Next(vendor, s, e).blocks == SentWith(vendor, p, loadSeq, s.landed, was);
  }

  /** The steps behind that list. */
  function StepsWith(p: Plan, k: nat, delivery: string): Plan
    requires k <= |Waits(p)|
  {
    if k == 0 then PreWait(p) else Released(p, k - 1) + Redirected(Segment(p, k - 1), delivery, k < |Waits(p)|)
  }

  /** They are the plan's, but for the node of the last dropoff of the last segment. */
  lemma StepsWithAre(p: Plan, k: nat, delivery: string, i: nat)
    requires k <= |Waits(p)| && i < |Released(p, k)|
    ensures |StepsWith(p, k, delivery)| == |Released(p, k)|
    ensures
      var s, t := Released(p, k)[i], StepsWith(p, k, delivery)[i];
      || t == s
      || (&& k == |Waits(p)| && delivery != "" && s.action == Dropoff && t == s.(node := delivery)
          && forall j | i < j < |Released(p, k)| :: Released(p, k)[j].action != Dropoff)
  {
    if k > 0 {
      var w := k - 1;
      ReleasedStep(p, w);
      hide Released, Segment, Waits;
      RedirectedStep(Released(p, w), Segment(p, w), delivery, k < |Waits(p)|, i);
    }
  }

  lemma RedirectedStep(front: Plan, segment: Plan, delivery: string, moreWaits: bool, i: nat)
    requires i < |front + segment|
    ensures |Redirected(segment, delivery, moreWaits)| == |segment|
    ensures
      var all := front + segment;
      var s, t := all[i], (front + Redirected(segment, delivery, moreWaits))[i];
      || t == s
      || (&& !moreWaits && delivery != "" && s.action == Dropoff && t == s.(node := delivery)
          && forall j | i < j < |all| :: all[j].action != Dropoff)
  {
    var last := LastDropoff(segment);
    hide LastDropoff;
    if i == |front| + last {
      forall j | i < j < |front + segment|
        ensures (front + segment)[j].action != Dropoff
      {
        assert (front + segment)[j] == segment[j - |front|];
      }
    }
  }

  /** Whatever is sent behind the first segments is numbered on from them. */
  lemma NumberedOn(vendor: string, p: Plan, loadSeq: seq<string>, w: nat, more: Plan)
    requires w < |Waits(p)|
    ensures ToBlocks(vendor, Released(p, w) + more, 1, EffectiveTasks(p, loadSeq))
         == SentBlocks(vendor, p, loadSeq, w) + ToBlocks(vendor, more, BlockOffset(p, w) + 1, [])
  {
    hide Released, Waits, BlockOffset, ToBlocks, SentBlocks, HasPickup, EffectiveTasks;
    SentIsNumberedPrefix(vendor, p, loadSeq, w);
    OffsetCountsReleased(p, w);
    LoadedByThen(p, loadSeq, w);
    ToBlocksConcat(vendor, Released(p, w), more, 1, EffectiveTasks(p, loadSeq));
  }

  /** A load sequence that takes effect has done so in the create. */
  lemma LoadedByThen(p: Plan, loadSeq: seq<string>, w: nat)
    requires w < |Waits(p)|
    ensures HasPickup(Released(p, w)) || EffectiveTasks(p, loadSeq) == []
  {
    if HasPickup(PreWait(p)) {
      PickupIsReleased(p, w);
    }
  }

  lemma SentWithIs(vendor: string, p: Plan, loadSeq: seq<string>, k: nat, delivery: string)
    requires k <= |Waits(p)|
    ensures SentWith(vendor, p, loadSeq, k, delivery)
         == ToBlocks(vendor, StepsWith(p, k, delivery), 1, EffectiveTasks(p, loadSeq))
  {
    hide ToBlocks, Waits, Segment, SentBlocks, EffectiveTasks, PreWait, Redirected, BlockOffset;
    if k == 0 {
      SentIsNumberedPrefix(vendor, p, loadSeq, 0);
    } else {
      var w := k - 1;
      NumberedOn(vendor, p, loadSeq, w, Redirected(Segment(p, w), delivery, k < |Waits(p)|));
    }
  }

  lemma SentWithAre(vendor: string, p: Plan, loadSeq: seq<string>, k: nat, delivery: string)
    requires k <= |Waits(p)|
    ensures BlocksAre(
      vendor, StepsWith(p, k, delivery), 1, EffectiveTasks(p, loadSeq), SentWith(vendor, p, loadSeq, k, delivery))
  {
    hide *;
    SentWithIs(vendor, p, loadSeq, k, delivery);
    ToBlocksAre(vendor, StepsWith(p, k, delivery), 1, EffectiveTasks(p, loadSeq));
  }

  /** Over every run without plan rewrites the fleet holds, block for block with location and task, the plan's
      blocks up to a segment boundary; only the last segment may carry a redirect. */
  lemma EveryRunSendsThePlan(
    vendor: string, p: Plan, loadSeq: seq<string>, marked: bool, es: seq<Event>)
    requires forall e | e in es :: !e.Rewrite?
    ensures Holds(vendor, p, loadSeq, Run(vendor, Created(vendor, p, loadSeq, marked), es))
    ensures
      var s := Run(vendor, Created(vendor, p, loadSeq, marked), es);
      exists delivery ::
        BlocksAre(vendor, StepsWith(p, s.landed, delivery), 1, EffectiveTasks(p, loadSeq), s.blocks)
  {
    var s := Created(vendor, p, loadSeq, marked);
    RunHolds(vendor, p, loadSeq, marked, es);
    var t := Run(vendor, s, es);
    var delivery :| t.blocks == SentWith(vendor, p, loadSeq, t.landed, delivery);
    SentWithAre(vendor, p, loadSeq, t.landed, delivery);
  }

  lemma {:induction false} RunHolds(vendor: string, p: Plan, loadSeq: seq<string>, marked: bool, es: seq<Event>)
    requires forall e | e in es :: !e.Rewrite?
    ensures Holds(vendor, p, loadSeq, Run(vendor, Created(vendor, p, loadSeq, marked), es))
  {
    var s := Created(vendor, p, loadSeq, marked);
    if es == [] {
      assert s.blocks == SentWith(vendor, p, loadSeq, 0, "");
    } else {
      hide Holds, Inv, Created, LineOf, Next;
      var n := |es| - 1;
      assert es[n] in es;
      RunHolds(vendor, p, loadSeq, marked, es[..n]);
      RunKeepsInv(vendor, p, loadSeq, marked, es[..n]);
      NextKeepsContents(vendor, p, loadSeq, Run(vendor, s, es[..n]), es[n]);
    }
  }
}
