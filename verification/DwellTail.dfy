/** A plan that ends at its wait. A dig leg is sent out without a destination and dwells; when Core has chosen one,
    the dropoff is appended to the stored plan and the last segment is released. Releasers may still hold the
    plan as it was before. */
module DwellTail {
  import opened Plans
  import opened Blocks
  import opened PlanShape
  import opened Release

  /** Wait `w` is a lane wait with nothing actionable behind it: what it gates is an append. */
  predicate GatesAppend(p: Plan, w: nat) {
    && w < |Waits(p)| && IsLaneWait(p[Waits(p)[w]])
    && forall j | Waits(p)[w] < j < |p| :: p[j].action.Wait?
  }

  /** waitGatesAnAppend, with the search for the step behind the wait. */
  method WaitGatesAnAppend(steps: Plan, waitIndex: nat) returns (dwells: bool)
    ensures dwells <==> GatesAppend(steps, waitIndex)
  {
    var w, ok := WaitAt(steps, waitIndex);
    if !ok || !w.waitKind.Lane? {
      return false;
    }
    WaitsAreWaits(steps, waitIndex);
    var start, _ := SegmentStart(steps, waitIndex);
    for i := start to |steps|
      invariant forall j | start <= j < i :: steps[j].action.Wait?
    {
      if steps[i].action.Pickup? || steps[i].action.Dropoff? {
        return false;
      }
    }
    return true;
  }

  /** The plan still lacks its tail: it ends with waits, one of them a lane wait. */
  ghost predicate Open(p: Plan) {
    exists i | 0 <= i < |p| :: IsLaneWait(p[i]) && forall j | i < j < |p| :: p[j].action.Wait?
  }

  /** A dropoff as bindDwellTail appends it. */
  function DropoffAt(node: string): Step {
    Step(Dropoff, node, "", false, false, Untagged, 0)
  }

  /** A plan rewrite, which leaves lane waits lane waits. */
  ghost predicate Alike(p: Plan, q: Plan) {
    SameShape(p, q) && SameLaneWaits(p, q)
  }

  // ---------------------------------------------------------------- runs

  /** The events of the release protocol, and the binding of a destination to a plan parked at such a wait. */
  datatype Event =
    | Proto(e: Release.Event)
    | Bind(node: string)

  ghost function Next(vendor: string, s: World, e: Event): World {
    match e
    case Proto(Rewrite(to)) => if Alike(s.plan, to) then s.(plan := to) else s
    case Proto(e) => Release.Next(vendor, s, e)
    case Bind(node) => if GatesAppend(s.plan, s.waitIndex) then s.(plan := s.plan + [DropoffAt(node)]) else s
  }

  ghost function Run(vendor: string, s: World, es: seq<Event>): World {
    if es == [] then s else Next(vendor, Run(vendor, s, es[..|es| - 1]), es[|es| - 1])
  }

  /** The ids of all the blocks of a plan. */
  ghost function Whole(vendor: string, p: Plan, loadSeq: seq<string>): seq<string> {
    Ids(ToBlocks(vendor, BlockSteps(p), 1, EffectiveTasks(p, loadSeq)))
  }

  /** The plan has its tail and the fleet has the plan. */
  ghost predicate AllIn(vendor: string, loadSeq: seq<string>, s: World) {
    !Open(s.plan) && Ids(s.blocks) == Whole(vendor, s.plan, loadSeq)
  }

  ghost predicate SealedWhole(vendor: string, loadSeq: seq<string>, s: World) {
    s.sealSent ==> AllIn(vendor, loadSeq, s)
  }

  /** A releaser that read the plan before it had its tail sends the last segment, which is empty, with
      complete=true, while the tail is not at the fleet. The guard a releaser has is `Open` of what it read. */
  ghost predicate HollowSend(vendor: string, loadSeq: seq<string>, s: World, e: Event) {
    && e.Proto? && e.e.Attempt? && e.e.r in s.pcs && s.pcs[e.e.r].Loaded?
    && Open(s.pcs[e.e.r].plan) && s.pcs[e.e.r].wait + 1 == |Waits(s.pcs[e.e.r].plan)|
    && !e.e.link.NotReached? && !AllIn(vendor, loadSeq, s)
  }

  /** The binding appends a plain dropoff at the chosen node, and nothing but the plan changes; a rewrite puts the
      plan alike in its place. */
  lemma PlanEvents(vendor: string, s: World, node: string, to: Plan)
    ensures
      var t := Next(vendor, s, Bind(node));
      && t == s.(plan := t.plan)
      && t.plan == if GatesAppend(s.plan, s.waitIndex)
                   then s.plan + [Step(Dropoff, node, "", false, false, Untagged, 0)] else s.plan
    ensures
      var t := Next(vendor, s, Proto(Rewrite(to)));
      t == s.(plan := t.plan) && t.plan == if Alike(s.plan, to) then to else s.plan
  {
  }

  // ---------------------------------------------------------------- the plan and its tail

  lemma OpenEndsAtWait(p: Plan)
    requires Open(p)
    ensures p != [] && p[|p| - 1].action.Wait? && Waits(p) != [] && Waits(p)[|Waits(p)| - 1] == |p| - 1
  {
  }

  lemma AlikeOpen(p: Plan, q: Plan)
    requires Alike(p, q)
    ensures Open(p) <==> Open(q)
  {
    forall i | 0 <= i < |p|
      ensures p[i].action == q[i].action && (IsLaneWait(p[i]) <==> IsLaneWait(q[i]))
    {
      assert SameShapeStep(p[i], q[i]);
    }
  }

  lemma AlikeTransitive(p: Plan, q: Plan, r: Plan)
    requires Alike(p, q) && Alike(q, r)
    ensures Alike(p, r)
  {
    SameShapeTransitive(p, q, r);
  }

  lemma GatedIsOpen(p: Plan, w: nat)
    requires GatesAppend(p, w)
    ensures Open(p)
  {
  }

  const TAIL := DropoffAt("")

  /** The plan with its tail, up to names. */
  ghost function Grown(p: Plan): Plan {
    if Open(p) then p + [TAIL] else p
  }

  lemma GrownIsNotOpen(p: Plan)
    ensures !Open(Grown(p))
  {
    if Open(p) {
      assert Grown(p)[|p|] == TAIL;
    }
  }

  /** Binding makes a plan without its tail into one with it. */
  lemma BoundIsGrown(p: Plan, q: Plan, node: string)
    requires Alike(p, q) && Open(p)
    ensures Alike(Grown(p), q + [DropoffAt(node)])
  {
    var a, b := Grown(p), q + [DropoffAt(node)];
    forall i | 0 <= i < |a|
      ensures SameShapeStep(a[i], b[i])
    {
      if i < |p| {
        assert SameShapeStep(p[i], q[i]);
      }
    }
  }

  lemma WaitsWithTail(p: Plan, t: Step)
    requires !t.action.Wait?
    ensures Waits(p + [t]) == Waits(p)
  {
    assert (p + [t])[..|p|] == p;
  }

  lemma StopWithTail(p: Plan, t: Step, w: nat)
    requires Waits(p + [t]) == Waits(p) && w < |Waits(p)|
    ensures Stop(p + [t], w) == Stop(p, w)
  {
    hide Waits;
    assert (p + [t])[Waits(p)[w]] == p[Waits(p)[w]];
  }

  lemma SegmentWithTail(p: Plan, t: Step, w: nat)
    requires Waits(p + [t]) == Waits(p) && w + 1 < |Waits(p)|
    ensures Segment(p + [t], w) == Segment(p, w)
  {
    hide Waits, Stop;
    StopWithTail(p, t, w + 1);
    StopAfterStart(p, w);
    SliceWithTail(p, t, Waits(p)[w] + 1, Stop(p, w + 1));
  }

  lemma SliceWithTail(p: Plan, t: Step, i: nat, j: nat)
    requires i <= j <= |p|
    ensures (p + [t])[i..j] == p[i..j]
  {
  }

  lemma OffsetWithTail(p: Plan, t: Step, w: nat)
    requires Waits(p + [t]) == Waits(p) && w < |Waits(p)|
    ensures BlockOffset(p + [t], w) == BlockOffset(p, w)
  {
    hide Waits, BlockSteps;
    assert (p + [t])[..Waits(p)[w] + 1] == p[..Waits(p)[w] + 1];
  }

  /** The tail changes no cut but the last. */
  lemma CutsWithTail(p: Plan, t: Step, w: nat)
    requires !t.action.Wait? && w < |Waits(p)|
    ensures Waits(p + [t]) == Waits(p) && PreWait(p + [t]) == PreWait(p)
    ensures BlockOffset(p + [t], w) == BlockOffset(p, w)
    ensures w + 1 < |Waits(p)| ==> Segment(p + [t], w) == Segment(p, w)
  {
    WaitsWithTail(p, t);
    hide Waits, Stop, BlockOffset, Segment;
    StopWithTail(p, t, 0);
    OffsetWithTail(p, t, w);
    if w + 1 < |Waits(p)| {
      SegmentWithTail(p, t, w);
    }
  }

  lemma SegmentIdsWithTail(vendor: string, p: Plan, t: Step, w: nat)
    requires !t.action.Wait? && w < |Waits(p)|
    ensures Waits(p + [t]) == Waits(p)
    ensures w + 1 < |Waits(p)| ==> SegmentIds(vendor, p + [t], w) == SegmentIds(vendor, p, w)
  {
    CutsWithTail(p, t, w);
  }

  lemma LastSegmentIsEmpty(vendor: string, p: Plan)
    requires Open(p)
    ensures Waits(p) != [] && Segment(p, |Waits(p)| - 1) == [] && SegmentIds(vendor, p, |Waits(p)| - 1) == []
  {
    OpenEndsAtWait(p);
    EmptySegment(p, |Waits(p)| - 1);
    SegmentIdsEmpty(vendor, p, |Waits(p)| - 1);
  }

  /** Two lines of ids that agree but for the last segment, which the first may lack. */
  ghost predicate Twins(a: Line, b: Line) {
    && |a.segs| == |b.segs| && a.pre == b.pre
    && (forall w | 0 <= w < |a.segs| - 1 :: a.segs[w] == b.segs[w])
    && (|a.segs| > 0 ==> a.segs[|a.segs| - 1] == [] || a.segs[|a.segs| - 1] == b.segs[|a.segs| - 1])
  }

  lemma LinesWithTail(vendor: string, p: Plan, t: Step, loadSeq: seq<string>, a: Line, b: Line, w: nat)
    requires !t.action.Wait? && w < |Waits(p)|
    requires a == LineOf(vendor, p, loadSeq) && b == LineOf(vendor, p + [t], loadSeq)
    ensures |a.segs| == |b.segs| == |Waits(p)| == |Waits(p + [t])| && a.pre == b.pre
    ensures w + 1 < |a.segs| ==> a.segs[w] == b.segs[w]
  {
    CutsWithTail(p, t, w);
    SegmentIdsWithTail(vendor, p, t, w);
    hide Waits, SegmentIds, PreWait;
  }

  lemma TwinsByTail(vendor: string, p: Plan, t: Step, loadSeq: seq<string>, a: Line, b: Line)
    requires !t.action.Wait? && Waits(p) != [] && SegmentIds(vendor, p, |Waits(p)| - 1) == []
    requires a == LineOf(vendor, p, loadSeq) && b == LineOf(vendor, p + [t], loadSeq)
    ensures Twins(a, b) && |Waits(p)| == |Waits(p + [t])|
  {
    hide Waits, SegmentIds, PreWait, LineOf;
    LinesWithTail(vendor, p, t, loadSeq, a, b, 0);
    forall w | 0 <= w < |a.segs| - 1
      ensures a.segs[w] == b.segs[w]
    {
      LinesWithTail(vendor, p, t, loadSeq, a, b, w);
    }
  }

  lemma LinesAreTwins(vendor: string, p: Plan, loadSeq: seq<string>)
    ensures Twins(LineOf(vendor, p, loadSeq), LineOf(vendor, Grown(p), loadSeq))
    ensures |Waits(p)| == |Waits(Grown(p))|
  {
    if Open(p) {
      LastSegmentIsEmpty(vendor, p);
      hide Open, Waits, SegmentIds, LineOf, Segment, Twins;
      TwinsByTail(vendor, p, TAIL, loadSeq, LineOf(vendor, p, loadSeq), LineOf(vendor, Grown(p), loadSeq));
    }
  }

  lemma {:induction false} TwinsHold(a: Line, b: Line, k: nat)
    requires Twins(a, b) && k <= |a.segs|
    ensures k < |a.segs| ==> Held(a, k) == Held(b, k)
    ensures Held(a, k) <= Held(b, k)
    ensures k > 0 && a.segs[k - 1] == [] ==> Held(a, k) == Held(a, k - 1)
  {
    if k > 0 {
      TwinsHold(a, b, k - 1);
    }
  }

  // ---------------------------------------------------------------- one append

  /** The fleet holds the plan without its tail up to `landed`, or all of the plan with it. */
  ghost predicate Without(a: Line, s: World) {
    s.landed <= |a.segs| && Ids(s.blocks) == Held(a, s.landed)
  }

  ghost predicate With(b: Line, s: World) {
    s.landed == |b.segs| && Ids(s.blocks) == Held(b, |b.segs|)
  }

  lemma EmptySend(s: World, r: nat, w: nat, complete: bool, link: Link)
    ensures Append(s, r, w, [], complete, link).blocks == s.blocks
    ensures Accepted(s.blocks, [], link) <==> !link.NotReached?
  {
    assert s.blocks + [] == s.blocks;
  }

  lemma SendOnWhole(a: Line, b: Line, s: World, r: nat, w: nat, bs: seq<Block>, complete: bool, link: Link)
    requires Twins(a, b) && WellNamed(b) && w < |b.segs| && With(b, s)
    requires Ids(bs) == a.segs[w] || Ids(bs) == b.segs[w]
    ensures With(b, Append(s, r, w, bs, complete, link))
  {
    if Ids(bs) == b.segs[w] {
      AppendEffect(b, s, r, w, bs, complete, link);
    } else {
      assert bs == [];
      EmptySend(s, r, w, complete, link);
    }
  }

  lemma SendWithoutTail(a: Line, s: World, r: nat, w: nat, bs: seq<Block>, complete: bool, link: Link)
    requires WellNamed(a) && w < |a.segs| && Ids(bs) == a.segs[w] && Without(a, s) && w <= s.landed
    ensures
      var t := Append(s, r, w, bs, complete, link);
      Without(a, t) && t.landed == if w == s.landed && !link.NotReached? then w + 1 else s.landed
  {
    AppendEffect(a, s, r, w, bs, complete, link);
  }

  /** The tail itself: whether or not an empty last segment went out before it, it lands. */
  lemma SendTail(a: Line, b: Line, s: World, r: nat, bs: seq<Block>, complete: bool, link: Link)
    requires Twins(a, b) && WellNamed(b) && |b.segs| > 0 && a.segs[|b.segs| - 1] == []
    requires Ids(bs) == b.segs[|b.segs| - 1] && Without(a, s) && s.landed >= |b.segs| - 1
    ensures
      var t := Append(s, r, |b.segs| - 1, bs, complete, link);
      if link.NotReached? then t.blocks == s.blocks && t.landed == s.landed else With(b, t)
    ensures Accepted(s.blocks, bs, link) <==> !link.NotReached?
  {
    var w := |b.segs| - 1;
    TwinsHold(a, b, w);
    TwinsHold(a, b, w + 1);
    NextSegmentIsFresh(b, w, s.blocks, bs);
  }

  /** One append of wait `w`, from a plan that has its tail (`grown`) or lacks it. */
  lemma Send(
    a: Line, b: Line, s: World, r: nat, w: nat, bs: seq<Block>, complete: bool, link: Link, grown: bool)
    requires Twins(a, b) && WellNamed(a) && WellNamed(b) && w < |a.segs| && w <= s.landed
    requires Ids(bs) == if grown then b.segs[w] else a.segs[w]
    requires Without(a, s) || With(b, s)
    ensures
      var t := Append(s, r, w, bs, complete, link);
      && t.landed == (if w == s.landed && !link.NotReached? then w + 1 else s.landed)
      && (With(b, s) ==> With(b, t))
      && (Without(a, t) || With(b, t))
      && (Without(a, s) && !grown ==> Without(a, t))
      && (grown && !link.NotReached? && w + 1 == |a.segs| ==> With(b, t))
  {
    var last := |a.segs| - 1;
    hide WellNamed, Accepted;
    if With(b, s) {
      SendOnWhole(a, b, s, r, w, bs, complete, link);
    }
    if Without(a, s) {
      if grown && w == last && a.segs[w] == [] {
        SendTail(a, b, s, r, bs, complete, link);
      } else {
        SendWithoutTail(a, s, r, w, bs, complete, link);
        TwinsHold(a, b, last);
        HeldStep(a, last);
        HeldStep(b, last);
      }
    }
  }

  // ---------------------------------------------------------------- every run

  ghost predicate PcFits(p: Plan, s: World, pc: Pc) {
    match pc
    case Loaded(w, q) =>
      w <= s.landed && (Alike(p, q) || Alike(Grown(p), q)) && (Alike(Grown(p), q) ==> Alike(Grown(p), s.plan))
    case Landed(w) => w < s.landed
  }

  ghost predicate Fits(p: Plan, a: Line, b: Line, s: World) {
    && (Alike(p, s.plan) || Alike(Grown(p), s.plan))
    && (Without(a, s) || (With(b, s) && Alike(Grown(p), s.plan)))
    && s.waitIndex <= s.landed
    && (forall r | r in s.pcs :: PcFits(p, s, s.pcs[r]))
    && (s.sealSent ==> s.landed == |a.segs|)
  }

  /** All segments have landed only with the tail among them. */
  ghost predicate Clean(b: Line, s: World) {
    s.landed == |b.segs| ==> With(b, s)
  }

  /** The ids a releaser sends, by the plan it holds. */
  lemma SentIdsFit(vendor: string, p: Plan, a: Line, b: Line, loadSeq: seq<string>, q: Plan, w: nat, delivery: string)
    requires a == LineOf(vendor, p, loadSeq) && b == LineOf(vendor, Grown(p), loadSeq)
    requires Alike(p, q) || Alike(Grown(p), q)
    ensures Twins(a, b) && WellNamed(a) && WellNamed(b) && |Waits(q)| == |a.segs|
    ensures w < |Waits(q)| ==>
      Ids(SegmentBlocks(vendor, q, w, delivery)) == if Alike(Grown(p), q) then b.segs[w] else a.segs[w]
  {
    hide SegmentBlocks, Waits, WellNamed, Grown, SameShape, SameLaneWaits, Twins, LineOf, SegmentIds, Held;
    LinesAreTwins(vendor, p, loadSeq);
    LineIsWellNamed(vendor, p, loadSeq);
    LineIsWellNamed(vendor, Grown(p), loadSeq);
    var base := if Alike(Grown(p), q) then Grown(p) else p;
    SameWaits(base, q);
    if w < |Waits(q)| {
      AttemptedIds(vendor, base, q, w, delivery);
    }
  }

  lemma AppendFits(
    p: Plan, a: Line, b: Line, s: World, r: nat, w: nat, bs: seq<Block>, complete: bool, link: Link, grown: bool)
    requires Twins(a, b) && WellNamed(a) && WellNamed(b) && w < |a.segs| && w <= s.landed
    requires Ids(bs) == (if grown then b.segs[w] else a.segs[w]) && (complete <==> w + 1 == |a.segs|)
    requires Fits(p, a, b, s) && (grown ==> Alike(Grown(p), s.plan))
    ensures
      var t := Append(s, r, w, bs, complete, link);
      && Fits(p, a, b, t)
      && (Clean(b, s) && (grown || !complete || link.NotReached?) ==> Clean(b, t))
  {
    var t := Append(s, r, w, bs, complete, link);
    assert |a.segs| == |b.segs|;
    Send(a, b, s, r, w, bs, complete, link, grown);
    hide Alike, Grown, Twins, WellNamed, Clash, Held;
    forall x | x in t.pcs
      ensures PcFits(p, t, t.pcs[x])
    {
      if x in s.pcs {
        assert PcFits(p, s, s.pcs[x]);
      }
    }
  }

  lemma ActFits(
    vendor: string, p: Plan, a: Line, b: Line, loadSeq: seq<string>, s: World, r: nat, delivery: string, link: Link)
    requires a == LineOf(vendor, p, loadSeq) && b == LineOf(vendor, Grown(p), loadSeq)
    requires Fits(p, a, b, s) && r in s.pcs && s.pcs[r].Loaded?
    ensures
      var t, q, w := Act(vendor, s, r, s.pcs[r], delivery, link), s.pcs[r].plan, s.pcs[r].wait;
      && Fits(p, a, b, t)
      && (Clean(b, s) && (Alike(Grown(p), q) || w + 1 != |Waits(q)| || link.NotReached?) ==> Clean(b, t))
  {
    var q, w := s.pcs[r].plan, s.pcs[r].wait;
    assert PcFits(p, s, s.pcs[r]);
    SentIdsFit(vendor, p, a, b, loadSeq, q, w, delivery);
    if w < |Waits(q)| {
      hide SegmentBlocks, Waits, LineOf, Alike, Grown, Twins, WellNamed, Append, Fits, Clean;
      var bs := SegmentBlocks(vendor, q, w, delivery);
      AppendFits(p, a, b, s, r, w, bs, w + 1 == |Waits(q)|, link, Alike(Grown(p), q));
    } else {
      hide Waits, LineOf, Alike, Grown, Twins, WellNamed, Append;
      GoneFits(p, a, b, s, r);
    }
  }

  /** A releaser that gives up changes nothing for the others. */
  lemma GoneFits(p: Plan, a: Line, b: Line, s: World, r: nat)
    requires Fits(p, a, b, s)
    ensures Fits(p, a, b, s.(pcs := s.pcs - {r})) && (Clean(b, s) ==> Clean(b, s.(pcs := s.pcs - {r})))
  {
    hide Alike, Grown, Held;
    var t := s.(pcs := s.pcs - {r});
    forall x | x in t.pcs
      ensures PcFits(p, t, t.pcs[x])
    {
      assert PcFits(p, s, s.pcs[x]);
    }
  }

  /** Every other event leaves the fleet alone. */
  lemma QuietFits(vendor: string, p: Plan, a: Line, b: Line, s: World, e: Event)
    requires Fits(p, a, b, s) && e.Proto? && !e.e.Attempt? && !e.e.Rewrite?
    ensures Fits(p, a, b, Next(vendor, s, e)) && (Clean(b, s) ==> Clean(b, Next(vendor, s, e)))
  {
    hide Alike, Grown, Held;
    var t := Next(vendor, s, e);
    if e.e.r in s.pcs {
      assert PcFits(p, s, s.pcs[e.e.r]);
    }
    forall x | x in t.pcs
      ensures PcFits(p, t, t.pcs[x])
    {
      if x in s.pcs {
        assert PcFits(p, s, s.pcs[x]);
      }
    }
  }

  /** So does a new plan, as long as it is not one without its tail in place of one with it. */
  lemma NewPlanFits(p: Plan, a: Line, b: Line, s: World, to: Plan)
    requires Fits(p, a, b, s) && (Alike(p, to) || Alike(Grown(p), to))
    requires Alike(Grown(p), s.plan) ==> Alike(Grown(p), to)
    ensures Fits(p, a, b, s.(plan := to)) && (Clean(b, s) ==> Clean(b, s.(plan := to)))
  {
    hide Alike, Grown, Held;
    var t := s.(plan := to);
    forall x | x in t.pcs
      ensures PcFits(p, t, t.pcs[x])
    {
      assert PcFits(p, s, s.pcs[x]);
    }
  }

  lemma RewriteFits(p: Plan, a: Line, b: Line, s: World, to: Plan)
    requires Fits(p, a, b, s) && Alike(s.plan, to)
    ensures Fits(p, a, b, s.(plan := to)) && (Clean(b, s) ==> Clean(b, s.(plan := to)))
  {
    hide Held, Grown;
    if Alike(p, s.plan) {
      AlikeTransitive(p, s.plan, to);
    }
    if Alike(Grown(p), s.plan) {
      AlikeTransitive(Grown(p), s.plan, to);
    }
    NewPlanFits(p, a, b, s, to);
  }

  lemma BindFits(p: Plan, a: Line, b: Line, s: World, node: string)
    requires Fits(p, a, b, s) && GatesAppend(s.plan, s.waitIndex)
    ensures
      var t := s.(plan := s.plan + [DropoffAt(node)]);
      Fits(p, a, b, t) && (Clean(b, s) ==> Clean(b, t))
  {
    GatedIsOpen(s.plan, s.waitIndex);
    GrownIsNotOpen(p);
    hide Held, Grown, Open, GatesAppend;
    if Alike(Grown(p), s.plan) {
      AlikeOpen(Grown(p), s.plan);
      assert false;
    }
    AlikeOpen(p, s.plan);
    BoundIsGrown(p, s.plan, node);
    NewPlanFits(p, a, b, s, s.plan + [DropoffAt(node)]);
  }

  lemma NextFits(vendor: string, p: Plan, a: Line, b: Line, loadSeq: seq<string>, s: World, e: Event)
    requires a == LineOf(vendor, p, loadSeq) && b == LineOf(vendor, Grown(p), loadSeq) && Fits(p, a, b, s)
    ensures Fits(p, a, b, Next(vendor, s, e))
    ensures !e.Proto? || !e.e.Attempt? ==> Clean(b, s) ==> Clean(b, Next(vendor, s, e))
  {
    hide Fits, Clean, Alike, Grown, Act, LineOf, GatesAppend;
    match e
    case Bind(node) =>
      if GatesAppend(s.plan, s.waitIndex) {
        BindFits(p, a, b, s, node);
      }
    case Proto(Rewrite(to)) =>
      if Alike(s.plan, to) {
        RewriteFits(p, a, b, s, to);
      }
    case Proto(Attempt(r, delivery, link)) =>
      if r in s.pcs && s.pcs[r].Loaded? {
        ActFits(vendor, p, a, b, loadSeq, s, r, delivery, link);
      }
    case Proto(_) => QuietFits(vendor, p, a, b, s, e);
  }

  lemma CreatedFits(vendor: string, p: Plan, loadSeq: seq<string>, marked: bool)
    ensures
      var a, b, s := LineOf(vendor, p, loadSeq), LineOf(vendor, Grown(p), loadSeq), Created(vendor, p, loadSeq, marked);
      Fits(p, a, b, s) && Clean(b, s)
  {
    LinesAreTwins(vendor, p, loadSeq);
    hide Grown;
    assert Alike(p, p);
    var a, b := LineOf(vendor, p, loadSeq), LineOf(vendor, Grown(p), loadSeq);
    TwinsHold(a, b, 0);
  }

  lemma {:induction false} RunFits(vendor: string, p: Plan, loadSeq: seq<string>, marked: bool, es: seq<Event>)
    ensures
      Fits(p, LineOf(vendor, p, loadSeq), LineOf(vendor, Grown(p), loadSeq),
        Run(vendor, Created(vendor, p, loadSeq, marked), es))
  {
    var a, b, s := LineOf(vendor, p, loadSeq), LineOf(vendor, Grown(p), loadSeq), Created(vendor, p, loadSeq, marked);
    hide Fits, LineOf, Grown, Next, Created;
    if es == [] {
      CreatedFits(vendor, p, loadSeq, marked);
    } else {
      var n := |es| - 1;
      RunFits(vendor, p, loadSeq, marked, es[..n]);
      NextFits(vendor, p, a, b, loadSeq, Run(vendor, s, es[..n]), es[n]);
    }
  }

  /** Plans alike have the same blocks. */
  lemma WholeAlike(vendor: string, p: Plan, q: Plan, loadSeq: seq<string>)
    requires Alike(p, q)
    ensures Whole(vendor, q, loadSeq) == Held(LineOf(vendor, p, loadSeq), |Waits(p)|)
  {
    SameWaits(p, q);
    SameSentIds(vendor, p, q, loadSeq, |Waits(p)|);
    WholePlanIsSent(vendor, p, loadSeq);
    WholePlanIsSent(vendor, q, loadSeq);
    LineIsWellNamed(vendor, p, loadSeq);
  }

  lemma PrefixIsDistinct(x: seq<string>, y: seq<string>)
    requires x <= y && Distinct(y)
    ensures Distinct(x)
  {
  }

  /** Over every run, with the destination bound at any moment the plan is parked for it and releasers acting on
      either plan: the plan grows once at most; the fleet's blocks are the create and the first segments of
      the plan as it was, or the whole plan with its tail, always a prefix of the plan as it is, no id twice;
      and the witness never runs ahead of the fleet. */
  lemma EveryDwellRunIsSafe(vendor: string, p: Plan, loadSeq: seq<string>, marked: bool, es: seq<Event>)
    ensures
      var s := Run(vendor, Created(vendor, p, loadSeq, marked), es);
      && (Alike(p, s.plan) || (Open(p) && Alike(p + [TAIL], s.plan)))
      && s.landed <= |Waits(p)|
      && (|| Ids(s.blocks) == Ids(SentBlocks(vendor, p, loadSeq, s.landed))
          || Ids(s.blocks) == Whole(vendor, s.plan, loadSeq))
      && Ids(s.blocks) <= Whole(vendor, s.plan, loadSeq)
      && Distinct(Ids(s.blocks))
      && s.waitIndex <= s.landed
  {
    var a, b, s := LineOf(vendor, p, loadSeq), LineOf(vendor, Grown(p), loadSeq),
      Run(vendor, Created(vendor, p, loadSeq, marked), es);
    RunFits(vendor, p, loadSeq, marked, es);
    LinesAreTwins(vendor, p, loadSeq);
    LineIsWellNamed(vendor, Grown(p), loadSeq);
    hide LineOf, Waits, Run, Created, Whole, SameShape, SameLaneWaits, Distinct, Held;
    var n := |Waits(p)|;
    HeldIsSent(vendor, p, loadSeq, s.landed);
    TwinsHold(a, b, s.landed);
    HeldGrows(a, s.landed, n);
    HeldGrows(b, s.landed, n);
    PrefixIsDistinct(Ids(s.blocks), Held(b, n));
    if Alike(Grown(p), s.plan) {
      WholeAlike(vendor, Grown(p), s.plan, loadSeq);
    } else {
      WholeAlike(vendor, p, s.plan, loadSeq);
    }
  }

  // ---------------------------------------------------------------- complete=true

  ghost predicate SealedWholeThroughout(vendor: string, loadSeq: seq<string>, s: World, es: seq<Event>) {
    && SealedWhole(vendor, loadSeq, Run(vendor, s, es))
    && (es != [] ==> SealedWholeThroughout(vendor, loadSeq, s, es[..|es| - 1]))
  }

  ghost predicate NoHollowSend(vendor: string, loadSeq: seq<string>, s: World, es: seq<Event>) {
    es != [] ==>
      && NoHollowSend(vendor, loadSeq, s, es[..|es| - 1])
      && !HollowSend(vendor, loadSeq, Run(vendor, s, es[..|es| - 1]), es[|es| - 1])
  }

  /** An empty send leaves the blocks and sets complete. */
  lemma HollowSeals(vendor: string, loadSeq: seq<string>, s: World, e: Event)
    requires HollowSend(vendor, loadSeq, s, e)
    ensures
      var t := Next(vendor, s, e);
      t.sealSent && t.sealed && t.blocks == s.blocks && t.plan == s.plan && !AllIn(vendor, loadSeq, t)
  {
    hide Open, Waits, Whole, Act;
    EmptyAct(vendor, s, e.e.r, e.e.delivery, e.e.link);
  }

  /** AllIn, in terms of the line of the plan with its tail. */
  lemma AllInIff(vendor: string, p: Plan, a: Line, b: Line, loadSeq: seq<string>, s: World)
    requires a == LineOf(vendor, p, loadSeq) && b == LineOf(vendor, Grown(p), loadSeq) && Fits(p, a, b, s)
    ensures AllIn(vendor, loadSeq, s) <==> Alike(Grown(p), s.plan) && Ids(s.blocks) == Held(b, |b.segs|)
  {
    GrownIsNotOpen(p);
    hide LineOf, Open, Whole, Held, Without, With, SameShape, SameLaneWaits, Waits;
    if Alike(Grown(p), s.plan) {
      AlikeOpen(Grown(p), s.plan);
      WholeAlike(vendor, Grown(p), s.plan, loadSeq);
    } else {
      AlikeOpen(p, s.plan);
    }
  }

  lemma CleanIsSealedWhole(vendor: string, p: Plan, a: Line, b: Line, loadSeq: seq<string>, s: World)
    requires a == LineOf(vendor, p, loadSeq) && b == LineOf(vendor, Grown(p), loadSeq)
    requires Fits(p, a, b, s) && Clean(b, s)
    ensures SealedWhole(vendor, loadSeq, s)
  {
    LinesAreTwins(vendor, p, loadSeq);
    AllInIff(vendor, p, a, b, loadSeq, s);
    hide LineOf, AllIn, SameShape, SameLaneWaits, Held;
    if s.sealSent && !Alike(Grown(p), s.plan) {
      WithNeedsTail(vendor, p, a, b, loadSeq, s);
    }
  }

  /** The tail is at the fleet only if the plan has it. */
  lemma WithNeedsTail(vendor: string, p: Plan, a: Line, b: Line, loadSeq: seq<string>, s: World)
    requires a == LineOf(vendor, p, loadSeq) && b == LineOf(vendor, Grown(p), loadSeq)
    requires Fits(p, a, b, s) && With(b, s)
    ensures Alike(Grown(p), s.plan)
  {
    if !Alike(Grown(p), s.plan) {
      assert Alike(p, s.plan) && Open(p);
      var n := |Waits(p)|;
      LinesAreTwins(vendor, p, loadSeq);
      LastSegmentIsEmpty(vendor, p);
      TwinsHold(a, b, n - 1);
      TwinsHold(a, b, n);
      HeldStep(b, n - 1);
      TailHasABlock(vendor, p);
      assert false;
    }
  }

  lemma TailHasABlock(vendor: string, p: Plan)
    requires Open(p)
    ensures Waits(Grown(p)) == Waits(p) != [] && SegmentIds(vendor, Grown(p), |Waits(p)| - 1) != []
  {
    OpenEndsAtWait(p);
    WaitsWithTail(p, TAIL);
    hide Waits, Open;
    EmptySegment(Grown(p), |Waits(p)| - 1);
    SegmentIdsEmpty(vendor, Grown(p), |Waits(p)| - 1);
  }

  lemma NextClean(vendor: string, p: Plan, a: Line, b: Line, loadSeq: seq<string>, s: World, e: Event)
    requires a == LineOf(vendor, p, loadSeq) && b == LineOf(vendor, Grown(p), loadSeq)
    requires Fits(p, a, b, s) && Clean(b, s) && !HollowSend(vendor, loadSeq, s, e)
    ensures Clean(b, Next(vendor, s, e))
  {
    hide LineOf, Grown, Alike, Waits, Act, Held, Open;
    NextFits(vendor, p, a, b, loadSeq, s, e);
    if e.Proto? && e.e.Attempt? && e.e.r in s.pcs && s.pcs[e.e.r].Loaded? {
      AttemptClean(vendor, p, a, b, loadSeq, s, e);
    }
  }

  lemma AttemptClean(vendor: string, p: Plan, a: Line, b: Line, loadSeq: seq<string>, s: World, e: Event)
    requires a == LineOf(vendor, p, loadSeq) && b == LineOf(vendor, Grown(p), loadSeq)
    requires Fits(p, a, b, s) && Clean(b, s) && !HollowSend(vendor, loadSeq, s, e)
    requires e.Proto? && e.e.Attempt? && e.e.r in s.pcs && s.pcs[e.e.r].Loaded?
    ensures Clean(b, Next(vendor, s, e))
  {
    var q, w := s.pcs[e.e.r].plan, s.pcs[e.e.r].wait;
    hide Waits, LineOf, SameShape, SameLaneWaits, Open, Held, AllIn, SegmentBlocks, Act;
    ActFits(vendor, p, a, b, loadSeq, s, e.e.r, e.e.delivery, e.e.link);
    if !Alike(Grown(p), q) && w + 1 == |Waits(q)| && !e.e.link.NotReached? {
      assert PcFits(p, s, s.pcs[e.e.r]);
      assert Alike(p, q) && Open(p);
      AlikeOpen(p, q);
      AllInIff(vendor, p, a, b, loadSeq, s);
      EmptyAct(vendor, s, e.e.r, e.e.delivery, e.e.link);
    }
  }

  lemma EmptyAct(vendor: string, s: World, r: nat, delivery: string, link: Link)
    requires r in s.pcs && s.pcs[r].Loaded? && Open(s.pcs[r].plan) && s.pcs[r].wait + 1 == |Waits(s.pcs[r].plan)|
    ensures
      var t := Act(vendor, s, r, s.pcs[r], delivery, link);
      t.blocks == s.blocks && t.plan == s.plan && (!link.NotReached? ==> t.sealSent && t.sealed)
    ensures link.Delivered? ==>
      Act(vendor, s, r, s.pcs[r], delivery, link).pcs == s.pcs[r := Landed(s.pcs[r].wait)]
  {
    var q, w := s.pcs[r].plan, s.pcs[r].wait;
    LastSegmentIsEmpty(vendor, q);
    hide Open, Waits;
    assert SegmentBlocks(vendor, q, w, delivery) == [];
    EmptySend(s, r, w, true, link);
  }

  lemma {:induction false} RunClean(vendor: string, p: Plan, loadSeq: seq<string>, marked: bool, es: seq<Event>)
    requires NoHollowSend(vendor, loadSeq, Created(vendor, p, loadSeq, marked), es)
    ensures Clean(LineOf(vendor, Grown(p), loadSeq), Run(vendor, Created(vendor, p, loadSeq, marked), es))
  {
    var a, b, s := LineOf(vendor, p, loadSeq), LineOf(vendor, Grown(p), loadSeq), Created(vendor, p, loadSeq, marked);
    hide Fits, Clean, LineOf, Grown, Next, Created, HollowSend;
    if es == [] {
      CreatedFits(vendor, p, loadSeq, marked);
    } else {
      var n := |es| - 1;
      RunClean(vendor, p, loadSeq, marked, es[..n]);
      RunFits(vendor, p, loadSeq, marked, es[..n]);
      NextClean(vendor, p, a, b, loadSeq, Run(vendor, s, es[..n]), es[n]);
    }
  }

  /** Throughout a run complete=true has been sent only with the tail and everything before it in, if and only if
      no releaser sends the last segment of a plan it read without its tail before the tail is in. */
  lemma {:induction false} SealedWholeIff(
    vendor: string, p: Plan, loadSeq: seq<string>, marked: bool, es: seq<Event>)
    ensures
      var s := Created(vendor, p, loadSeq, marked);
      SealedWholeThroughout(vendor, loadSeq, s, es) <==> NoHollowSend(vendor, loadSeq, s, es)
  {
    var a, b, s := LineOf(vendor, p, loadSeq), LineOf(vendor, Grown(p), loadSeq), Created(vendor, p, loadSeq, marked);
    hide Fits, Clean, LineOf, Grown, Next, Created, HollowSend, AllIn;
    var n := |es| - 1;
    if es != [] {
      SealedWholeIff(vendor, p, loadSeq, marked, es[..n]);
      if HollowSend(vendor, loadSeq, Run(vendor, s, es[..n]), es[n]) {
        HollowSeals(vendor, loadSeq, Run(vendor, s, es[..n]), es[n]);
      }
    }
    if NoHollowSend(vendor, loadSeq, s, es) {
      RunClean(vendor, p, loadSeq, marked, es);
      RunFits(vendor, p, loadSeq, marked, es);
      CleanIsSealedWhole(vendor, p, a, b, loadSeq, Run(vendor, s, es));
    }
  }

  // ---------------------------------------------------------------- a leg that never gets its tail

  /** The plan lacks its tail and its last wait is consumed. */
  ghost predicate Stranded(s: World) {
    && Open(s.plan) && s.waitIndex >= |Waits(s.plan)|
    && forall r | r in s.pcs :: s.pcs[r].Loaded? && s.pcs[r].wait >= |Waits(s.pcs[r].plan)|
  }

  lemma StrandedStays(vendor: string, s: World, e: Event)
    requires Stranded(s)
    ensures Stranded(Next(vendor, s, e)) && Next(vendor, s, e).blocks == s.blocks
  {
    hide Waits, Open, SegmentBlocks, Append;
    if e.Proto? && e.e.Rewrite? && Alike(s.plan, e.e.to) {
      AlikeOpen(s.plan, e.e.to);
      SameWaits(s.plan, e.e.to);
    }
  }

  /** Nothing gets it moving again: no destination is bound any more and no release sends anything. */
  lemma {:induction false} StrandedForever(vendor: string, s: World, es: seq<Event>)
    requires Stranded(s)
    ensures Stranded(Run(vendor, s, es)) && Run(vendor, s, es).blocks == s.blocks
  {
    if es != [] {
      var n := |es| - 1;
      StrandedForever(vendor, s, es[..n]);
      StrandedStays(vendor, Run(vendor, s, es[..n]), es[n]);
    }
  }

  /** A hard release, which goes past the fence, of a leg that dwells and has no destination yet: the fleet
      order is marked complete, and the robot keeps its bin for good. */
  lemma HardReleaseStrands(vendor: string, s: World, delivery: string, es: seq<Event>)
    requires GatesAppend(s.plan, s.waitIndex) && s.waitIndex + 1 == |Waits(s.plan)| && s.pcs == map[]
    ensures
      var t := Run(vendor, s, [Proto(Load(1)), Proto(Attempt(1, delivery, Delivered)), Proto(Advance(1, true))]);
      t.sealed && Open(t.plan) && t.blocks == s.blocks && Run(vendor, t, es).blocks == s.blocks
  {
    var t1 := Next(vendor, s, Proto(Load(1)));
    var t2 := Next(vendor, t1, Proto(Attempt(1, delivery, Delivered)));
    var t3 := Next(vendor, t2, Proto(Advance(1, true)));
    RunOfThree(vendor, s, Proto(Load(1)), Proto(Attempt(1, delivery, Delivered)), Proto(Advance(1, true)));
    GatedIsOpen(s.plan, s.waitIndex);
    hide Open, Waits, Run, Act;
    EmptyAct(vendor, t1, 1, delivery, Delivered);
    assert Stranded(t3);
    StrandedForever(vendor, t3, es);
  }

  lemma RunOfThree(vendor: string, s: World, e: Event, f: Event, g: Event)
    ensures Run(vendor, s, [e, f, g]) == Next(vendor, Next(vendor, Next(vendor, s, e), f), g)
  {
    hide Next;
    assert [e, f, g][..2] == [e, f] && [e, f][..1] == [e] && [e][..0] == [];
    assert Run(vendor, s, [e]) == Next(vendor, s, e);
    assert Run(vendor, s, [e, f]) == Next(vendor, Next(vendor, s, e), f);
  }

  // ---------------------------------------------------------------- the leg as it is meant to go

  /** digDwellPlan: take the blocker, come to the lane's shallowest slot, wait for Core. */
  function DigDwellPlan(source: string, slot: string, lane: nat): Plan {
    [Step(Pickup, source, "", false, false, Untagged, 0)] + [Step(Wait, slot, "", false, false, Lane, lane)]
  }

  lemma DigLegDwells(source: string, slot: string, lane: nat)
    ensures
      var p := DigDwellPlan(source, slot, lane);
      Waits(p) == [1] && GatesAppend(p, 0) && Open(p)
  {
    var p := DigDwellPlan(source, slot, lane);
    assert p[..1] == [p[0]] && p[..1][..0] == [];
    assert Waits(p[..1]) == [];
    GatedIsOpen(p, 0);
  }

  lemma TailBlocks(vendor: string, p: Plan, node: string)
    requires Open(p)
    ensures
      var q, w := p + [DropoffAt(node)], |Waits(p)| - 1;
      && Waits(q) == Waits(p) != []
      && var bs := SegmentBlocks(vendor, q, w, "");
         |bs| == 1 && bs[0].location == node
  {
    var q, w := p + [DropoffAt(node)], |Waits(p)| - 1;
    OpenEndsAtWait(p);
    WaitsWithTail(p, DropoffAt(node));
    hide Waits, Open;
    assert Segment(q, w) == [DropoffAt(node)];
    PlainBlockAt(vendor, Segment(q, w), BlockOffset(q, w) + 1, 0);
  }

  /** The plan without its tail is at the fleet up to its last wait; a releaser with the tail sends it. */
  lemma TailLands(vendor: string, p: Plan, a: Line, b: Line, loadSeq: seq<string>, s: World, q: Plan)
    requires a == LineOf(vendor, p, loadSeq) && b == LineOf(vendor, Grown(p), loadSeq)
    requires Open(p) && Alike(Grown(p), q) && Without(a, s) && s.landed + 1 >= |Waits(q)|
    ensures Waits(q) != []
    ensures
      var w := |Waits(q)| - 1;
      var bs := SegmentBlocks(vendor, q, w, "");
      Accepted(s.blocks, bs, Delivered) && Ids(s.blocks + bs) == Held(b, |b.segs|)
  {
    LastSegmentIsEmpty(vendor, p);
    LinesAreTwins(vendor, p, loadSeq);
    SameWaits(Grown(p), q);
    hide SegmentBlocks, Waits, LineOf, Grown, Alike, Open, Accepted, Held;
    var w := |Waits(q)| - 1;
    SentIdsFit(vendor, p, a, b, loadSeq, q, w, "");
    SendTail(a, b, s, 0, SegmentBlocks(vendor, q, w, ""), true, Delivered);
  }

  lemma ReleasedLeg(
    vendor: string, p: Plan, a: Line, b: Line, loadSeq: seq<string>, s: World, node: string, t: World, u: World)
    requires a == LineOf(vendor, p, loadSeq) && b == LineOf(vendor, Grown(p), loadSeq) && Fits(p, a, b, s)
    requires GatesAppend(s.plan, s.waitIndex) && s.waitIndex + 1 == |Waits(s.plan)| && s.pcs == map[]
    requires t == Next(vendor, s, Bind(node))
    requires u == Next(vendor, Next(vendor, t, Proto(Load(1))), Proto(Attempt(1, "", Delivered)))
    ensures AllIn(vendor, loadSeq, u) && u.sealed && u.pcs == map[1 := Landed(s.waitIndex)]
    ensures u.blocks != [] && u.blocks[|u.blocks| - 1].location == node
  {
    hide *;
    GatedIsOpen(s.plan, s.waitIndex);
    TailBlocks(vendor, s.plan, node);
    BoundFits(vendor, p, a, b, loadSeq, s, node);
    TailLands(vendor, p, a, b, loadSeq, s, t.plan);
    AcceptedRelease(vendor, t);
    NextFits(vendor, p, a, b, loadSeq, t, Proto(Load(1)));
    NextFits(vendor, p, a, b, loadSeq, Next(vendor, t, Proto(Load(1))), Proto(Attempt(1, "", Delivered)));
    AllInIff(vendor, p, a, b, loadSeq, u);
  }

  /** A leg parked at its last wait, its destination bound and released: the whole plan is at the fleet, ending at
      the chosen node, and complete. */
  lemma BoundLegIsReleased(
    vendor: string, p: Plan, a: Line, b: Line, loadSeq: seq<string>, s: World, node: string)
    requires a == LineOf(vendor, p, loadSeq) && b == LineOf(vendor, Grown(p), loadSeq) && Fits(p, a, b, s)
    requires GatesAppend(s.plan, s.waitIndex) && s.waitIndex + 1 == |Waits(s.plan)| && s.pcs == map[]
    ensures
      var t := Run(vendor, s, [Bind(node), Proto(Load(1)), Proto(Attempt(1, "", Delivered))]);
      && AllIn(vendor, loadSeq, t) && t.sealed && t.pcs == map[1 := Landed(s.waitIndex)]
      && t.blocks != [] && t.blocks[|t.blocks| - 1].location == node
  {
    hide *;
    var e, f := Proto(Load(1)), Proto(Attempt(1, "", Delivered));
    RunOfThree(vendor, s, Bind(node), e, f);
    var t := Next(vendor, s, Bind(node));
    ReleasedLeg(vendor, p, a, b, loadSeq, s, node, t, Next(vendor, Next(vendor, t, e), f));
  }

  /** One release at the last wait that the fleet takes. */
  lemma AcceptedRelease(vendor: string, s: World)
    requires s.pcs == map[] && s.waitIndex + 1 == |Waits(s.plan)|
    requires Accepted(s.blocks, SegmentBlocks(vendor, s.plan, s.waitIndex, ""), Delivered)
    ensures
      var t := Next(vendor, Next(vendor, s, Proto(Load(1))), Proto(Attempt(1, "", Delivered)));
      && t.blocks == s.blocks + SegmentBlocks(vendor, s.plan, s.waitIndex, "") && t.plan == s.plan
      && t.sealed && t.pcs == map[1 := Landed(s.waitIndex)]
  {
    hide Waits, SegmentBlocks, Accepted;
  }

  lemma BoundFits(vendor: string, p: Plan, a: Line, b: Line, loadSeq: seq<string>, s: World, node: string)
    requires a == LineOf(vendor, p, loadSeq) && b == LineOf(vendor, Grown(p), loadSeq) && Fits(p, a, b, s)
    requires GatesAppend(s.plan, s.waitIndex)
    ensures
      var t := Next(vendor, s, Bind(node));
      && Open(p) && Alike(Grown(p), t.plan) && Without(a, s) && s.waitIndex <= s.landed
      && t == s.(plan := s.plan + [DropoffAt(node)]) && Fits(p, a, b, t)
  {
    hide LineOf, Held, Waits;
    NextFits(vendor, p, a, b, loadSeq, s, Bind(node));
    GatedIsOpen(s.plan, s.waitIndex);
    GrownIsNotOpen(p);
    hide GatesAppend, Open, Grown;
    if Alike(Grown(p), s.plan) {
      AlikeOpen(Grown(p), s.plan);
      assert false;
    }
    AlikeOpen(p, s.plan);
    BoundIsGrown(p, s.plan, node);
  }
}
