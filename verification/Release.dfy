/** Releasing a plan segment by segment to a live fleet order, with racing releasers, lost
    replies and failed witness writes. */
module Release {
  import opened Plans
  import opened Blocks
  import opened PlanShape

  // ---------------------------------------------------------------- redirects

  /** The last dropoff of a segment, or -1. */
  function LastDropoff(segment: Plan): (i: int)
    ensures -1 <= i < |segment|
    ensures i >= 0 ==> segment[i].action.Dropoff?
    ensures forall j | i < j < |segment| :: !segment[j].action.Dropoff?
  {
    if segment == [] then -1
    else
      var n := |segment| - 1;
      if segment[n].action.Dropoff? then n else LastDropoff(segment[..n])
  }

  /** The final segment's last dropoff follows the order's delivery node; other segments keep theirs. */
  function Redirected(segment: Plan, delivery: string, moreWaits: bool): Plan {
    var i := LastDropoff(segment);
    if delivery == "" || moreWaits || i < 0 then segment
    else segment[i := segment[i].(node := delivery)]
  }

  /** patchRedirectSegments: the backward scan, writing the segment in place. */
  method PatchRedirectSegments(segment: array<Step>, delivery: string, moreWaits: bool)
    modifies segment
    ensures segment[..] == Redirected(old(segment[..]), delivery, moreWaits)
  {
    if delivery == "" || moreWaits {
      return;
    }
    ghost var was := segment[..];
    var i := segment.Length - 1;
    while i >= 0
      invariant -1 <= i < segment.Length
      invariant segment[..] == was
      invariant forall j | i < j < segment.Length :: !was[j].action.Dropoff?
    {
      if segment[i].action.Dropoff? {
        if segment[i].node != delivery {
          segment[i] := segment[i].(node := delivery);
        }
        return;
      }
      i := i - 1;
    }
  }

  lemma RedirectKeepsShape(segment: Plan, delivery: string, moreWaits: bool)
    ensures SameShape(segment, Redirected(segment, delivery, moreWaits))
  {
  }

  lemma {:induction false} PlainBlockAt(vendor: string, steps: Plan, n: nat, i: nat)
    requires i < |steps| && forall k | 0 <= k < |steps| :: EmitsBlock(steps[k])
    ensures |ToBlocks(vendor, steps, n, [])| == |steps|
    ensures ToBlocks(vendor, steps, n, [])[i]
         == Block(BlockId(vendor, n + i, 0), steps[i].node, TaskFor(steps[i].action))
  {
    var rest := ToBlocks(vendor, steps[1..], n + 1, []);
    assert ToBlocks(vendor, steps, n, []) == StepBlocks(vendor, steps[0], n, []) + rest;
    if |steps| > 1 {
      PlainBlockAt(vendor, steps[1..], n + 1, if i == 0 then 0 else i - 1);
    }
  }

  /** A redirect renames no block and moves at most one: the block of the segment's last dropoff. */
  lemma RedirectMovesOneBlock(vendor: string, segment: Plan, n: nat, delivery: string, moreWaits: bool, i: nat)
    requires i < |segment| && forall k | 0 <= k < |segment| :: EmitsBlock(segment[k])
    ensures
      var was := ToBlocks(vendor, segment, n, []);
      var now := ToBlocks(vendor, Redirected(segment, delivery, moreWaits), n, []);
      && |was| == |now| == |segment|
      && now[i] == if i == LastDropoff(segment) && delivery != "" && !moreWaits
                   then was[i].(location := delivery) else was[i]
  {
    var after := Redirected(segment, delivery, moreWaits);
    forall k | 0 <= k < |after|
      ensures EmitsBlock(after[k])
    {
      assert EmitsBlock(segment[k]);
    }
    PlainBlockAt(vendor, segment, n, i);
    PlainBlockAt(vendor, after, n, i);
  }

  // ---------------------------------------------------------------- the fleet

  /** What became of one call to the fleet. */
  datatype Link =
    | NotReached  // an error, and the fleet never saw the call
    | Delivered   // the fleet answered
    | ReplyLost   // the fleet acted on the call, but the caller got an error

  predicate HasId(blocks: seq<Block>, id: string) {
    exists i | 0 <= i < |blocks| :: blocks[i].id == id
  }

  /** The fleet rejects a call that repeats a block id of the order. */
  predicate Clash(blocks: seq<Block>, more: seq<Block>) {
    exists i | 0 <= i < |more| :: HasId(blocks, more[i].id)
  }

  predicate Accepted(blocks: seq<Block>, more: seq<Block>, link: Link) {
    !link.NotReached? && !Clash(blocks, more)
  }

  // ---------------------------------------------------------------- the protocol

  /** A releaser that has read the order row, or whose append is known to have landed. */
  datatype Pc =
    | Loaded(wait: nat, plan: Plan)
    | Landed(wait: nat)

  /** The order row, the fleet order, and the releasers in flight. `sealSent` records that
      complete=true was ever accepted, `landed` how many leading segments the fleet holds. */
  datatype World = World(
    plan: Plan,
    waitIndex: nat,
    blocks: seq<Block>,
    sealed: bool,
    sealSent: bool,
    landed: nat,
    pcs: map<nat, Pc>)

  datatype Event =
    | Load(r: nat)
    | Attempt(r: nat, delivery: string, link: Link)
    | Advance(r: nat, written: bool)
    | Rewrite(to: Plan)

  /** The steps a releaser holding `plan` sends for wait `w`, redirect included. */
  function SegmentSteps(plan: Plan, w: nat, delivery: string): Plan
    requires w < |Waits(plan)|
  {
    Redirected(Segment(plan, w), delivery, w + 1 < |Waits(plan)|)
  }

  /** The blocks they become. */
  function SegmentBlocks(vendor: string, plan: Plan, w: nat, delivery: string): seq<Block>
    requires w < |Waits(plan)|
  {
    ToBlocks(vendor, SegmentSteps(plan, w, delivery), BlockOffset(plan, w) + 1, [])
  }

  /** Sending `bs` for wait `w`: the append half of appendSegmentAndAdvance, run by releaser `r`. */
  function Append(s: World, r: nat, w: nat, bs: seq<Block>, complete: bool, link: Link): World {
    if Accepted(s.blocks, bs, link) then
      s.(blocks := s.blocks + bs,
         sealed := complete,
         sealSent := s.sealSent || complete,
         landed := if w == s.landed then w + 1 else s.landed,
         pcs := if link.Delivered? then s.pcs[r := Landed(w)] else s.pcs - {r})
    else s.(pcs := s.pcs - {r})
  }

  /** A releaser acting on the row it loaded; past the last wait there is nothing to send. */
  function Act(vendor: string, s: World, r: nat, pc: Pc, delivery: string, link: Link): World
    requires pc.Loaded?
  {
    if pc.wait >= |Waits(pc.plan)| then s.(pcs := s.pcs - {r})
    else Append(s, r, pc.wait, SegmentBlocks(vendor, pc.plan, pc.wait, delivery), pc.wait + 1 == |Waits(pc.plan)|, link)
  }

  ghost function Next(vendor: string, s: World, e: Event): World {
    match e
    case Load(r) =>
      if r in s.pcs then s else s.(pcs := s.pcs[r := Loaded(s.waitIndex, s.plan)])
    case Attempt(r, delivery, link) =>
      if r in s.pcs && s.pcs[r].Loaded?
      then Act(vendor, s, r, s.pcs[r], delivery, link)
      else s
    case Advance(r, written) =>
      if r in s.pcs && s.pcs[r].Landed?
      then s.(waitIndex := if written then s.pcs[r].wait + 1 else s.waitIndex, pcs := s.pcs - {r})
      else s
    case Rewrite(to) =>
      if SameShape(s.plan, to) then s.(plan := to) else s
  }

  ghost function Run(vendor: string, s: World, es: seq<Event>): World {
    if es == [] then s else Next(vendor, Run(vendor, s, es[..|es| - 1]), es[|es| - 1])
  }

  /** The world right after the create. A plan without waits is marked complete at once, unless
      that call to the fleet fails. */
  function Created(vendor: string, p: Plan, loadSeq: seq<string>, marked: bool): World {
    var sealed := Waits(p) == [] && marked;
    World(p, 0, ToBlocks(vendor, PreWait(p), 1, loadSeq), sealed, sealed, 0, map[])
  }

  // ---------------------------------------------------------------- ids in line

  /** The block ids of an order: those of the create, then those of each segment. */
  datatype Line = Line(pre: seq<string>, segs: seq<seq<string>>)

  ghost function Held(l: Line, k: nat): seq<string>
    requires k <= |l.segs|
  {
    if k == 0 then l.pre else Held(l, k - 1) + l.segs[k - 1]
  }

  lemma HeldStep(l: Line, w: nat)
    requires w < |l.segs|
    ensures Held(l, w + 1) == Held(l, w) + l.segs[w]
  {
  }

  lemma {:induction false} HeldHoldsSegment(l: Line, w: nat, k: nat, i: nat)
    requires w < k <= |l.segs| && i < |l.segs[w]|
    ensures l.segs[w][i] in Held(l, k)
  {
    var j := k - 1;
    HeldStep(l, j);
    if j > w {
      HeldHoldsSegment(l, w, j, i);
    }
  }

  lemma {:induction false} HeldGrows(l: Line, k: nat, m: nat)
    requires k <= m <= |l.segs|
    ensures Held(l, k) <= Held(l, m)
  {
    if k < m {
      var j := m - 1;
      HeldGrows(l, k, j);
      HeldStep(l, j);
    }
  }

  ghost predicate WellNamed(l: Line) {
    Distinct(Held(l, |l.segs|))
  }

  ghost function SegmentIds(vendor: string, p: Plan, w: nat): seq<string>
    requires w < |Waits(p)|
  {
    Ids(ToBlocks(vendor, Segment(p, w), BlockOffset(p, w) + 1, []))
  }

  ghost function LineOf(vendor: string, p: Plan, loadSeq: seq<string>): (l: Line)
    ensures |l.segs| == |Waits(p)|
    ensures forall w | 0 <= w < |l.segs| :: l.segs[w] == SegmentIds(vendor, p, w)
  {
    Line(Ids(ToBlocks(vendor, PreWait(p), 1, loadSeq)),
         seq(|Waits(p)|, w requires 0 <= w < |Waits(p)| => SegmentIds(vendor, p, w)))
  }

  lemma {:induction false} HeldIsSent(vendor: string, p: Plan, loadSeq: seq<string>, k: nat)
    requires k <= |Waits(p)|
    ensures Held(LineOf(vendor, p, loadSeq), k) == Ids(SentBlocks(vendor, p, loadSeq, k))
  {
    if k > 0 {
      var w := k - 1;
      HeldIsSent(vendor, p, loadSeq, w);
      HeldStep(LineOf(vendor, p, loadSeq), w);
      SentIdsStep(vendor, p, loadSeq, w);
    }
  }

  /** A plan's blocks, in the order a full release sends them, are its block-producing steps
      numbered 1, 2, 3, ..., and no id repeats. */
  lemma LineIsWellNamed(vendor: string, p: Plan, loadSeq: seq<string>)
    ensures WellNamed(LineOf(vendor, p, loadSeq))
    ensures Held(LineOf(vendor, p, loadSeq), |Waits(p)|)
         == Ids(ToBlocks(vendor, BlockSteps(p), 1, EffectiveTasks(p, loadSeq)))
  {
    HeldIsSent(vendor, p, loadSeq, |Waits(p)|);
    WholePlanIsSent(vendor, p, loadSeq);
    IdsDistinct(vendor, BlockSteps(p), 1, EffectiveTasks(p, loadSeq));
  }

  lemma SegmentIdsEmpty(vendor: string, p: Plan, w: nat)
    requires w < |Waits(p)|
    ensures |SegmentIds(vendor, p, w)| == |Segment(p, w)|
  {
    SegmentEmits(p, w);
    if Segment(p, w) != [] {
      PlainBlockAt(vendor, Segment(p, w), BlockOffset(p, w) + 1, 0);
    }
  }

  /** Neither a redirect nor a plan rewrite changes the ids a segment is sent under. */
  lemma AttemptedIds(vendor: string, p: Plan, q: Plan, w: nat, delivery: string)
    requires SameShape(p, q) && w < |Waits(p)|
    ensures Waits(p) == Waits(q)
    ensures Ids(SegmentBlocks(vendor, q, w, delivery)) == SegmentIds(vendor, p, w)
  {
    SameSegmentIds(vendor, p, q, w);
    RedirectKeepsShape(Segment(q, w), delivery, w + 1 < |Waits(q)|);
    SameIds(vendor, Segment(q, w), Redirected(Segment(q, w), delivery, w + 1 < |Waits(q)|), BlockOffset(q, w) + 1, []);
  }

  // ---------------------------------------------------------------- what an append meets

  lemma ClashIsSharedId(blocks: seq<Block>, more: seq<Block>)
    ensures Clash(blocks, more) <==> exists i | 0 <= i < |more| :: Ids(more)[i] in Ids(blocks)
  {
    forall i | 0 <= i < |more|
      ensures HasId(blocks, more[i].id) <==> Ids(more)[i] in Ids(blocks)
    {
      if HasId(blocks, more[i].id) {
        var j :| 0 <= j < |blocks| && blocks[j].id == more[i].id;
        assert Ids(blocks)[j] == more[i].id;
      }
      if Ids(more)[i] in Ids(blocks) {
        var j :| 0 <= j < |blocks| && Ids(blocks)[j] == Ids(more)[i];
        assert blocks[j].id == more[i].id;
      }
    }
  }

  /** The next segment in line never clashes. */
  lemma NextSegmentIsFresh(l: Line, w: nat, blocks: seq<Block>, more: seq<Block>)
    requires WellNamed(l) && w < |l.segs|
    requires Ids(blocks) == Held(l, w) && Ids(more) == l.segs[w]
    ensures !Clash(blocks, more)
    ensures Ids(blocks + more) == Held(l, w + 1)
  {
    HeldStep(l, w);
    IdsConcat(blocks, more);
    HeldGrows(l, w + 1, |l.segs|);
    ClashIsSharedId(blocks, more);
    var all := Held(l, |l.segs|);
    forall i, j | 0 <= i < |more| && 0 <= j < |blocks|
      ensures Ids(blocks)[j] != Ids(more)[i]
    {
      assert Held(l, w + 1)[j] == Ids(blocks)[j];
      assert Held(l, w + 1)[|blocks| + i] == Ids(more)[i];
      assert all[j] != all[|blocks| + i];
    }
  }

  /** A segment the fleet already holds clashes, unless it has no blocks at all. */
  lemma HeldSegmentClashes(l: Line, w: nat, k: nat, blocks: seq<Block>, more: seq<Block>)
    requires w < k <= |l.segs|
    requires Ids(blocks) == Held(l, k) && Ids(more) == l.segs[w]
    ensures Clash(blocks, more) <==> l.segs[w] != []
  {
    ClashIsSharedId(blocks, more);
    if l.segs[w] != [] {
      HeldHoldsSegment(l, w, k, 0);
      assert Ids(more)[0] in Ids(blocks);
    }
  }

  // ---------------------------------------------------------------- safety over every run

  ghost predicate PcOk(p: Plan, landed: nat, pc: Pc) {
    match pc
    case Loaded(w, q) => w <= landed && SameShape(p, q)
    case Landed(w) => w < landed
  }

  /** The fleet holds the create and the first `landed` segments, each once and in order; the
      witness never runs ahead of the fleet; the seal never goes out early. */
  ghost predicate Inv(p: Plan, l: Line, s: World) {
    && SameShape(p, s.plan)
    && s.landed <= |l.segs|
    && Ids(s.blocks) == Held(l, s.landed)
    && s.waitIndex <= s.landed
    && (forall r | r in s.pcs :: PcOk(p, s.landed, s.pcs[r]))
    && (s.sealSent ==> s.landed == |l.segs|)
  }

  /** An append that reaches the fleet either adds the next segment in line or adds nothing. */
  lemma AppendEffect(l: Line, s: World, r: nat, w: nat, bs: seq<Block>, complete: bool, link: Link)
    requires WellNamed(l) && w < |l.segs| && Ids(bs) == l.segs[w]
    requires s.landed <= |l.segs| && Ids(s.blocks) == Held(l, s.landed) && w <= s.landed
    ensures Accepted(s.blocks, bs, link) <==> !link.NotReached? && (w == s.landed || l.segs[w] == [])
    ensures
      var t := Append(s, r, w, bs, complete, link);
      if w == s.landed && !link.NotReached?
      then t.landed == w + 1 && Ids(t.blocks) == Held(l, w + 1)
      else t.landed == s.landed && t.blocks == s.blocks
  {
    if w == s.landed {
      NextSegmentIsFresh(l, w, s.blocks, bs);
    } else {
      HeldSegmentClashes(l, w, s.landed, s.blocks, bs);
      assert bs == [] ==> s.blocks + bs == s.blocks;
    }
  }

  lemma AppendKeepsInv(p: Plan, l: Line, s: World, r: nat, w: nat, bs: seq<Block>, complete: bool, link: Link)
    requires WellNamed(l) && w < |l.segs| && Ids(bs) == l.segs[w]
    requires Inv(p, l, s) && w <= s.landed && (complete <==> w + 1 == |l.segs|)
    ensures Inv(p, l, Append(s, r, w, bs, complete, link))
  {
    AppendEffect(l, s, r, w, bs, complete, link);
  }

  lemma ActKeepsInv(
    vendor: string, p: Plan, loadSeq: seq<string>, s: World, r: nat, pc: Pc, delivery: string, link: Link)
    requires pc.Loaded? && Inv(p, LineOf(vendor, p, loadSeq), s) && PcOk(p, s.landed, pc)
    ensures Inv(p, LineOf(vendor, p, loadSeq), Act(vendor, s, r, pc, delivery, link))
  {
    SameWaits(p, pc.plan);
    if pc.wait < |Waits(p)| {
      LineIsWellNamed(vendor, p, loadSeq);
      AttemptedIds(vendor, p, pc.plan, pc.wait, delivery);
      AppendKeepsInv(p, LineOf(vendor, p, loadSeq), s, r, pc.wait,
        SegmentBlocks(vendor, pc.plan, pc.wait, delivery), pc.wait + 1 == |Waits(pc.plan)|, link);
    }
  }

  lemma NextKeepsInv(vendor: string, p: Plan, loadSeq: seq<string>, s: World, e: Event)
    requires Inv(p, LineOf(vendor, p, loadSeq), s)
    ensures Inv(p, LineOf(vendor, p, loadSeq), Next(vendor, s, e))
  {
    hide SegmentBlocks, Waits, LineOf, Act;
    match e
    case Load(r) =>
    case Attempt(r, delivery, link) =>
      if r in s.pcs && s.pcs[r].Loaded? {
        ActKeepsInv(vendor, p, loadSeq, s, r, s.pcs[r], delivery, link);
      }
    case Advance(r, written) =>
    case Rewrite(to) =>
      if SameShape(s.plan, to) {
        SameShapeTransitive(p, s.plan, to);
      }
  }

  lemma {:induction false} RunKeepsInv(vendor: string, p: Plan, loadSeq: seq<string>, marked: bool, es: seq<Event>)
    ensures Inv(p, LineOf(vendor, p, loadSeq), Run(vendor, Created(vendor, p, loadSeq, marked), es))
  {
    if es != [] {
      var front := es[..|es| - 1];
      RunKeepsInv(vendor, p, loadSeq, marked, front);
      NextKeepsInv(vendor, p, loadSeq, Run(vendor, Created(vendor, p, loadSeq, marked), front), es[|es| - 1]);
    }
  }

  /** Over every run of release attempts, with any fleet errors, lost replies, failed witness
      writes, stale snapshots, redirects and plan rewrites: the fleet's block list is the plan's,
      cut at a segment boundary; no block id appears twice; the witness never runs ahead of the
      fleet; and complete=true has been sent only if the whole plan is in. */
  lemma EveryRunIsSafe(vendor: string, p: Plan, loadSeq: seq<string>, marked: bool, es: seq<Event>)
    ensures
      var s := Run(vendor, Created(vendor, p, loadSeq, marked), es);
      var whole := Ids(ToBlocks(vendor, BlockSteps(p), 1, EffectiveTasks(p, loadSeq)));
      && s.landed <= |Waits(p)|
      && Ids(s.blocks) == Ids(SentBlocks(vendor, p, loadSeq, s.landed)) <= whole
      && Distinct(Ids(s.blocks))
      && s.waitIndex <= s.landed
      && (s.sealSent ==> Ids(s.blocks) == whole)
  {
    var l, s := LineOf(vendor, p, loadSeq), Run(vendor, Created(vendor, p, loadSeq, marked), es);
    RunKeepsInv(vendor, p, loadSeq, marked, es);
    HeldIsSent(vendor, p, loadSeq, s.landed);
    LineIsWellNamed(vendor, p, loadSeq);
    HeldGrows(l, s.landed, |l.segs|);
  }
}
