/** wait_index as the durable witness of a release: when it can move backwards, and what a lost
    witness write costs. */
module Witness {
  import opened Plans
  import opened Blocks
  import opened PlanShape
  import opened Release

  /** No bare wait stands directly behind another wait, so every segment with a wait behind it
      has blocks of its own. */
  predicate NoBareWaitBehindWait(p: Plan) {
    forall i | 0 <= i < |p| - 1 && p[i].action.Wait? && p[i + 1].action.Wait? :: p[i + 1].node != ""
  }

  ghost predicate InnerSegmentsSend(l: Line) {
    forall w | 0 <= w < |l.segs| - 1 :: l.segs[w] != []
  }

  /** A segment with a wait behind it sends nothing exactly where a bare wait follows its wait. */
  lemma HollowSegment(p: Plan, w: nat)
    requires w + 1 < |Waits(p)|
    ensures Segment(p, w) == [] ==> !NoBareWaitBehindWait(p)
  {
    EmptySegment(p, w);
    WaitsAreWaits(p, w);
    WaitsAreWaits(p, w + 1);
    if Segment(p, w) == [] {
      var i := Waits(p)[w];
      assert p[i].action.Wait? && p[i + 1].action.Wait? && p[i + 1].node == "";
    }
  }

  lemma HollowFromBareWait(p: Plan) returns (w: nat)
    requires !NoBareWaitBehindWait(p)
    ensures w + 1 < |Waits(p)| && Segment(p, w) == []
  {
    var i :| 0 <= i < |p| - 1 && p[i].action.Wait? && p[i + 1].action.Wait? && p[i + 1].node == "";
    w := WaitIsListed(p, i);
    NextWaitIs(p, w, i + 1);
    EmptySegment(p, w);
  }

  lemma InnerSegmentsSendIff(vendor: string, p: Plan, loadSeq: seq<string>)
    ensures InnerSegmentsSend(LineOf(vendor, p, loadSeq)) <==> NoBareWaitBehindWait(p)
  {
    var l := LineOf(vendor, p, loadSeq);
    if NoBareWaitBehindWait(p) {
      forall w | 0 <= w < |l.segs| - 1
        ensures l.segs[w] != []
      {
        HollowSegment(p, w);
        SegmentIdsEmpty(vendor, p, w);
      }
    } else {
      var w := HollowFromBareWait(p);
      SegmentIdsEmpty(vendor, p, w);
      assert l.segs[w] == [];
    }
  }

  // ---------------------------------------------------------------- no regress

  /** Releaser `r` is the only one that knows its segment landed, and nobody is past it. */
  ghost predicate Sole(s: World, r: nat, w: nat) {
    && s.landed == w + 1 && s.waitIndex <= w
    && (forall q | q in s.pcs && s.pcs[q].Loaded? :: s.pcs[q].wait <= w)
    && (forall q | q in s.pcs && s.pcs[q].Landed? :: q == r)
  }

  ghost predicate InOrder(l: Line, s: World) {
    && (forall r | r in s.pcs && s.pcs[r].Landed? ::
          s.pcs[r].wait + 1 == |l.segs| || Sole(s, r, s.pcs[r].wait))
    && (s.sealSent ==> s.sealed)
  }

  lemma AppendKeepsOrder(p: Plan, l: Line, s: World, r: nat, w: nat, bs: seq<Block>, complete: bool, link: Link)
    requires WellNamed(l) && w < |l.segs| && Ids(bs) == l.segs[w]
    requires Inv(p, l, s) && InOrder(l, s) && InnerSegmentsSend(l)
    requires r in s.pcs && s.pcs[r].Loaded? && s.pcs[r].wait == w && (complete <==> w + 1 == |l.segs|)
    ensures InOrder(l, Append(s, r, w, bs, complete, link))
  {
    AppendEffect(l, s, r, w, bs, complete, link);
    assert PcOk(p, s.landed, s.pcs[r]);
    var t := Append(s, r, w, bs, complete, link);
    if w == s.landed {
      forall q | q in s.pcs
        ensures !s.pcs[q].Landed?
      {
        assert PcOk(p, s.landed, s.pcs[q]);
      }
      forall q | q in s.pcs && s.pcs[q].Loaded?
        ensures s.pcs[q].wait <= w
      {
        assert PcOk(p, s.landed, s.pcs[q]);
      }
    }
  }

  lemma ActKeepsOrder(
    vendor: string, p: Plan, l: Line, loadSeq: seq<string>, s: World, r: nat, delivery: string, link: Link)
    requires l == LineOf(vendor, p, loadSeq) && Inv(p, l, s) && InOrder(l, s) && InnerSegmentsSend(l)
    requires r in s.pcs && s.pcs[r].Loaded?
    ensures InOrder(l, Act(vendor, s, r, s.pcs[r], delivery, link))
  {
    var pc := s.pcs[r];
    assert PcOk(p, s.landed, pc);
    SameWaits(p, pc.plan);
    if pc.wait < |Waits(p)| {
      LineIsWellNamed(vendor, p, loadSeq);
      AttemptedIds(vendor, p, pc.plan, pc.wait, delivery);
      AppendKeepsOrder(p, l, s, r, pc.wait,
        SegmentBlocks(vendor, pc.plan, pc.wait, delivery), pc.wait + 1 == |Waits(pc.plan)|, link);
    }
  }

  lemma QuietEventKeepsOrder(vendor: string, p: Plan, l: Line, s: World, e: Event)
    requires Inv(p, l, s) && InOrder(l, s) && !e.Attempt?
    ensures InOrder(l, Next(vendor, s, e))
    ensures s.waitIndex <= Next(vendor, s, e).waitIndex
  {
    if e.Advance? && e.r in s.pcs {
      assert PcOk(p, s.landed, s.pcs[e.r]);
    }
  }

  lemma NextKeepsOrder(vendor: string, p: Plan, l: Line, loadSeq: seq<string>, s: World, e: Event)
    requires l == LineOf(vendor, p, loadSeq) && Inv(p, l, s) && InOrder(l, s) && InnerSegmentsSend(l)
    ensures InOrder(l, Next(vendor, s, e))
    ensures s.waitIndex <= Next(vendor, s, e).waitIndex
  {
    hide SegmentBlocks, Waits, LineOf;
    if !e.Attempt? {
      QuietEventKeepsOrder(vendor, p, l, s, e);
    } else if e.r in s.pcs && s.pcs[e.r].Loaded? {
      ActKeepsOrder(vendor, p, l, loadSeq, s, e.r, e.delivery, e.link);
    }
  }

  lemma {:induction false} RunKeepsOrder(vendor: string, p: Plan, loadSeq: seq<string>, marked: bool, es: seq<Event>)
    requires NoBareWaitBehindWait(p)
    ensures InOrder(LineOf(vendor, p, loadSeq), Run(vendor, Created(vendor, p, loadSeq, marked), es))
  {
    if es != [] {
      var front := es[..|es| - 1];
      RunKeepsOrder(vendor, p, loadSeq, marked, front);
      RunKeepsInv(vendor, p, loadSeq, marked, front);
      InnerSegmentsSendIff(vendor, p, loadSeq);
      NextKeepsOrder(vendor, p, LineOf(vendor, p, loadSeq), loadSeq,
        Run(vendor, Created(vendor, p, loadSeq, marked), front), es[|es| - 1]);
    }
  }

  // ---------------------------------------------------------------- a run that regresses

  lemma {:induction false} RunConcat(vendor: string, s: World, a: seq<Event>, b: seq<Event>)
    ensures Run(vendor, s, a + b) == Run(vendor, Run(vendor, s, a), b)
  {
    if b == [] {
      assert a + b == a;
    } else {
      var n := |b| - 1;
      assert (a + b)[..|a + b| - 1] == a + b[..n];
      RunConcat(vendor, s, a, b[..n]);
    }
  }

  /** One undisturbed release by releaser 1. */
  function OneRelease(): seq<Event> {
    [Load(1), Attempt(1, "", Delivered), Advance(1, true)]
  }

  lemma RunOneMore(vendor: string, s: World, es: seq<Event>, e: Event)
    ensures Run(vendor, s, es + [e]) == Next(vendor, Run(vendor, s, es), e)
  {
    assert (es + [e])[..|es|] == es;
  }

  lemma RunThree(vendor: string, s: World, e: Event, f: Event, g: Event)
    ensures Run(vendor, s, [e, f, g]) == Next(vendor, Next(vendor, Next(vendor, s, e), f), g)
  {
    RunOneMore(vendor, s, [], e);
    RunOneMore(vendor, s, [e], f);
    RunOneMore(vendor, s, [e, f], g);
    assert [] + [e] == [e] && [e] + [f] == [e, f] && [e, f] + [g] == [e, f, g];
  }

  /** An attempt on the segment next in line, with the fleet answering, is known to have landed. */
  lemma AttemptInLine(vendor: string, p: Plan, l: Line, loadSeq: seq<string>, s: World, r: nat)
    requires l == LineOf(vendor, p, loadSeq) && Inv(p, l, s)
    requires r in s.pcs && s.pcs[r] == Loaded(s.landed, s.plan) && s.landed < |Waits(p)|
    ensures
      var t := Next(vendor, s, Attempt(r, "", Delivered));
      && t.landed == s.landed + 1 && t.waitIndex == s.waitIndex && t.plan == s.plan
      && t.pcs == s.pcs[r := Landed(s.landed)]
  {
    hide SegmentBlocks, Waits, LineOf;
    SameWaits(p, s.plan);
    LineIsWellNamed(vendor, p, loadSeq);
    AttemptedIds(vendor, p, s.plan, s.landed, "");
    AppendEffect(
      l, s, r, s.landed, SegmentBlocks(vendor, s.plan, s.landed, ""), s.landed + 1 == |Waits(s.plan)|, Delivered);
  }

  /** Releaser 1 finds the row in step with the fleet and takes it one segment further. */
  lemma OneReleaseAdvances(vendor: string, p: Plan, l: Line, loadSeq: seq<string>, s: World)
    requires l == LineOf(vendor, p, loadSeq) && Inv(p, l, s)
    requires s.waitIndex == s.landed < |Waits(p)| && 1 !in s.pcs
    ensures
      var t := Run(vendor, s, OneRelease());
      t.waitIndex == t.landed == s.landed + 1 && t.pcs == s.pcs && t.plan == s.plan
  {
    hide SegmentBlocks, Waits, LineOf;
    RunThree(vendor, s, Load(1), Attempt(1, "", Delivered), Advance(1, true));
    var s1 := Next(vendor, s, Load(1));
    NextKeepsInv(vendor, p, loadSeq, s, Load(1));
    AttemptInLine(vendor, p, l, loadSeq, s1, 1);
    var s2 := Next(vendor, s1, Attempt(1, "", Delivered));
    assert s2.pcs - {1} == s.pcs;
  }

  ghost function Releases(k: nat): seq<Event> {
    if k == 0 then [] else Releases(k - 1) + OneRelease()
  }

  lemma {:induction false} ReleasesReach(vendor: string, p: Plan, loadSeq: seq<string>, marked: bool, k: nat)
    requires k <= |Waits(p)|
    ensures
      var t := Run(vendor, Created(vendor, p, loadSeq, marked), Releases(k));
      t.waitIndex == t.landed == k && t.pcs == map[] && t.plan == p
  {
    if k > 0 {
      var j, s := k - 1, Created(vendor, p, loadSeq, marked);
      assert Releases(k) == Releases(j) + OneRelease();
      hide LineOf, Waits, Created, Next, Inv, Releases, OneRelease, Run;
      ReleasesReach(vendor, p, loadSeq, marked, j);
      RunKeepsInv(vendor, p, loadSeq, marked, Releases(j));
      RunConcat(vendor, s, Releases(j), OneRelease());
      OneReleaseAdvances(vendor, p, LineOf(vendor, p, loadSeq), loadSeq, Run(vendor, s, Releases(j)));
    }
  }

  /** A stale releaser of a segment without blocks: it loads at wait `w`, two releases pass it,
      and then its own append, which the fleet has no reason to refuse, writes `w + 1`. */
  function Overtaken(): seq<Event> {
    [Load(2)] + OneRelease() + OneRelease() + [Attempt(2, "", Delivered)]
  }

  lemma OvertakenRegresses(vendor: string, p: Plan, l: Line, loadSeq: seq<string>, s: World)
    requires l == LineOf(vendor, p, loadSeq) && Inv(p, l, s)
    requires s.waitIndex == s.landed && s.landed + 1 < |Waits(p)| && s.pcs == map[] && l.segs[s.landed] == []
    ensures
      var t := Run(vendor, s, Overtaken());
      Next(vendor, t, Advance(2, true)).waitIndex < t.waitIndex
  {
    var w := s.landed;
    var s1 := Next(vendor, s, Load(2));
    NextKeepsInv(vendor, p, loadSeq, s, Load(2));
    OneReleaseAdvances(vendor, p, l, loadSeq, s1);
    var s2 := Run(vendor, s1, OneRelease());
    RunKeepsInvFrom(vendor, p, loadSeq, s1, OneRelease());
    OneReleaseAdvances(vendor, p, l, loadSeq, s2);
    var s3 := Run(vendor, s2, OneRelease());
    RunKeepsInvFrom(vendor, p, loadSeq, s2, OneRelease());
    EmptyAttemptLands(vendor, p, l, loadSeq, s3, 2, w);
    OvertakenUnfolds(vendor, s);
  }

  lemma OvertakenUnfolds(vendor: string, s: World)
    ensures Run(vendor, s, Overtaken())
         == Next(
              vendor, Run(vendor, Run(vendor, Next(vendor, s, Load(2)), OneRelease()), OneRelease()),
              Attempt(2, "", Delivered))
  {
    var a := [Load(2)];
    RunOneMore(vendor, s, [], Load(2));
    assert [] + a == a;
    RunConcat(vendor, s, a, OneRelease());
    RunConcat(vendor, s, a + OneRelease(), OneRelease());
    RunOneMore(vendor, s, a + OneRelease() + OneRelease(), Attempt(2, "", Delivered));
  }

  lemma {:induction false} RunKeepsInvFrom(vendor: string, p: Plan, loadSeq: seq<string>, s: World, es: seq<Event>)
    requires Inv(p, LineOf(vendor, p, loadSeq), s)
    ensures Inv(p, LineOf(vendor, p, loadSeq), Run(vendor, s, es))
  {
    if es != [] {
      var front := es[..|es| - 1];
      RunKeepsInvFrom(vendor, p, loadSeq, s, front);
      NextKeepsInv(vendor, p, loadSeq, Run(vendor, s, front), es[|es| - 1]);
    }
  }

  lemma EmptyAttemptLands(vendor: string, p: Plan, l: Line, loadSeq: seq<string>, s: World, r: nat, w: nat)
    requires l == LineOf(vendor, p, loadSeq) && Inv(p, l, s)
    requires r in s.pcs && s.pcs[r].Loaded? && s.pcs[r].wait == w < |Waits(p)| && l.segs[w] == [] && w < s.landed
    ensures
      var t := Next(vendor, s, Attempt(r, "", Delivered));
      t.waitIndex == s.waitIndex && r in t.pcs && t.pcs[r] == Landed(w)
  {
    var q := s.pcs[r].plan;
    assert PcOk(p, s.landed, s.pcs[r]);
    SameWaits(p, q);
    LineIsWellNamed(vendor, p, loadSeq);
    AttemptedIds(vendor, p, q, w, "");
    AppendEffect(l, s, r, w, SegmentBlocks(vendor, q, w, ""), w + 1 == |Waits(q)|, Delivered);
  }

  ghost predicate NeverRegresses(vendor: string, s: World) {
    forall es: seq<Event>, e: Event :: Run(vendor, s, es).waitIndex <= Next(vendor, Run(vendor, s, es), e).waitIndex
  }

  /** The witness never moves backwards, over every run, exactly for the plans in which no bare
      wait stands directly behind another wait. */
  lemma WitnessNeverRegressesIff(vendor: string, p: Plan, loadSeq: seq<string>, marked: bool)
    ensures NeverRegresses(vendor, Created(vendor, p, loadSeq, marked)) <==> NoBareWaitBehindWait(p)
  {
    var s, l := Created(vendor, p, loadSeq, marked), LineOf(vendor, p, loadSeq);
    if NoBareWaitBehindWait(p) {
      InnerSegmentsSendIff(vendor, p, loadSeq);
      forall es: seq<Event>, e: Event
        ensures Run(vendor, s, es).waitIndex <= Next(vendor, Run(vendor, s, es), e).waitIndex
      {
        RunKeepsInv(vendor, p, loadSeq, marked, es);
        RunKeepsOrder(vendor, p, loadSeq, marked, es);
        NextKeepsOrder(vendor, p, l, loadSeq, Run(vendor, s, es), e);
      }
    } else {
      var w := HollowFromBareWait(p);
      SegmentIdsEmpty(vendor, p, w);
      ReleasesReach(vendor, p, loadSeq, marked, w);
      RunKeepsInv(vendor, p, loadSeq, marked, Releases(w));
      OvertakenRegresses(vendor, p, l, loadSeq, Run(vendor, s, Releases(w)));
      RunConcat(vendor, s, Releases(w), Overtaken());
      var es := Releases(w) + Overtaken();
      assert Next(vendor, Run(vendor, s, es), Advance(2, true)).waitIndex < Run(vendor, s, es).waitIndex;
    }
  }

  /** In such plans complete=true, once sent, is never withdrawn either. */
  lemma SealIsKept(vendor: string, p: Plan, loadSeq: seq<string>, marked: bool, es: seq<Event>)
    requires NoBareWaitBehindWait(p)
    ensures
      var s := Run(vendor, Created(vendor, p, loadSeq, marked), es);
      s.sealSent ==> s.sealed
  {
    RunKeepsOrder(vendor, p, loadSeq, marked, es);
  }

  // ---------------------------------------------------------------- a lost witness write

  /** The fleet is ahead of the witness, and no releaser knows it. */
  ghost predicate Wedged(p: Plan, l: Line, s: World) {
    && s.waitIndex < s.landed <= |l.segs|
    && Ids(s.blocks) == Held(l, s.landed)
    && SameShape(p, s.plan)
    && (forall w | 0 <= w <= s.waitIndex :: l.segs[w] != [])
    && (forall r | r in s.pcs :: s.pcs[r].Loaded? && s.pcs[r].wait <= s.waitIndex && SameShape(p, s.pcs[r].plan))
  }

  lemma WedgeHoldsOnAttempt(
    vendor: string, p: Plan, l: Line, loadSeq: seq<string>, s: World, r: nat, delivery: string, link: Link)
    requires l == LineOf(vendor, p, loadSeq) && Wedged(p, l, s) && r in s.pcs
    ensures Act(vendor, s, r, s.pcs[r], delivery, link) == s.(pcs := s.pcs - {r})
  {
    hide SegmentBlocks, Waits, LineOf;
    var pc := s.pcs[r];
    SameWaits(p, pc.plan);
    LineIsWellNamed(vendor, p, loadSeq);
    AttemptedIds(vendor, p, pc.plan, pc.wait, delivery);
    AppendEffect(
      l, s, r, pc.wait, SegmentBlocks(vendor, pc.plan, pc.wait, delivery), pc.wait + 1 == |Waits(pc.plan)|, link);
  }

  lemma WedgeHolds(vendor: string, p: Plan, l: Line, loadSeq: seq<string>, s: World, e: Event)
    requires l == LineOf(vendor, p, loadSeq) && Wedged(p, l, s)
    ensures Wedged(p, l, Next(vendor, s, e))
    ensures Next(vendor, s, e).blocks == s.blocks && Next(vendor, s, e).waitIndex == s.waitIndex
  {
    hide SegmentBlocks, Waits, LineOf, Act;
    match e
    case Attempt(r, delivery, link) =>
      if r in s.pcs {
        WedgeHoldsOnAttempt(vendor, p, l, loadSeq, s, r, delivery, link);
      }
    case Rewrite(to) =>
      if SameShape(s.plan, to) {
        SameShapeTransitive(p, s.plan, to);
      }
    case Load(r) =>
    case Advance(r, written) =>
  }

  /** The price of at-most-once: a segment whose witness write was lost is refused as a duplicate
      by every later release, so the rest of the plan is never sent. */
  lemma {:induction false} LostWitnessWedgesForever(
    vendor: string, p: Plan, loadSeq: seq<string>, s: World, es: seq<Event>)
    requires Wedged(p, LineOf(vendor, p, loadSeq), s)
    ensures
      var t := Run(vendor, s, es);
      Wedged(p, LineOf(vendor, p, loadSeq), t) && t.blocks == s.blocks && t.waitIndex == s.waitIndex
  {
    if es != [] {
      var front := es[..|es| - 1];
      LostWitnessWedgesForever(vendor, p, loadSeq, s, front);
      WedgeHolds(vendor, p, LineOf(vendor, p, loadSeq), loadSeq, Run(vendor, s, front), es[|es| - 1]);
    }
  }

  /** A release whose write fails, alone on a plan whose first segments all send, wedges it. */
  lemma FailedWriteWedges(vendor: string, p: Plan, l: Line, loadSeq: seq<string>, s: World)
    requires l == LineOf(vendor, p, loadSeq) && Inv(p, l, s)
    requires s.waitIndex == s.landed < |Waits(p)| && s.pcs == map[]
    requires forall w | 0 <= w <= s.landed :: l.segs[w] != []
    ensures Wedged(p, l, Run(vendor, s, [Load(1), Attempt(1, "", Delivered), Advance(1, false)]))
  {
    hide SegmentBlocks, Waits, LineOf, Act;
    RunThree(vendor, s, Load(1), Attempt(1, "", Delivered), Advance(1, false));
    NextKeepsInv(vendor, p, loadSeq, s, Load(1));
    var s1 := Next(vendor, s, Load(1));
    AttemptInLine(vendor, p, l, loadSeq, s1, 1);
    NextKeepsInv(vendor, p, loadSeq, s1, Attempt(1, "", Delivered));
  }
}
