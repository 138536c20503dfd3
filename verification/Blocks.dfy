/** Fleet blocks: how they are named, and how a plan's steps become them. */
module Blocks {
  import opened Decimals
  import opened Plans

  datatype Block = Block(id: string, location: string, binTask: string)

  const VENDOR_PREFIX := "sg-"

  /** mintVendorOrderID: the uuid fragment is the part Core does not control. */
  function VendorOrderId(orderId: int, fragment: string): string {
    VENDOR_PREFIX + ShowInt(orderId) + "-" + fragment
  }

  function Suffix(k: nat): string {
    if k == 0 then "" else "-" + Show(k)
  }

  /** mintBlockID, with the suffix the load sequence adds to its second and later blocks. */
  function BlockId(vendor: string, n: nat, k: nat): string {
    vendor + "-b" + Show(n) + Suffix(k)
  }

  function TaskFor(a: Action): string {
    match a
    case Pickup => "JackLoad"
    case Dropoff => "JackUnload"
    case Wait => "Wait"
  }

  /** The load leg as one same-location block per task of the load sequence. */
  function Expansion(vendor: string, n: nat, location: string, tasks: seq<string>): (bs: seq<Block>)
    ensures |bs| == |tasks|
  {
    seq(|tasks|, k requires 0 <= k < |tasks| => Block(BlockId(vendor, n, k), location, tasks[k]))
  }

  /** The blocks of one step numbered `n`. */
  function StepBlocks(vendor: string, s: Step, n: nat, tasks: seq<string>): seq<Block> {
    if !EmitsBlock(s) then []
    else if tasks != [] && s.action.Pickup? then Expansion(vendor, n, s.node, tasks)
    else [Block(BlockId(vendor, n, 0), s.node, TaskFor(s.action))]
  }

  /** The load sequence applies to the first pickup only. */
  function TasksAfter(s: Step, tasks: seq<string>): seq<string> {
    if s.action.Pickup? then [] else tasks
  }

  /** The blocks of `steps`, whose first step is numbered `n`. */
  function ToBlocks(vendor: string, steps: Plan, n: nat, tasks: seq<string>): seq<Block> {
    if steps == [] then []
    else
      StepBlocks(vendor, steps[0], n, tasks) +
      ToBlocks(vendor, steps[1..], n + 1, TasksAfter(steps[0], tasks))
  }

  predicate HasPickup(steps: Plan) {
    exists i | 0 <= i < |steps| :: steps[i].action.Pickup?
  }

  // ---------------------------------------------------------------- what is in the blocks

  /** The load sequence, if there is one, goes to the first pickup. */
  ghost predicate Expanded(steps: Plan, loadSeq: seq<string>, i: nat)
    requires i < |steps|
  {
    loadSeq != [] && steps[i].action == Pickup && forall j | 0 <= j < i :: steps[j].action != Pickup
  }

  /** How many blocks step `i` has. */
  ghost function Width(steps: Plan, loadSeq: seq<string>, i: nat): nat
    requires i < |steps|
  {
    if steps[i].action == Wait && steps[i].node == "" then 0
    else if Expanded(steps, loadSeq, i) then |loadSeq|
    else 1
  }

  /** Where the blocks of step `i` begin. */
  ghost function StartOf(steps: Plan, loadSeq: seq<string>, i: nat): nat
    requires i <= |steps|
  {
    if i == 0 then 0 else StartOf(steps, loadSeq, i - 1) + Width(steps, loadSeq, i - 1)
  }

  /** Block `k` of step `i`, whose number is `n`: at the step's node; loading, unloading or waiting as the step
      says; or, where the load sequence applies, its `k`-th task. */
  ghost predicate BlockFits(
    vendor: string, steps: Plan, n: nat, loadSeq: seq<string>, i: nat, k: nat, b: Block)
    requires i < |steps| && k < Width(steps, loadSeq, i)
  {
    && b.location == steps[i].node
    && b.id == vendor + "-b" + Show(n) + (if k == 0 then "" else "-" + Show(k))
    && (Expanded(steps, loadSeq, i) ==> b.binTask == loadSeq[k])
    && (!Expanded(steps, loadSeq, i) ==>
          && (steps[i].action == Pickup ==> b.binTask == "JackLoad")
          && (steps[i].action == Dropoff ==> b.binTask == "JackUnload")
          && (steps[i].action == Wait ==> b.binTask == "Wait"))
  }

  ghost predicate FitsAt(
    vendor: string, steps: Plan, n: nat, loadSeq: seq<string>, i: nat, k: nat, blocks: seq<Block>)
    requires i < |steps| && k < Width(steps, loadSeq, i)
  {
    var at := StartOf(steps, loadSeq, i) + k;
    at < |blocks| && BlockFits(vendor, steps, n + i, loadSeq, i, k, blocks[at])
  }

  /** `blocks` are the blocks of `steps`, the first of which is numbered `n`: step by step, nothing between. */
  ghost predicate BlocksAre(vendor: string, steps: Plan, n: nat, loadSeq: seq<string>, blocks: seq<Block>) {
    && |blocks| == StartOf(steps, loadSeq, |steps|)
    && forall i: nat, k: nat | i < |steps| && k < Width(steps, loadSeq, i) ::
         FitsAt(vendor, steps, n, loadSeq, i, k, blocks)
  }

  lemma {:induction false} FrontOfSteps(steps: Plan, loadSeq: seq<string>, m: nat, i: nat)
    requires i <= m <= |steps|
    ensures StartOf(steps[..m], loadSeq, i) == StartOf(steps, loadSeq, i)
    ensures i < m ==>
      && Width(steps[..m], loadSeq, i) == Width(steps, loadSeq, i)
      && (Expanded(steps[..m], loadSeq, i) <==> Expanded(steps, loadSeq, i))
  {
    if i > 0 {
      FrontOfSteps(steps, loadSeq, m, i - 1);
    }
  }

  /** What the definition by recursion comes to. */
  lemma {:induction false} ToBlocksAre(vendor: string, steps: Plan, n: nat, loadSeq: seq<string>)
    ensures BlocksAre(vendor, steps, n, loadSeq, ToBlocks(vendor, steps, n, loadSeq))
  {
    if steps != [] {
      var m := |steps| - 1;
      var front, last := steps[..m], steps[m];
      var tasks := if HasPickup(front) then [] else loadSeq;
      ToBlocksAre(vendor, front, n, loadSeq);
      assert steps == front + [last];
      ToBlocksConcat(vendor, front, [last], n, loadSeq);
      assert [last][1..] == [] && ToBlocks(vendor, [last], n + m, tasks) == StepBlocks(vendor, last, n + m, tasks);
      AppendBlocks(
        vendor, steps, n, loadSeq, ToBlocks(vendor, front, n, loadSeq), StepBlocks(vendor, last, n + m, tasks));
    }
  }

  lemma LastStepBlocks(vendor: string, steps: Plan, n: nat, loadSeq: seq<string>, m: nat, tasks: seq<string>)
    requires m + 1 == |steps| && tasks == if HasPickup(steps[..m]) then [] else loadSeq
    ensures
      var more := StepBlocks(vendor, steps[m], n, tasks);
      && |more| == Width(steps, loadSeq, m)
      && forall k: nat | k < |more| :: BlockFits(vendor, steps, n, loadSeq, m, k, more[k])
  {
    if HasPickup(steps[..m]) {
      var j :| 0 <= j < m && steps[..m][j].action.Pickup?;
      assert steps[j].action == Pickup;
    } else {
      forall j | 0 <= j < m
        ensures steps[j].action != Pickup
      {
        assert steps[..m][j] == steps[j];
      }
    }
  }

  lemma AppendBlocks(
    vendor: string, steps: Plan, n: nat, loadSeq: seq<string>, blocks: seq<Block>, more: seq<Block>)
    requires steps != []
    requires
      var m := |steps| - 1;
      && BlocksAre(vendor, steps[..m], n, loadSeq, blocks)
      && more == StepBlocks(vendor, steps[m], n + m, if HasPickup(steps[..m]) then [] else loadSeq)
    ensures BlocksAre(vendor, steps, n, loadSeq, blocks + more)
  {
    var m := |steps| - 1;
    LastStepBlocks(vendor, steps, n + m, loadSeq, m, if HasPickup(steps[..m]) then [] else loadSeq);
    FrontOfSteps(steps, loadSeq, m, m);
    assert |blocks + more| == StartOf(steps, loadSeq, m + 1);
    hide StepBlocks, HasPickup, BlockFits, Width, StartOf;
    forall i: nat, k: nat | i < |steps| && k < Width(steps, loadSeq, i)
      ensures FitsAt(vendor, steps, n, loadSeq, i, k, blocks + more)
    {
      if i < m {
        FitsInFront(vendor, steps, n, loadSeq, m, i, k, blocks, more);
      }
    }
  }

  lemma FitsInFront(
    vendor: string, steps: Plan, n: nat, loadSeq: seq<string>, m: nat, i: nat, k: nat, blocks: seq<Block>,
    more: seq<Block>)
    requires i < m <= |steps| && k < Width(steps, loadSeq, i) && BlocksAre(vendor, steps[..m], n, loadSeq, blocks)
    ensures FitsAt(vendor, steps, n, loadSeq, i, k, blocks + more)
  {
    FrontOfSteps(steps, loadSeq, m, i);
    assert FitsAt(vendor, steps[..m], n, loadSeq, i, k, blocks);
    hide BlocksAre, BlockFits, Width, StartOf;
    SameFit(vendor, steps, m, n + i, loadSeq, i, k, blocks[StartOf(steps, loadSeq, i) + k]);
  }

  lemma SameFit(vendor: string, steps: Plan, m: nat, n: nat, loadSeq: seq<string>, i: nat, k: nat, b: Block)
    requires i < m <= |steps| && k < Width(steps, loadSeq, i)
    ensures k < Width(steps[..m], loadSeq, i)
    ensures BlockFits(vendor, steps[..m], n, loadSeq, i, k, b) <==> BlockFits(vendor, steps, n, loadSeq, i, k, b)
  {
    FrontOfSteps(steps, loadSeq, m, i);
  }

  /** stepsToBlocks: the loop over the segment, numbering from `blockOffset + 1`. */
  method StepsToBlocks(vendor: string, steps: Plan, blockOffset: nat, loadSeq: seq<string>)
    returns (blocks: seq<Block>)
    ensures BlocksAre(vendor, steps, blockOffset + 1, loadSeq, blocks)
    ensures blocks == ToBlocks(vendor, steps, blockOffset + 1, loadSeq)
  {
    hide BlocksAre;
    blocks := [];
    var loadExpanded := false;
    ghost var tasks := loadSeq;
    for i := 0 to |steps|
      invariant tasks == loadSeq || (tasks == [] && |loadSeq| > 0 && loadExpanded)
      invariant tasks == loadSeq ==> !loadExpanded || loadSeq == []
      invariant ToBlocks(vendor, steps, blockOffset + 1, loadSeq)
             == blocks + ToBlocks(vendor, steps[i..], blockOffset + i + 1, tasks)
    {
      hide ToBlocks, BlockId;
      var s := steps[i];
      var base := blockOffset + i + 1;
      var more;
      if s.action.Wait? && s.node == "" {
        more := [];
      } else if |loadSeq| > 0 && !loadExpanded && s.action.Pickup? {
        loadExpanded := true;
        more := ExpandLoad(vendor, base, s.node, loadSeq);
      } else {
        more := [Block(BlockId(vendor, base, 0), s.node, TaskFor(s.action))];
      }
      assert more == StepBlocks(vendor, s, base, tasks);
      ToBlocksUnfold(vendor, steps, i, base, tasks);
      Regroup(blocks, more, ToBlocks(vendor, steps[i + 1..], base + 1, TasksAfter(s, tasks)));
      blocks := blocks + more;
      tasks := TasksAfter(s, tasks);
    }
    assert steps[|steps|..] == [] && blocks + [] == blocks;
    ToBlocksAre(vendor, steps, blockOffset + 1, loadSeq);
  }

  /** The inner loop of stepsToBlocks. */
  method ExpandLoad(vendor: string, base: nat, location: string, loadSeq: seq<string>) returns (blocks: seq<Block>)
    ensures blocks == Expansion(vendor, base, location, loadSeq)
  {
    blocks := [];
    for k := 0 to |loadSeq|
      invariant blocks == Expansion(vendor, base, location, loadSeq)[..k]
    {
      blocks := blocks + [Block(BlockId(vendor, base, k), location, loadSeq[k])];
    }
  }

  lemma Regroup<T>(a: seq<T>, b: seq<T>, c: seq<T>)
    ensures a + (b + c) == a + b + c
  {
  }

  lemma ToBlocksUnfold(vendor: string, steps: Plan, i: nat, n: nat, tasks: seq<string>)
    requires i < |steps|
    ensures ToBlocks(vendor, steps[i..], n, tasks)
         == StepBlocks(vendor, steps[i], n, tasks)
          + ToBlocks(vendor, steps[i + 1..], n + 1, TasksAfter(steps[i], tasks))
  {
    assert steps[i..][1..] == steps[i + 1..];
  }

  lemma {:induction false} ToBlocksConcat(vendor: string, a: Plan, b: Plan, n: nat, tasks: seq<string>)
    ensures ToBlocks(vendor, a + b, n, tasks)
         == ToBlocks(vendor, a, n, tasks) + ToBlocks(vendor, b, n + |a|, if HasPickup(a) then [] else tasks)
  {
    if a == [] {
      assert a + b == b;
    } else {
      assert (a + b)[1..] == a[1..] + b;
      ToBlocksConcat(vendor, a[1..], b, n + 1, TasksAfter(a[0], tasks));
      HasPickupTail(a);
      var rest := if HasPickup(a) then [] else tasks;
      assert ToBlocks(vendor, a + b, n, tasks)
          == StepBlocks(vendor, a[0], n, tasks) + ToBlocks(vendor, a[1..] + b, n + 1, TasksAfter(a[0], tasks));
      hide StepBlocks, HasPickup, ToBlocks;
      Regroup(
        StepBlocks(vendor, a[0], n, tasks),
        ToBlocks(vendor, a[1..], n + 1, TasksAfter(a[0], tasks)),
        ToBlocks(vendor, b, n + |a|, rest));
      ToBlocksUnfold(vendor, a, 0, n, tasks);
      assert a[0..] == a;
    }
  }

  lemma HasPickupTail(a: Plan)
    requires a != []
    ensures HasPickup(a) <==> a[0].action.Pickup? || HasPickup(a[1..])
  {
    if HasPickup(a) && !a[0].action.Pickup? {
      var i :| 0 <= i < |a| && a[i].action.Pickup?;
      assert a[1..][i - 1].action.Pickup?;
    }
    if HasPickup(a[1..]) {
      var i :| 0 <= i < |a| - 1 && a[1..][i].action.Pickup?;
      assert a[i + 1].action.Pickup?;
    }
  }

  lemma {:induction false} TasksUnusedWithoutPickup(vendor: string, a: Plan, n: nat, tasks: seq<string>)
    requires !HasPickup(a)
    ensures ToBlocks(vendor, a, n, tasks) == ToBlocks(vendor, a, n, [])
  {
    if a != [] {
      HasPickupTail(a);
      TasksUnusedWithoutPickup(vendor, a[1..], n + 1, tasks);
    }
  }

  // ---------------------------------------------------------------- the whole plan

  /** What the fleet holds after the create and `k` appended segments. */
  function SentBlocks(vendor: string, p: Plan, loadSeq: seq<string>, k: nat): seq<Block>
    requires k <= |Waits(p)|
  {
    if k == 0 then ToBlocks(vendor, PreWait(p), 1, loadSeq)
    else
      SentBlocks(vendor, p, loadSeq, k - 1) +
      ToBlocks(vendor, Segment(p, k - 1), BlockOffset(p, k - 1) + 1, [])
  }

  /** The load sequence that takes effect: only a create that holds a pickup is expanded. */
  function EffectiveTasks(p: Plan, loadSeq: seq<string>): seq<string> {
    if HasPickup(PreWait(p)) then loadSeq else []
  }

  lemma SentBlocksStep(vendor: string, p: Plan, loadSeq: seq<string>, w: nat)
    requires w < |Waits(p)|
    ensures SentBlocks(vendor, p, loadSeq, w + 1)
         == SentBlocks(vendor, p, loadSeq, w) + ToBlocks(vendor, Segment(p, w), BlockOffset(p, w) + 1, [])
  {
  }

  lemma {:induction false} PickupIsReleased(p: Plan, k: nat)
    requires k <= |Waits(p)| && HasPickup(PreWait(p))
    ensures HasPickup(Released(p, k))
  {
    if k == 0 {
    } else {
      var w := k - 1;
      PickupIsReleased(p, w);
      ReleasedStep(p, w);
      var i :| 0 <= i < |Released(p, w)| && Released(p, w)[i].action.Pickup?;
      assert Released(p, w + 1)[i].action.Pickup?;
    }
  }

  /** The create and the segments, each numbered from its own offset, number the plan's
      block-producing steps 1, 2, 3, ... without gap or restart. */
  lemma {:induction false} SentIsNumberedPrefix(vendor: string, p: Plan, loadSeq: seq<string>, k: nat)
    requires k <= |Waits(p)|
    ensures SentBlocks(vendor, p, loadSeq, k)
         == ToBlocks(vendor, Released(p, k), 1, EffectiveTasks(p, loadSeq))
  {
    if k == 0 {
      if !HasPickup(PreWait(p)) {
        TasksUnusedWithoutPickup(vendor, PreWait(p), 1, loadSeq);
      }
    } else {
      var w := k - 1;
      SentIsNumberedPrefix(vendor, p, loadSeq, w);
      SentBlocksStep(vendor, p, loadSeq, w);
      ReleasedStep(p, w);
      AppendContinuesNumbering(vendor, p, loadSeq, w);
    }
  }

  lemma AppendContinuesNumbering(vendor: string, p: Plan, loadSeq: seq<string>, w: nat)
    requires w < |Waits(p)|
    ensures ToBlocks(vendor, Released(p, w) + Segment(p, w), 1, EffectiveTasks(p, loadSeq))
         == ToBlocks(vendor, Released(p, w), 1, EffectiveTasks(p, loadSeq))
          + ToBlocks(vendor, Segment(p, w), BlockOffset(p, w) + 1, [])
  {
    OffsetCountsReleased(p, w);
    ToBlocksConcat(vendor, Released(p, w), Segment(p, w), 1, EffectiveTasks(p, loadSeq));
    if HasPickup(PreWait(p)) {
      PickupIsReleased(p, w);
    }
  }

  /** The whole plan is sent when its last segment is. */
  lemma WholePlanIsSent(vendor: string, p: Plan, loadSeq: seq<string>)
    ensures SentBlocks(vendor, p, loadSeq, |Waits(p)|)
         == ToBlocks(vendor, BlockSteps(p), 1, EffectiveTasks(p, loadSeq))
  {
    SentIsNumberedPrefix(vendor, p, loadSeq, |Waits(p)|);
    SegmentsPartitionPlan(p);
  }

  // ---------------------------------------------------------------- block ids

  ghost predicate StopsDigits(s: string) {
    s == [] || !IsDigit(s[0])
  }

  /** A run of digits followed by something else can be read back in one way only. */
  lemma DigitRunSplits(a: string, x: string, b: string, y: string)
    requires AllDigits(a) && AllDigits(b) && StopsDigits(x) && StopsDigits(y)
    requires a + x == b + y
    ensures a == b && x == y
  {
    assert forall k | 0 <= k < |a| :: IsDigit((a + x)[k]);
    assert forall k | 0 <= k < |b| :: IsDigit((b + y)[k]);
    assert |a| < |a + x| ==> !IsDigit((a + x)[|a|]);
    assert |b| < |b + y| ==> !IsDigit((b + y)[|b|]);
    assert (a + x)[..|a|] == a && (b + y)[..|a|] == b;
    assert (a + x)[|a|..] == x && (b + y)[|a|..] == y;
  }

  lemma SameHead(a: string, x: string, y: string)
    requires a + x == a + y
    ensures x == y
  {
    assert (a + x)[|a|..] == x && (a + y)[|a|..] == y;
  }

  lemma SuffixInjective(j: nat, k: nat)
    requires Suffix(j) == Suffix(k)
    ensures j == k
  {
    if j > 0 && k > 0 {
      SameHead("-", Show(j), Show(k));
      ShowInjective(j, k);
    }
  }

  lemma NamedPartsSplit(h: string, a: string, x: string, b: string, y: string)
    requires AllDigits(a) && AllDigits(b) && StopsDigits(x) && StopsDigits(y)
    requires h + a + x == h + b + y
    ensures a == b && x == y
  {
    assert h + a + x == h + (a + x);
    assert h + b + y == h + (b + y);
    SameHead(h, a + x, b + y);
    DigitRunSplits(a, x, b, y);
  }

  /** Within one vendor order a block id names one step number and one load task. */
  lemma BlockIdInjective(vendor: string, m: nat, j: nat, n: nat, k: nat)
    requires BlockId(vendor, m, j) == BlockId(vendor, n, k)
    ensures m == n && j == k
  {
    NamedPartsSplit(vendor + "-b", Show(m), Suffix(j), Show(n), Suffix(k));
    ShowInjective(m, n);
    SuffixInjective(j, k);
  }

  lemma ShowIntFirst(i: int)
    ensures i < 0 <==> ShowInt(i)[0] == '-'
  {
    if i >= 0 {
      assert IsDigit(Show(i)[0]);
    }
  }

  lemma ShowIntOf(i: int)
    ensures ShowInt(i) == if i < 0 then "-" + Show(-i) else Show(i)
  {
  }

  lemma SameSign(h: string, i: int, x: string, j: int, y: string)
    requires h + ShowInt(i) + x == h + ShowInt(j) + y
    ensures i < 0 <==> j < 0
  {
    ShowIntFirst(i);
    ShowIntFirst(j);
    hide ShowInt;
    assert (h + ShowInt(i) + x)[|h|] == ShowInt(i)[0];
    assert (h + ShowInt(j) + y)[|h|] == ShowInt(j)[0];
  }

  lemma ShowIntThenDash(h: string, i: int, x: string, j: int, y: string)
    requires StopsDigits(x) && StopsDigits(y)
    requires h + ShowInt(i) + x == h + ShowInt(j) + y
    ensures i == j
  {
    hide Show, ShowInt;
    SameSign(h, i, x, j, y);
    ShowIntOf(i);
    ShowIntOf(j);
    if i < 0 {
      assert h + ShowInt(i) == h + "-" + Show(-i);
      assert h + ShowInt(j) == h + "-" + Show(-j);
      NamedPartsSplit(h + "-", Show(-i), x, Show(-j), y);
      ShowInjective(-i, -j);
    } else {
      NamedPartsSplit(h, Show(i), x, Show(j), y);
      ShowInjective(i, j);
    }
  }

  /** What follows the order number in a block id. */
  function AfterOrder(fragment: string, n: nat, k: nat): (s: string)
    ensures s != [] && s[0] == '-'
  {
    "-" + fragment + "-b" + Show(n) + Suffix(k)
  }

  lemma BlockIdShape(o: int, f: string, n: nat, k: nat)
    ensures BlockId(VendorOrderId(o, f), n, k) == VENDOR_PREFIX + ShowInt(o) + AfterOrder(f, n, k)
  {
    var h, d, s := VENDOR_PREFIX + ShowInt(o), Show(n), Suffix(k);
    assert h + "-" + f + "-b" + d + s == h + ("-" + f + "-b" + d + s);
  }

  /** Blocks of different orders never share an id, whatever their uuid fragments and numbers. */
  lemma BlockIdsOfDifferentOrdersDiffer(o: int, f: string, m: nat, j: nat, o': int, f': string, n: nat, k: nat)
    requires o != o'
    ensures BlockId(VendorOrderId(o, f), m, j) != BlockId(VendorOrderId(o', f'), n, k)
  {
    BlockIdShape(o, f, m, j);
    BlockIdShape(o', f', n, k);
    if VENDOR_PREFIX + ShowInt(o) + AfterOrder(f, m, j) == VENDOR_PREFIX + ShowInt(o') + AfterOrder(f', n, k) {
      ShowIntThenDash(VENDOR_PREFIX, o, AfterOrder(f, m, j), o', AfterOrder(f', n, k));
    }
  }

  // ---------------------------------------------------------------- distinctness

  /** The (step number, load task) pairs behind a block list. */
  ghost function Keys(steps: Plan, n: nat, tasks: seq<string>): (ks: seq<(nat, nat)>) {
    if steps == [] then []
    else StepKeys(steps[0], n, tasks) + Keys(steps[1..], n + 1, TasksAfter(steps[0], tasks))
  }

  ghost function StepKeys(s: Step, n: nat, tasks: seq<string>): (ks: seq<(nat, nat)>) {
    if !EmitsBlock(s) then []
    else if tasks != [] && s.action.Pickup? then seq(|tasks|, k requires 0 <= k < |tasks| => (n, k))
    else [(n, 0)]
  }

  ghost function Ids(bs: seq<Block>): (ids: seq<string>)
    ensures |ids| == |bs|
  {
    seq(|bs|, i requires 0 <= i < |bs| => bs[i].id)
  }

  ghost function KeyIds(vendor: string, ks: seq<(nat, nat)>): (ids: seq<string>)
    ensures |ids| == |ks|
  {
    seq(|ks|, i requires 0 <= i < |ks| => BlockId(vendor, ks[i].0, ks[i].1))
  }

  ghost predicate Distinct<T>(s: seq<T>) {
    forall i, j | 0 <= i < j < |s| :: s[i] != s[j]
  }

  lemma {:induction false} IdsAreKeyIds(vendor: string, steps: Plan, n: nat, tasks: seq<string>)
    ensures Ids(ToBlocks(vendor, steps, n, tasks)) == KeyIds(vendor, Keys(steps, n, tasks))
  {
    if steps != [] {
      var rest := TasksAfter(steps[0], tasks);
      IdsAreKeyIds(vendor, steps[1..], n + 1, rest);
      StepIdsAreKeyIds(vendor, steps[0], n, tasks);
      IdsConcat(StepBlocks(vendor, steps[0], n, tasks), ToBlocks(vendor, steps[1..], n + 1, rest));
      KeyIdsConcat(vendor, StepKeys(steps[0], n, tasks), Keys(steps[1..], n + 1, rest));
    }
  }

  lemma IdsConcat(a: seq<Block>, b: seq<Block>)
    ensures Ids(a + b) == Ids(a) + Ids(b)
  {
  }

  lemma KeyIdsConcat(vendor: string, a: seq<(nat, nat)>, b: seq<(nat, nat)>)
    ensures KeyIds(vendor, a + b) == KeyIds(vendor, a) + KeyIds(vendor, b)
  {
  }

  lemma StepIdsAreKeyIds(vendor: string, s: Step, n: nat, tasks: seq<string>)
    ensures Ids(StepBlocks(vendor, s, n, tasks)) == KeyIds(vendor, StepKeys(s, n, tasks))
  {
  }

  ghost predicate Before(a: (nat, nat), b: (nat, nat)) {
    a.0 < b.0 || (a.0 == b.0 && a.1 < b.1)
  }

  ghost predicate Increasing(ks: seq<(nat, nat)>) {
    forall i, j | 0 <= i < j < |ks| :: Before(ks[i], ks[j])
  }

  lemma {:induction false} KeysIncrease(steps: Plan, n: nat, tasks: seq<string>)
    ensures Increasing(Keys(steps, n, tasks))
    ensures forall i | 0 <= i < |Keys(steps, n, tasks)| :: n <= Keys(steps, n, tasks)[i].0 < n + |steps|
  {
    if steps != [] {
      KeysIncrease(steps[1..], n + 1, TasksAfter(steps[0], tasks));
    }
  }

  /** No two blocks of a plan share an id. */
  lemma IdsDistinct(vendor: string, steps: Plan, n: nat, tasks: seq<string>)
    ensures Distinct(Ids(ToBlocks(vendor, steps, n, tasks)))
  {
    var ks := Keys(steps, n, tasks);
    IdsAreKeyIds(vendor, steps, n, tasks);
    KeysIncrease(steps, n, tasks);
    forall i, j | 0 <= i < j < |ks|
      ensures KeyIds(vendor, ks)[i] != KeyIds(vendor, ks)[j]
    {
      assert Before(ks[i], ks[j]);
      if BlockId(vendor, ks[i].0, ks[i].1) == BlockId(vendor, ks[j].0, ks[j].1) {
        BlockIdInjective(vendor, ks[i].0, ks[i].1, ks[j].0, ks[j].1);
      }
    }
  }

  /** Step number `n + i` is used by step `i` and by no other, so a plan is numbered without gaps. */
  lemma {:induction false} NumberedWithoutGap(steps: Plan, n: nat, tasks: seq<string>, i: nat)
    requires i < |steps| && forall k | 0 <= k < |steps| :: EmitsBlock(steps[k])
    ensures (n + i, 0) in Keys(steps, n, tasks)
  {
    var front := StepKeys(steps[0], n, tasks);
    if i == 0 {
      assert (n, 0) == front[0];
      assert Keys(steps, n, tasks)[0] == front[0];
    } else {
      NumberedWithoutGap(steps[1..], n + 1, TasksAfter(steps[0], tasks), i - 1);
    }
  }
}
