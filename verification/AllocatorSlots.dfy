/** The destination-slot half of the reserve tick. */
module AllocatorSlots {
  import opened Plans
  import opened Reservations
  import opened Allocator
  import opened AllocatorFacts
  import opened PlanShape

  datatype SlotNeed = SlotNeed(index: nat, node: string, group: string)

  /** A dropoff needs a slot if it is a storage slot by structure or was declared exclusive. */
  predicate NeedsSlot(s: Step, storage: set<string>) {
    s.action.Dropoff? && s.node != "" && (s.exclusiveSlot || s.node in storage)
  }

  /** Exactly the needed dropoffs, each once and in plan order. */
  function SlotNeedsOf(p: Plan, storage: set<string>): (ns: seq<SlotNeed>)
    ensures forall n | n in ns ::
      && n.index < |p| && n.node == p[n.index].node && n.group == p[n.index].group
      && p[n.index].action == Dropoff && n.node != "" && (p[n.index].exclusiveSlot || n.node in storage)
    ensures forall i | 0 <= i < |p| && p[i].action == Dropoff && p[i].node != "" ::
      p[i].exclusiveSlot || p[i].node in storage ==> SlotNeed(i, p[i].node, p[i].group) in ns
    ensures forall j, k | 0 <= j < k < |ns| :: ns[j].index < ns[k].index
  {
    if p == [] then []
    else
      var m := |p| - 1;
      var front := SlotNeedsOf(p[..m], storage);
      if NeedsSlot(p[m], storage) then
        assert forall k | 0 <= k < |front| :: front[k] in front;
        front + [SlotNeed(m, p[m].node, p[m].group)]
      else front
  }

  function Nodes(ns: seq<SlotNeed>): set<string> {
    set n | n in ns :: n.node
  }

  ghost predicate Owns(rows: seq<Row>, o: nat, node: string) {
    HasRow(rows, o, SlotRef(node))
  }

  /** The order can have this slot: it holds it, or the node resolves and nobody has reserved it. */
  ghost predicate Obtainable(f: Floor, rows: seq<Row>, o: nat, node: string) {
    Owns(rows, o, node) || (node in f.nodes && !Reserved(rows, SlotRef(node)))
  }

  ghost predicate DistinctNodes(ns: seq<SlotNeed>) {
    forall i, j | 0 <= i < j < |ns| :: ns[i].node != ns[j].node
  }

  ghost predicate Grantable(f: Floor, rows: seq<Row>, o: nat, ns: seq<SlotNeed>) {
    DistinctNodes(ns) && forall n | n in ns :: Obtainable(f, rows, o, n.node)
  }

  lemma GrantableSnoc(f: Floor, rows: seq<Row>, o: nat, ns: seq<SlotNeed>, n: SlotNeed)
    ensures Grantable(f, rows, o, ns + [n]) <==>
      Grantable(f, rows, o, ns) && n.node !in Nodes(ns) && Obtainable(f, rows, o, n.node)
    ensures Nodes(ns + [n]) == Nodes(ns) + {n.node}
  {
    var all := ns + [n];
    if Grantable(f, rows, o, all) {
      forall m | m in ns ensures m in all && m.node != n.node {
        var i :| 0 <= i < |ns| && ns[i] == m;
        assert all[i] == m && all[|ns|] == n;
      }
      assert n in all;
      forall i, j | 0 <= i < j < |ns| ensures ns[i].node != ns[j].node {
        assert all[i] == ns[i] && all[j] == ns[j];
      }
    }
    if Grantable(f, rows, o, ns) && n.node !in Nodes(ns) {
      forall i | 0 <= i < |ns| ensures ns[i].node != n.node {
        assert ns[i] in ns;
      }
    }
  }

  /** Walking the needs so far: the rows grew by pending rows on just the needed slots that were free,
      the used holds are just those on needed slots, and nothing is missing while all was grantable. */
  ghost predicate SlotInv(
    f: Floor, o: nat, before: seq<Row>, rows: seq<Row>, held: seq<Held>, missing: nat, ns: seq<SlotNeed>)
  {
    && Unique(rows)
    && (forall r :: r in rows <==>
          r in before
          || (r.order == o && r.ref.SlotRef? && !r.confirmed && r.ref.node in Nodes(ns)
              && !Owns(before, o, r.ref.node) && Obtainable(f, before, o, r.ref.node)))
    && HoldsOf(f, Book(before, map[]), o, held)
    && (forall h | h in held :: h.used <==> h.ref.SlotRef? && h.node in Nodes(ns))
    && (missing == 0 <==> Grantable(f, before, o, ns))
  }

  lemma SlotStart(f: Floor, o: nat, before: seq<Row>)
    requires Unique(before)
    ensures SlotInv(f, o, before, before, ResolveAll(f, Keep(before, Of(o))), 0, [])
  {
  }

  lemma SlotInvUnique(
    f: Floor, o: nat, before: seq<Row>, rows: seq<Row>, held: seq<Held>, missing: nat, ns: seq<SlotNeed>)
    requires SlotInv(f, o, before, rows, held, missing, ns)
    ensures Unique(rows)
  {
  }

  predicate SlotMatches(h: Held, node: string) {
    !h.used && h.ref.SlotRef? && h.node != "" && h.node == node
  }

  function FirstSlot(held: seq<Held>, node: string, from: nat): (k: nat)
    requires from <= |held|
    ensures from <= k <= |held|
    ensures k < |held| ==> SlotMatches(held[k], node)
    ensures forall j | from <= j < k :: !SlotMatches(held[j], node)
    decreases |held| - from
  {
    if from == |held| || SlotMatches(held[from], node) then from else FirstSlot(held, node, from + 1)
  }

  // ---- the walk over the needs ----

  datatype SlotTick = SlotTick(book: Book, held: seq<Held>, missing: nat)

  function SlotVisit(f: Floor, o: nat, t: SlotTick, n: SlotNeed): SlotTick {
    var k := FirstSlot(t.held, n.node, 0);
    if k < |t.held| then t.(held := t.held[k := t.held[k].(used := true)])
    else if n.node !in f.nodes || Reserved(t.book.rows, SlotRef(n.node)) then t.(missing := t.missing + 1)
    else t.(book := Acquire(t.book, o, SlotRef(n.node)))
  }

  function SlotWalk(f: Floor, o: nat, t: SlotTick, ns: seq<SlotNeed>): SlotTick {
    if ns == [] then t else SlotVisit(f, o, SlotWalk(f, o, t, ns[..|ns| - 1]), ns[|ns| - 1])
  }

  predicate IsSlotStray(h: Held) {
    !h.used && h.ref.SlotRef?
  }

  function DropSlotStrays(b: Book, o: nat, held: seq<Held>): Book {
    if held == [] then b
    else
      var front := DropSlotStrays(b, o, held[..|held| - 1]);
      var h := held[|held| - 1];
      if !IsSlotStray(h) then front
      else if h.confirmed then ReleaseClaim(front, o, h.ref)
      else Release(front, o, h.ref)
  }

  function SlotListed(f: Floor, b: Book, o: nat): SlotTick {
    SlotTick(b, ResolveAll(f, Keep(b.rows, Of(o))), 0)
  }

  function SlotReserve(f: Floor, o: nat, b: Book, ns: seq<SlotNeed>): SlotTick {
    var t := SlotWalk(f, o, SlotListed(f, b, o), ns);
    t.(book := DropSlotStrays(t.book, o, t.held))
  }

  // ---- what the walk keeps ----

  lemma SlotHoldNames(f: Floor, before: seq<Row>, o: nat, held: seq<Held>, h: Held)
    requires HoldsOf(f, Book(before, map[]), o, held) && h in held && h.ref.SlotRef?
    ensures h.node == h.ref.node && Owns(before, o, h.node)
  {
    var own := Keep(before, Of(o));
    var i :| 0 <= i < |held| && held[i] == h;
    assert held[i].(used := false) == Resolve(f, own[i]);
    HeldRowIsOwn(f, Book(before, map[]), o, held, h);
  }

  /** A hold is found exactly for a slot the order owned and no earlier need has used. */
  lemma MatchIffOwnedAndNew(
    f: Floor, o: nat, before: seq<Row>, rows: seq<Row>, held: seq<Held>, missing: nat, ns: seq<SlotNeed>,
    node: string)
    requires SlotInv(f, o, before, rows, held, missing, ns) && node != ""
    ensures FirstSlot(held, node, 0) < |held| <==> Owns(before, o, node) && node !in Nodes(ns)
  {
    var k := FirstSlot(held, node, 0);
    if k < |held| {
      SlotHoldNames(f, before, o, held, held[k]);
    }
    if Owns(before, o, node) {
      var r :| r in before && r.order == o && r.ref == SlotRef(node);
      OwnRowIsHeld(f, Book(before, map[]), o, held, r);
      var i :| 0 <= i < |held| && held[i].ref == SlotRef(node);
      SlotHoldNames(f, before, o, held, held[i]);
      assert held[i] in held;
      assert node !in Nodes(ns) ==> SlotMatches(held[i], node);
    }
  }

  lemma OwnedSlotIsReserved(rows: seq<Row>, o: nat, node: string)
    requires Owns(rows, o, node)
    ensures Reserved(rows, SlotRef(node))
  {
    var r :| r in rows && r.order == o && r.ref == SlotRef(node);
    var i :| 0 <= i < |rows| && rows[i] == r;
  }

  lemma ReservedMeansRow(rows: seq<Row>, ref: Ref)
    ensures Reserved(rows, ref) <==> exists r | r in rows :: r.ref == ref
  {
    if exists r | r in rows :: r.ref == ref {
      var r :| r in rows && r.ref == ref;
      var i :| 0 <= i < |rows| && rows[i] == r;
    }
  }

  lemma KeepHold(
    f: Floor, o: nat, before: seq<Row>, rows: seq<Row>, held: seq<Held>, missing: nat, ns: seq<SlotNeed>,
    n: SlotNeed, k: nat)
    requires SlotInv(f, o, before, rows, held, missing, ns) && Unique(before)
    requires k < |held| && SlotMatches(held[k], n.node)
    ensures SlotInv(f, o, before, rows, held[k := held[k].(used := true)], missing, ns + [n])
  {
    var marked := held[k := held[k].(used := true)];
    GrantableSnoc(f, before, o, ns, n);
    SlotHoldNames(f, before, o, held, held[k]);
    forall h | h in marked
      ensures h.used <==> h.ref.SlotRef? && h.node in Nodes(ns + [n])
    {
      var i :| 0 <= i < |marked| && marked[i] == h;
      if i != k {
        HeldRefsDistinct(f, Book(before, map[]), o, held, i, k);
        assert held[i] in held;
        if h.ref.SlotRef? {
          SlotHoldNames(f, before, o, held, held[i]);
        }
      }
    }
  }

  lemma TakeSlot(
    f: Floor, o: nat, before: seq<Row>, rows: seq<Row>, held: seq<Held>, missing: nat, ns: seq<SlotNeed>, n: SlotNeed)
    requires SlotInv(f, o, before, rows, held, missing, ns)
    requires n.node in f.nodes && !Reserved(rows, SlotRef(n.node))
    ensures SlotInv(f, o, before, rows + [Row(o, SlotRef(n.node), false)], held, missing, ns + [n])
  {
    GrantableSnoc(f, before, o, ns, n);
    ReservedMeansRow(rows, SlotRef(n.node));
    ReservedMeansRow(before, SlotRef(n.node));
    if Owns(before, o, n.node) {
      OwnedSlotIsReserved(before, o, n.node);
    }
    assert n.node in Nodes(ns) ==> Row(o, SlotRef(n.node), false) in rows;
    forall h | h in held && h.ref.SlotRef?
      ensures h.node != n.node
    {
      SlotHoldNames(f, before, o, held, h);
    }
  }

  lemma MissSlot(
    f: Floor, o: nat, before: seq<Row>, rows: seq<Row>, held: seq<Held>, missing: nat, ns: seq<SlotNeed>, n: SlotNeed)
    requires SlotInv(f, o, before, rows, held, missing, ns)
    requires n.node != "" && FirstSlot(held, n.node, 0) == |held|
    requires n.node in f.nodes ==> Reserved(rows, SlotRef(n.node))
    ensures SlotInv(f, o, before, rows, held, missing + 1, ns + [n])
  {
    GrantableSnoc(f, before, o, ns, n);
    MatchIffOwnedAndNew(f, o, before, rows, held, missing, ns, n.node);
    ReservedMeansRow(rows, SlotRef(n.node));
    ReservedMeansRow(before, SlotRef(n.node));
    forall h | h in held && h.ref.SlotRef? && h.node == n.node
      ensures h.used
    {
      SlotHoldNames(f, before, o, held, h);
    }
  }

  lemma SlotVisitKeeps(f: Floor, o: nat, before: seq<Row>, t: SlotTick, ns: seq<SlotNeed>, n: SlotNeed)
    requires SlotInv(f, o, before, t.book.rows, t.held, t.missing, ns) && Unique(before) && n.node != ""
    ensures
      var v := SlotVisit(f, o, t, n);
      SlotInv(f, o, before, v.book.rows, v.held, v.missing, ns + [n]) && v.book.claims == t.book.claims
  {
    var k := FirstSlot(t.held, n.node, 0);
    hide SlotInv;
    if k < |t.held| {
      KeepHold(f, o, before, t.book.rows, t.held, t.missing, ns, n, k);
    } else if n.node !in f.nodes || Reserved(t.book.rows, SlotRef(n.node)) {
      MissSlot(f, o, before, t.book.rows, t.held, t.missing, ns, n);
    } else {
      TakeSlot(f, o, before, t.book.rows, t.held, t.missing, ns, n);
    }
  }

  lemma {:induction false} SlotWalkKeeps(f: Floor, o: nat, b: Book, ns: seq<SlotNeed>, start: SlotTick)
    requires Unique(b.rows) && start == SlotListed(f, b, o) && forall n | n in ns :: n.node != ""
    ensures
      var t := SlotWalk(f, o, start, ns);
      SlotInv(f, o, b.rows, t.book.rows, t.held, t.missing, ns) && t.book.claims == b.claims
  {
    hide SlotInv, SlotVisit, Unique;
    if ns == [] {
      SlotStart(f, o, b.rows);
    } else {
      var m := |ns| - 1;
      assert ns[m] in ns;
      SlotWalkKeeps(f, o, b, ns[..m], start);
      SlotVisitKeeps(f, o, b.rows, SlotWalk(f, o, start, ns[..m]), ns[..m], ns[m]);
      assert ns[..m] + [ns[m]] == ns;
    }
  }

  // ---- slots no need uses ----

  ghost predicate SlotStray(held: seq<Held>, ref: Ref) {
    exists h | h in held :: IsSlotStray(h) && h.ref == ref
  }

  /** Slot releases are matched by owner: nothing of another order can go. */
  lemma {:induction false} SlotStraysDropped(b: Book, o: nat, held: seq<Held>)
    requires Unique(b.rows)
    ensures
      var d := DropSlotStrays(b, o, held);
      && Unique(d.rows)
      && (forall r :: r in d.rows <==> r in b.rows && !(r.order == o && SlotStray(held, r.ref)))
      && (forall ref | ref in d.claims :: ref in b.claims && d.claims[ref] == b.claims[ref])
      && (forall ref | ref in b.claims && (b.claims[ref] != o || !SlotStray(held, ref)) :: ref in d.claims)
  {
    if held != [] {
      var n := |held| - 1;
      var h := held[n];
      SlotStraysDropped(b, o, held[..n]);
      assert held == held[..n] + [h];
      if IsSlotStray(h) {
        Dropped(DropSlotStrays(b, o, held[..n]).rows, o, h.ref);
      }
    }
  }

  method ReleaseSlotStrays(store: Store, o: nat, held: seq<Held>)
    modifies store
    ensures store.Contents() == DropSlotStrays(old(store.Contents()), o, held)
  {
    for i := 0 to |held|
      invariant store.Contents() == DropSlotStrays(old(store.Contents()), o, held[..i])
    {
      assert held[..i + 1][..i] == held[..i];
      var h := held[i];
      if h.used || h.ref.BinRef? {
        continue;
      }
      if h.confirmed {
        store.ReleaseClaimAndRow(o, h.ref);
      } else {
        store.ReleaseRow(o, h.ref);
      }
    }
    assert held[..|held|] == held;
  }

  lemma Dropped(rows: seq<Row>, o: nat, ref: Ref)
    requires Unique(rows)
    ensures Unique(Keep(rows, NotHeldBy(o, ref)))
    ensures forall r :: r in Keep(rows, NotHeldBy(o, ref)) <==> r in rows && !(r.order == o && r.ref == ref)
  {
    KeepUnique(rows, NotHeldBy(o, ref));
    forall r ensures r in Keep(rows, NotHeldBy(o, ref)) <==> r in rows && !(r.order == o && r.ref == ref) {
      KeepMembers(rows, NotHeldBy(o, ref), r);
    }
  }

  /** The rows a slot reconcile leaves: of the order's slot rows those still needed, as they were, and a
      pending row for every other needed slot it could have; everything else as before. */
  ghost predicate SlotOutcome(f: Floor, o: nat, before: seq<Row>, ns: seq<SlotNeed>, after: seq<Row>) {
    forall r :: r in after <==>
      if r.order == o && r.ref.SlotRef?
      then
        && r.ref.node in Nodes(ns)
        && (r in before || (!r.confirmed && !Owns(before, o, r.ref.node) && Obtainable(f, before, o, r.ref.node)))
      else r in before
  }

  lemma SlotRowsAfter(
    f: Floor, o: nat, before: seq<Row>, rows: seq<Row>, held: seq<Held>, missing: nat, ns: seq<SlotNeed>,
    after: seq<Row>)
    requires SlotInv(f, o, before, rows, held, missing, ns)
    requires forall r :: r in after <==> r in rows && !(r.order == o && SlotStray(held, r.ref))
    ensures SlotOutcome(f, o, before, ns, after)
    ensures missing == 0 <==> Grantable(f, before, o, ns)
  {
    forall r: Row | r.order == o && r.ref.SlotRef?
      ensures r in after <==>
        && r.ref.node in Nodes(ns)
        && (r in before || (!r.confirmed && !Owns(before, o, r.ref.node) && Obtainable(f, before, o, r.ref.node)))
    {
      StrayIffUnneeded(f, o, before, rows, held, missing, ns, r.ref.node);
    }
  }

  /** So the slots an order ends up with are just the needed ones it could have. */
  lemma OwnedAfter(f: Floor, o: nat, before: seq<Row>, ns: seq<SlotNeed>, after: seq<Row>, node: string)
    requires SlotOutcome(f, o, before, ns, after)
    ensures Owns(after, o, node) <==> node in Nodes(ns) && Obtainable(f, before, o, node)
  {
    if Owns(before, o, node) && node in Nodes(ns) {
      var r :| r in before && r.order == o && r.ref == SlotRef(node);
      assert r in after;
    }
    if !Owns(before, o, node) && node in Nodes(ns) && Obtainable(f, before, o, node) {
      assert Row(o, SlotRef(node), false) in after;
    }
  }

  lemma StrayIffUnneeded(
    f: Floor, o: nat, before: seq<Row>, rows: seq<Row>, held: seq<Held>, missing: nat, ns: seq<SlotNeed>,
    node: string)
    requires SlotInv(f, o, before, rows, held, missing, ns)
    ensures SlotStray(held, SlotRef(node)) <==> Owns(before, o, node) && node !in Nodes(ns)
  {
    if SlotStray(held, SlotRef(node)) {
      var h :| h in held && !h.used && h.ref == SlotRef(node);
      SlotHoldNames(f, before, o, held, h);
    }
    if Owns(before, o, node) {
      var r :| r in before && r.order == o && r.ref == SlotRef(node);
      OwnRowIsHeld(f, Book(before, map[]), o, held, r);
      var h :| h in held && h.ref == SlotRef(node);
      SlotHoldNames(f, before, o, held, h);
    }
  }

  /** The slot reconcile is complete exactly when the needed nodes are distinct and each is the order's own or
      resolvable and unreserved; whatever the outcome, the rows are those of `SlotOutcome` and no claim of
      another order goes. */
  lemma SlotReserveRows(f: Floor, o: nat, b: Book, ns: seq<SlotNeed>)
    requires Unique(b.rows) && forall n | n in ns :: n.node != ""
    ensures
      var t := SlotReserve(f, o, b, ns);
      && Unique(t.book.rows) && SlotOutcome(f, o, b.rows, ns, t.book.rows)
      && (t.missing == 0 <==> Grantable(f, b.rows, o, ns))
      && (forall ref | ref in t.book.claims :: ref in b.claims && t.book.claims[ref] == b.claims[ref])
      && (forall ref | ref in b.claims && (b.claims[ref] != o || !ref.SlotRef? || ref.node in Nodes(ns)) ::
            ref in t.book.claims)
  {
    var w := SlotWalk(f, o, SlotListed(f, b, o), ns);
    SlotWalkKeeps(f, o, b, ns, SlotListed(f, b, o));
    SlotInvUnique(f, o, b.rows, w.book.rows, w.held, w.missing, ns);
    SlotStraysDropped(w.book, o, w.held);
    hide SlotInv, SlotWalk, Unique;
    var d := DropSlotStrays(w.book, o, w.held);
    SlotRowsAfter(f, o, b.rows, w.book.rows, w.held, w.missing, ns, d.rows);
    forall ref | ref in b.claims && (!ref.SlotRef? || ref.node in Nodes(ns))
      ensures !SlotStray(w.held, ref)
    {
      if ref.SlotRef? {
        StrayIffUnneeded(f, o, b.rows, w.book.rows, w.held, w.missing, ns, ref.node);
      }
    }
  }

  // ---- reconciling again ----

  /** Nothing is left to do: the order owns no slot that is not needed, and every needed slot it does not own
      is taken or does not resolve. */
  ghost predicate SlotsAtRest(f: Floor, o: nat, rows: seq<Row>, ns: seq<SlotNeed>) {
    && (forall node | Owns(rows, o, node) :: node in Nodes(ns))
    && (forall n | n in ns && n.node in f.nodes :: Reserved(rows, SlotRef(n.node)))
  }

  lemma {:induction false} WalkAtRest(f: Floor, o: nat, b: Book, ns: seq<SlotNeed>, start: SlotTick)
    requires start == SlotListed(f, b, o)
    requires forall n | n in ns && n.node in f.nodes :: Reserved(b.rows, SlotRef(n.node))
    ensures SlotWalk(f, o, start, ns).book == b
  {
    if ns != [] {
      var m := |ns| - 1;
      assert ns[m] in ns;
      WalkAtRest(f, o, b, ns[..m], start);
    }
  }

  lemma {:induction false} DropNoSlots(b: Book, o: nat, held: seq<Held>)
    requires forall h | h in held :: !IsSlotStray(h)
    ensures DropSlotStrays(b, o, held) == b
  {
    if held != [] {
      assert held[|held| - 1] in held;
      DropNoSlots(b, o, held[..|held| - 1]);
    }
  }

  /** At rest the reconcile changes nothing at all. */
  lemma SlotReserveAtRest(f: Floor, o: nat, b: Book, ns: seq<SlotNeed>)
    requires Unique(b.rows) && SlotsAtRest(f, o, b.rows, ns) && forall n | n in ns :: n.node != ""
    ensures SlotReserve(f, o, b, ns).book == b
  {
    var w := SlotWalk(f, o, SlotListed(f, b, o), ns);
    WalkAtRest(f, o, b, ns, SlotListed(f, b, o));
    SlotWalkKeeps(f, o, b, ns, SlotListed(f, b, o));
    hide SlotWalk;
    forall h | h in w.held
      ensures !IsSlotStray(h)
    {
      if h.ref.SlotRef? {
        SlotHoldNames(f, b.rows, o, w.held, h);
      }
    }
    DropNoSlots(b, o, w.held);
  }

  /** Reconciling the same needs again, complete or not, leaves the book exactly as it is. */
  lemma SlotReserveIsIdempotent(f: Floor, o: nat, b: Book, ns: seq<SlotNeed>)
    requires Unique(b.rows) && forall n | n in ns :: n.node != ""
    ensures
      var first := SlotReserve(f, o, b, ns);
      SlotReserve(f, o, first.book, ns).book == first.book
  {
    var rows := SlotReserve(f, o, b, ns).book.rows;
    SlotReserveRows(f, o, b, ns);
    hide SlotReserve, Unique;
    forall node | Owns(rows, o, node)
      ensures node in Nodes(ns)
    {
      OwnedAfter(f, o, b.rows, ns, rows, node);
    }
    forall n | n in ns && n.node in f.nodes
      ensures Reserved(rows, SlotRef(n.node))
    {
      OwnedAfter(f, o, b.rows, ns, rows, n.node);
      ReservedMeansRow(b.rows, SlotRef(n.node));
      ReservedMeansRow(rows, SlotRef(n.node));
    }
    SlotReserveAtRest(f, o, SlotReserve(f, o, b, ns).book, ns);
  }

  // ---- over the steps of the plan ----

  /** The nodes of the dropoffs that need a slot are distinct and each can be had. */
  ghost predicate PlanGrantable(f: Floor, rows: seq<Row>, o: nat, p: Plan, storage: set<string>) {
    && (forall i | 0 <= i < |p| && NeedsSlot(p[i], storage) :: Obtainable(f, rows, o, p[i].node))
    && (forall i, j | 0 <= i < j < |p| && NeedsSlot(p[i], storage) && NeedsSlot(p[j], storage) ::
          p[i].node != p[j].node)
  }

  lemma GrantableByPlan(f: Floor, rows: seq<Row>, o: nat, p: Plan, storage: set<string>)
    ensures Grantable(f, rows, o, SlotNeedsOf(p, storage)) <==> PlanGrantable(f, rows, o, p, storage)
  {
    hide SlotNeedsOf, Obtainable;
    var ns := SlotNeedsOf(p, storage);
    if Grantable(f, rows, o, ns) {
      forall i | 0 <= i < |p| && NeedsSlot(p[i], storage)
        ensures Obtainable(f, rows, o, p[i].node)
      {
        assert SlotNeed(i, p[i].node, p[i].group) in ns;
      }
      forall i, j | 0 <= i < j < |p| && NeedsSlot(p[i], storage) && NeedsSlot(p[j], storage)
        ensures p[i].node != p[j].node
      {
        var k :| 0 <= k < |ns| && ns[k] == SlotNeed(i, p[i].node, p[i].group);
        var m :| 0 <= m < |ns| && ns[m] == SlotNeed(j, p[j].node, p[j].group);
      }
    }
    if PlanGrantable(f, rows, o, p, storage) {
      PlanIsGranted(f, rows, o, p, storage, ns);
    }
  }

  lemma PlanIsGranted(f: Floor, rows: seq<Row>, o: nat, p: Plan, storage: set<string>, ns: seq<SlotNeed>)
    requires ns == SlotNeedsOf(p, storage) && PlanGrantable(f, rows, o, p, storage)
    ensures Grantable(f, rows, o, ns)
  {
    hide SlotNeedsOf, Obtainable;
    forall k | 0 <= k < |ns|
      ensures ns[k].index < |p| && NeedsSlot(p[ns[k].index], storage) && ns[k].node == p[ns[k].index].node
    {
      assert ns[k] in ns;
    }
  }

  /** A needed slot is reserved and not the order's to use: another order's, or one an earlier dropoff of this
      plan has taken up. */
  ghost predicate SlotTaken(f: Floor, rows: seq<Row>, o: nat, p: Plan, storage: set<string>, i: nat)
    requires i < |p|
  {
    && NeedsSlot(p[i], storage) && p[i].node in f.nodes
    && (|| (exists j | 0 <= j < i :: NeedsSlot(p[j], storage) && p[j].node == p[i].node)
        || (Reserved(rows, SlotRef(p[i].node)) && !Owns(rows, o, p[i].node)))
  }

  /** Where a walk that has come past `needs` meets a conflict. */
  lemma ConflictIff(
    f: Floor, o: nat, before: seq<Row>, rows: seq<Row>, held: seq<Held>, missing: nat, ns: seq<SlotNeed>,
    node: string)
    requires SlotInv(f, o, before, rows, held, missing, ns) && node != "" && node in f.nodes
    ensures FirstSlot(held, node, 0) == |held| && Reserved(rows, SlotRef(node)) <==>
      node in Nodes(ns) || (Reserved(before, SlotRef(node)) && !Owns(before, o, node))
  {
    MatchIffOwnedAndNew(f, o, before, rows, held, missing, ns, node);
    ReservedMeansRow(rows, SlotRef(node));
    ReservedMeansRow(before, SlotRef(node));
    if Owns(before, o, node) {
      OwnedSlotIsReserved(before, o, node);
    } else if node in Nodes(ns) && Obtainable(f, before, o, node) {
      assert Row(o, SlotRef(node), false) in rows;
    }
  }

  /** The needs in front of need `k` are the needed steps in front of its step. */
  lemma NeedsInFront(p: Plan, storage: set<string>, ns: seq<SlotNeed>, k: nat, j: nat)
    requires ns == SlotNeedsOf(p, storage) && k <= |ns| && j < |p| && NeedsSlot(p[j], storage)
    ensures (k < |ns| ==> j < ns[k].index) <==> SlotNeed(j, p[j].node, p[j].group) in ns[..k]
  {
    hide SlotNeedsOf;
    var n := SlotNeed(j, p[j].node, p[j].group);
    var m :| 0 <= m < |ns| && ns[m] == n;
    if m < k {
      assert ns[..k][m] == n;
    }
    if n in ns[..k] {
      var l :| 0 <= l < k && ns[..k][l] == n;
      assert ns[l] == n;
    }
  }

  lemma TakenIffConflict(
    f: Floor, o: nat, before: seq<Row>, rows: seq<Row>, held: seq<Held>, missing: nat,
    p: Plan, storage: set<string>, ns: seq<SlotNeed>, k: nat)
    requires ns == SlotNeedsOf(p, storage) && k < |ns| && SlotInv(f, o, before, rows, held, missing, ns[..k])
    ensures ns[k] in ns && ns[k].index < |p|
    ensures SlotTaken(f, before, o, p, storage, ns[k].index) <==>
      && FirstSlot(held, ns[k].node, 0) == |held| && ns[k].node in f.nodes
      && Reserved(rows, SlotRef(ns[k].node))
  {
    hide SlotNeedsOf, SlotInv;
    var n := ns[k];
    assert n in ns && NeedsSlot(p[n.index], storage);
    if n.node in f.nodes {
      ConflictIff(f, o, before, rows, held, missing, ns[..k], n.node);
      if n.node in Nodes(ns[..k]) {
        var m :| m in ns[..k] && m.node == n.node;
        assert m in ns && m == SlotNeed(m.index, p[m.index].node, p[m.index].group);
        NeedsInFront(p, storage, ns, k, m.index);
      }
      forall j | 0 <= j < n.index && NeedsSlot(p[j], storage) && p[j].node == n.node
        ensures n.node in Nodes(ns[..k])
      {
        NeedsInFront(p, storage, ns, k, j);
      }
    }
  }

  /** The steps up to where the walk has come, with the taken ones sent back to their group. */
  ghost predicate RevertedTo(
    f: Floor, rows: seq<Row>, o: nat, p: Plan, storage: set<string>, bound: nat, q: Plan)
  {
    && |q| == |p|
    && forall i | 0 <= i < |p| ::
         q[i] == if i < bound && p[i].group != "" && SlotTaken(f, rows, o, p, storage, i)
                 then p[i].(node := p[i].group) else p[i]
  }

  function Bound(ns: seq<SlotNeed>, k: nat, n: nat): nat {
    if k < |ns| then ns[k].index else n
  }

  /** Between one need and the next no step needs a slot. */
  lemma NoNeedBetween(p: Plan, storage: set<string>, ns: seq<SlotNeed>, k: nat, i: nat)
    requires ns == SlotNeedsOf(p, storage) && k <= |ns| && i < |p| && i < Bound(ns, k, |p|)
    requires k > 0 ==> ns[k - 1].index < i
    ensures !NeedsSlot(p[i], storage)
  {
    if NeedsSlot(p[i], storage) {
      NeedsInFront(p, storage, ns, k, i);
      assert false;
    }
  }

  lemma RevertedFurther(
    f: Floor, rows: seq<Row>, o: nat, p: Plan, storage: set<string>, ns: seq<SlotNeed>, k: nat, q: Plan, r: Plan)
    requires ns == SlotNeedsOf(p, storage) && k < |ns| && ns[k] in ns
    requires RevertedTo(f, rows, o, p, storage, ns[k].index, q)
    requires
      var i := ns[k].index;
      r == if p[i].group != "" && SlotTaken(f, rows, o, p, storage, i) then q[i := p[i].(node := p[i].group)] else q
    ensures RevertedTo(f, rows, o, p, storage, Bound(ns, k + 1, |p|), r)
  {
    hide SlotNeedsOf, RevertedTo;
    var bound := Bound(ns, k + 1, |p|);
    forall i | 0 <= i < |p| && ns[k].index < i < bound
      ensures !SlotTaken(f, rows, o, p, storage, i)
    {
      NoNeedBetween(p, storage, ns, k + 1, i);
    }
    if k + 1 < |ns| {
      assert ns[k + 1] in ns && ns[k].index < ns[k + 1].index;
    }
    RevertedAcross(f, rows, o, p, storage, ns[k].index, bound, q, r);
  }

  lemma RevertedAcross(
    f: Floor, rows: seq<Row>, o: nat, p: Plan, storage: set<string>, i: nat, bound: nat, q: Plan, r: Plan)
    requires RevertedTo(f, rows, o, p, storage, i, q) && i < bound <= |p|
    requires r ==
      if p[i].group != "" && SlotTaken(f, rows, o, p, storage, i) then q[i := p[i].(node := p[i].group)] else q
    requires forall j | i < j < bound :: !SlotTaken(f, rows, o, p, storage, j)
    ensures RevertedTo(f, rows, o, p, storage, bound, r)
  {
    hide SlotTaken;
  }

  // ---- the method ----

  /** What reverting a fungible dropoff may do to a step. */
  ghost predicate RevertedStep(s: Step, t: Step) {
    t == s || (s.action.Dropoff? && s.group != "" && t == s.(node := s.group))
  }

  /** The slot reconcile. It is complete exactly when the nodes of the dropoffs that need a slot are distinct and
      each is the order's own or resolvable and unreserved. Whatever the outcome, the rows are those of
      `SlotOutcome`, and a needed dropoff with a group goes back to it exactly when its slot is taken. */
  method ReserveComplexSlots(store: Store, f: Floor, o: nat, steps: array<Step>, storage: set<string>)
    returns (complete: bool)
    requires Unique(store.rows)
    modifies store, steps
    ensures
      var ns := SlotNeedsOf(old(steps[..]), storage);
      && store.Contents() == SlotReserve(f, o, old(store.Contents()), ns).book
      && Unique(store.rows) && SlotOutcome(f, o, old(store.rows), ns, store.rows)
      && (complete <==> Grantable(f, old(store.rows), o, ns))
    ensures complete <==> PlanGrantable(f, old(store.rows), o, old(steps[..]), storage)
    ensures RevertedTo(f, old(store.rows), o, old(steps[..]), storage, steps.Length, steps[..])
    ensures forall i | 0 <= i < steps.Length :: RevertedStep(old(steps[..])[i], steps[i])
    ensures complete ==> steps[..] == old(steps[..])
  {
    hide SlotInv, SlotOutcome, Grantable, PlanGrantable, Unique, SlotNeedsOf, RevertedTo, SlotTaken, SlotVisit;
    var needs := SlotNeedsOf(steps[..], storage);
    ghost var b, plan := store.Contents(), steps[..];
    ghost var start := SlotListed(f, b, o);
    SlotReserveRows(f, o, b, needs);
    GrantableByPlan(f, b.rows, o, plan, storage);
    RevertedNone(f, b.rows, o, plan, storage, needs);
    var held := ResolveAll(f, Keep(store.rows, Of(o)));
    var missing := 0;
    for i := 0 to |needs|
      invariant SlotTick(store.Contents(), held, missing) == SlotWalk(f, o, start, needs[..i])
      invariant RevertedTo(f, b.rows, o, plan, storage, Bound(needs, i, |plan|), steps[..])
      invariant missing == 0 ==> steps[..] == plan
    {
      assert needs[..i + 1][..i] == needs[..i];
      ghost var q := steps[..];
      SlotWalkKeeps(f, o, b, needs[..i], start);
      TakenIffConflict(f, o, b.rows, store.rows, held, missing, plan, storage, needs, i);
      NotYetReverted(f, b.rows, o, plan, storage, needs[i].index, q);
      held, missing := ReserveSlot(store, f, o, steps, needs[i], held, missing);
      RevertedFurther(f, b.rows, o, plan, storage, needs, i, q, steps[..]);
    }
    assert needs[..|needs|] == needs;
    RevertedSteps(f, b.rows, o, plan, storage, steps[..]);
    ReleaseSlotStrays(store, o, held);
    complete := missing == 0;
  }

  /** One need: keep the hold, take the slot, or miss it and send a fungible dropoff back to its group. */
  method ReserveSlot(
    store: Store, f: Floor, o: nat, steps: array<Step>, n: SlotNeed, held: seq<Held>, missing: nat)
    returns (marked: seq<Held>, missed: nat)
    requires n.index < steps.Length
    modifies store, steps
    ensures SlotTick(store.Contents(), marked, missed)
         == SlotVisit(f, o, SlotTick(old(store.Contents()), held, missing), n)
    ensures
      var i, was := n.index, old(steps[..]);
      var conflict :=
        FirstSlot(held, n.node, 0) == |held| && n.node in f.nodes && Reserved(old(store.rows), SlotRef(n.node));
      && steps[..] == (if conflict && n.group != "" then was[i := was[i].(node := n.group)] else was)
      && missing <= missed && (conflict ==> missed > 0)
  {
    hide FirstSlot, Reserved;
    marked, missed := held, missing;
    var k := FirstSlot(held, n.node, 0);
    if k < |held| {
      marked := held[k := held[k].(used := true)];
      return;
    }
    if n.node !in f.nodes {
      missed := missing + 1;
      return;
    }
    var conflict := store.AcquireRow(o, SlotRef(n.node));
    if conflict {
      missed := missing + 1;
      if n.group != "" {
        steps[n.index] := steps[n.index].(node := n.group);
      }
    }
  }

  lemma RevertedNone(f: Floor, rows: seq<Row>, o: nat, p: Plan, storage: set<string>, ns: seq<SlotNeed>)
    requires ns == SlotNeedsOf(p, storage)
    ensures RevertedTo(f, rows, o, p, storage, Bound(ns, 0, |p|), p)
  {
    hide SlotNeedsOf;
    forall i | 0 <= i < Bound(ns, 0, |p|) && i < |p|
      ensures !NeedsSlot(p[i], storage)
    {
      if NeedsSlot(p[i], storage) {
        NeedsInFront(p, storage, ns, 0, i);
        assert false;
      }
    }
  }

  lemma NotYetReverted(f: Floor, rows: seq<Row>, o: nat, p: Plan, storage: set<string>, i: nat, q: Plan)
    requires i < |p| && RevertedTo(f, rows, o, p, storage, i, q)
    ensures |q| == |p| && q[i] == p[i]
  {
  }

  lemma RevertedSteps(f: Floor, rows: seq<Row>, o: nat, p: Plan, storage: set<string>, q: Plan)
    requires RevertedTo(f, rows, o, p, storage, |p|, q)
    ensures |q| == |p| && forall i | 0 <= i < |p| :: RevertedStep(p[i], q[i])
  {
  }
}
