/** Reserve, commit, fail, reserve again, commit again: where an order that is interrupted ends up,
    and how a tick reads as steps of the shared store. */
module AllocatorCycle {
  import opened Plans
  import opened Reservations
  import opened Pickups
  import opened Allocator
  import opened AllocatorFacts
  import opened AllocatorRetry
  import opened AllocatorConfirm
  import opened AllocatorSlots
  import Runs = AllocatorRuns

  // ---- what a tick says about the rows it hands over ----

  /** The order's rows are confirmed exactly where it has the claim, and nobody else claims them. */
  ghost predicate OwnCoupled(b: Book, o: nat) {
    forall r | r in b.rows && r.order == o ::
      (r.confirmed <==> r.ref in b.claims) && (r.ref in b.claims ==> b.claims[r.ref] == o)
  }

  ghost predicate Truthful(b: Book, o: nat, k: Taken) {
    Row(o, BinRef(k.bin), k.confirmed) in b.rows
  }

  ghost predicate AllTruthful(t: Tick, o: nat) {
    forall k | k in t.taken :: Truthful(t.book, o, k)
  }

  lemma VisitIsTruthful(f: Floor, order: Order, b: Book, t: Tick, n: Need)
    requires Inv(f, order.id, b, t) && AllTruthful(t, order.id)
    ensures AllTruthful(Visit(f, order, t, n), order.id)
  {
    var k := FirstMatch(t.held, n, 0);
    if k < |t.held| {
      HeldRowIsOwn(f, b, order.id, t.held, t.held[k]);
      var r := Row(order.id, t.held[k].ref, t.held[k].confirmed);
      var i :| 0 <= i < |b.rows| && b.rows[i] == r;
      assert t.book.rows[i] == r;
    }
  }

  lemma {:induction false} WalkIsTruthful(f: Floor, order: Order, b: Book, needs: seq<Need>, start: Tick)
    requires Unique(b.rows) && start == Start(f, b, order.id)
    ensures AllTruthful(Walk(f, order, start, needs), order.id)
  {
    if needs != [] {
      hide AllTruthful, Inv, Visit, Unique;
      var n := |needs| - 1;
      WalkIsTruthful(f, order, b, needs[..n], start);
      WalkKeepsInv(f, order, b, needs[..n]);
      VisitIsTruthful(f, order, b, Walk(f, order, start, needs[..n]), needs[n]);
    }
  }

  lemma TickIsTruthful(f: Floor, order: Order, b: Book, needs: seq<Need>)
    requires Unique(b.rows)
    ensures AllTruthful(ReserveTick(f, order, b, needs), order.id)
  {
    var start := Start(f, b, order.id);
    var w := Walk(f, order, start, needs);
    WalkIsTruthful(f, order, b, needs, start);
    WalkKeepsInv(f, order, b, needs);
    hide Walk, Start;
    DropIsTruthful(f, order.id, b, w);
  }

  lemma DropIsTruthful(f: Floor, o: nat, b: Book, w: Tick)
    requires Inv(f, o, b, w) && AllTruthful(w, o)
    ensures forall k | k in w.taken :: Truthful(DropStrays(w.book, o, w.held), o, k)
  {
    HeldRowsStillOwn(f, o, b, w);
    StraysDropped(w.book, o, w.held);
    forall k | k in w.taken
      ensures Truthful(DropStrays(w.book, o, w.held), o, k)
    {
      assert Truthful(w.book, o, k);
      StrayIffNotTaken(f, o, b, w, Row(o, BinRef(k.bin), k.confirmed));
      assert BinRef(k.bin) in TakenRefs(w.taken);
    }
  }

  /** A fresh bin was unclaimed when it was chosen, so the walk keeps the coupling. */
  lemma VisitKeepsCoupling(f: Floor, order: Order, t: Tick, n: Need)
    requires OwnCoupled(t.book, order.id)
    ensures OwnCoupled(Visit(f, order, t, n).book, order.id)
  {
  }

  lemma {:induction false} WalkKeepsCoupling(f: Floor, order: Order, b: Book, needs: seq<Need>)
    requires OwnCoupled(b, order.id)
    ensures OwnCoupled(Walk(f, order, Start(f, b, order.id), needs).book, order.id)
  {
    if needs != [] {
      var n := |needs| - 1;
      WalkKeepsCoupling(f, order, b, needs[..n]);
      VisitKeepsCoupling(f, order, Walk(f, order, Start(f, b, order.id), needs[..n]), needs[n]);
    }
  }

  lemma TickKeepsCoupling(f: Floor, order: Order, b: Book, needs: seq<Need>)
    requires Unique(b.rows) && OwnCoupled(b, order.id)
    ensures OwnCoupled(ReserveTick(f, order, b, needs).book, order.id)
  {
    var w := Walk(f, order, Start(f, b, order.id), needs);
    WalkKeepsCoupling(f, order, b, needs);
    WalkKeepsInv(f, order, b, needs);
    HeldRowsStillOwn(f, order.id, b, w);
    StraysDropped(w.book, order.id, w.held);
  }

  // ---- the interrupted order ----

  ghost predicate SlotsHeld(f: Floor, b: Book, o: nat, slots: seq<string>) {
    forall node | node in slots :: node in f.nodes && HasRow(b.rows, o, SlotRef(node))
  }

  lemma TargetsReady(f: Floor, o: nat, b: Book, slots: seq<string>, taken: seq<Taken>)
    requires Unique(b.rows) && OwnCoupled(b, o) && SlotsHeld(f, b, o, slots)
    requires forall k | k in taken :: Truthful(b, o, k)
    ensures Ready(b, o, Targets(f, slots, taken))
  {
    forall t | t in Targets(f, slots, taken)
      ensures ReadyRef(b, o, t.ref) && t.resolved && (t.confirmed ==> Row(o, t.ref, true) in b.rows)
    {
      if t in SlotTargets(f, slots) {
        var i :| 0 <= i < |slots| && SlotTargets(f, slots)[i] == t;
        assert slots[i] in slots;
        var r :| r in b.rows && r.order == o && r.ref == t.ref;
        RowIsReady(b, o, r);
      } else {
        var i :| 0 <= i < |taken| && BinTargets(taken)[i] == t;
        assert Truthful(b, o, taken[i]);
        RowIsReady(b, o, Row(o, t.ref, taken[i].confirmed));
      }
    }
  }

  lemma RowIsReady(b: Book, o: nat, r: Row)
    requires Unique(b.rows) && OwnCoupled(b, o) && r in b.rows && r.order == o
    ensures ReadyRef(b, o, r.ref)
  {
    assert r == Row(o, r.ref, r.confirmed);
    if Row(o, r.ref, !r.confirmed) in b.rows {
      UniqueMembers(b.rows, r, Row(o, r.ref, !r.confirmed));
    }
  }

  lemma TargetRefs(f: Floor, slots: seq<string>, ts: seq<Taken>, us: seq<Taken>)
    requires TakenRefs(ts) == TakenRefs(us)
    ensures RefsOf(Targets(f, slots, ts)) == RefsOf(Targets(f, slots, us))
  {
    BinTargetRefs(ts);
    BinTargetRefs(us);
    assert RefsOf(Targets(f, slots, ts)) == RefsOf(SlotTargets(f, slots)) + RefsOf(BinTargets(ts));
    assert RefsOf(Targets(f, slots, us)) == RefsOf(SlotTargets(f, slots)) + RefsOf(BinTargets(us));
  }

  lemma BinTargetRefs(ts: seq<Taken>)
    ensures RefsOf(BinTargets(ts)) == TakenRefs(ts)
  {
    forall k | k in ts
      ensures BinRef(k.bin) in RefsOf(BinTargets(ts))
    {
      var i :| 0 <= i < |ts| && ts[i] == k;
      assert BinTargets(ts)[i] in BinTargets(ts);
    }
  }

  lemma SettlingKeepsHolds(b: Book, o: nat, refs: set<Ref>)
    ensures SameBinsHeld(o, b, Settled(b, o, refs))
  {
    forall bin
      ensures HasRow(Settled(b, o, refs).rows, o, BinRef(bin)) <==> HasRow(b.rows, o, BinRef(bin))
    {
      SettledMembers(b, o, refs, Row(o, BinRef(bin), true));
      SettledMembers(b, o, refs, Row(o, BinRef(bin), false));
      RowEitherWay(b.rows, o, BinRef(bin));
      RowEitherWay(Settled(b, o, refs).rows, o, BinRef(bin));
    }
  }

  lemma RowEitherWay(rows: seq<Row>, o: nat, ref: Ref)
    ensures HasRow(rows, o, ref) <==> Row(o, ref, true) in rows || Row(o, ref, false) in rows
  {
    if HasRow(rows, o, ref) {
      var r :| r in rows && r.order == o && r.ref == ref;
      assert r == Row(o, ref, r.confirmed);
    }
  }

  /** The bin half: an order that holds its slots and whose complete, balanced bin reserve is followed by a
      commit blocked anywhere reserves its bins again without touching a row, and its second commit ends
      in exactly the claims and rows of a commit that was never interrupted. */
  lemma BinHalfConverges(
    f: Floor, order: Order, b: Book, needs: seq<Need>, slots: seq<string>, blocked: set<Ref>, clear: set<Ref>)
    requires ValidFloor(f) && Unique(b.rows) && OwnCoupled(b, order.id) && SlotsHeld(f, b, order.id, slots)
    requires
      var first := ReserveTick(f, order, b, needs);
      && first.missing == 0 && Keys(f, TakenBins(first.taken)) == Demand(f, needs)
      && RefsOf(Targets(f, slots, first.taken)) <= clear
    ensures
      var first := ReserveTick(f, order, b, needs);
      var stopped := ConfirmAll(first.book, order.id, Targets(f, slots, first.taken), clear - blocked).book;
      var second := ReserveTick(f, order, stopped, needs);
      && second.book == stopped && second.missing == 0
      && ConfirmAll(stopped, order.id, Targets(f, slots, second.taken), clear)
         == ConfirmAll(first.book, order.id, Targets(f, slots, first.taken), clear)
  {
    var o := order.id;
    var first := ReserveTick(f, order, b, needs);
    var ts := Targets(f, slots, first.taken);
    ReserveLeavesExactlyTheTaken(f, order, b, needs);
    SlotsStayHeld(f, order, b, needs, slots);
    TickIsTruthful(f, order, b, needs);
    TickKeepsCoupling(f, order, b, needs);
    hide ReserveTick, Targets, OwnCoupled;
    TargetsReady(f, o, first.book, slots, first.taken);
    var k := AllSettles(first.book, o, ts, clear - blocked);
    var stopped := ConfirmAll(first.book, o, ts, clear - blocked).book;
    SettledStaysUnique(first.book, o, RefsOf(ts[..k]));
    SettlingKeepsHolds(first.book, o, RefsOf(ts[..k]));
    SecondTickIsIdleIff(f, order, b, needs, stopped);
    var second := ReserveTick(f, order, stopped, needs);
    TargetRefs(f, slots, first.taken, second.taken);
    TickIsTruthful(f, order, stopped, needs);
    FlagsAreTrue(f, order, b, needs, slots, second.taken, stopped);
    RetriedCommit(first.book, o, ts, blocked, Targets(f, slots, second.taken), clear);
  }

  lemma SlotsStayHeld(f: Floor, order: Order, b: Book, needs: seq<Need>, slots: seq<string>)
    requires Unique(b.rows) && SlotsHeld(f, b, order.id, slots)
    ensures SlotsHeld(f, ReserveTick(f, order, b, needs).book, order.id, slots)
  {
    ReserveLeavesExactlyTheTaken(f, order, b, needs);
    hide ReserveTick;
    forall node | node in slots
      ensures HasRow(ReserveTick(f, order, b, needs).book.rows, order.id, SlotRef(node))
    {
      var r :| r in b.rows && r.order == order.id && r.ref == SlotRef(node);
      assert r in ReserveTick(f, order, b, needs).book.rows;
    }
  }

  lemma FlagsAreTrue(
    f: Floor, order: Order, b: Book, needs: seq<Need>, slots: seq<string>, taken: seq<Taken>, c: Book)
    requires SlotsHeld(f, b, order.id, slots)
    requires forall k | k in taken :: Truthful(c, order.id, k)
    ensures forall t | t in Targets(f, slots, taken) ::
      t.resolved && (t.confirmed ==> Row(order.id, t.ref, true) in c.rows)
  {
    forall t | t in Targets(f, slots, taken)
      ensures t.resolved && (t.confirmed ==> Row(order.id, t.ref, true) in c.rows)
    {
      if t in SlotTargets(f, slots) {
        var i :| 0 <= i < |slots| && SlotTargets(f, slots)[i] == t;
        assert slots[i] in slots;
      } else {
        var i :| 0 <= i < |taken| && BinTargets(taken)[i] == t;
        assert Truthful(c, order.id, taken[i]);
      }
    }
  }

  // ---- with the slots in front ----

  function SlotNodes(ns: seq<SlotNeed>): seq<string> {
    seq(|ns|, i requires 0 <= i < |ns| => ns[i].node)
  }

  /** The needed slots resolve, and nobody has a claim on one without this order's confirmed row. */
  ghost predicate SlotsOpen(f: Floor, b: Book, o: nat, ns: seq<SlotNeed>) {
    forall n | n in ns ::
      && n.node != "" && n.node in f.nodes
      && (SlotRef(n.node) in b.claims ==> Row(o, SlotRef(n.node), true) in b.rows)
  }

  lemma SlotReserveHolds(f: Floor, o: nat, b: Book, ns: seq<SlotNeed>)
    requires Unique(b.rows) && SlotsOpen(f, b, o, ns) && SlotReserve(f, o, b, ns).missing == 0
    ensures SlotsHeld(f, SlotReserve(f, o, b, ns).book, o, SlotNodes(ns))
    ensures forall node | Owns(SlotReserve(f, o, b, ns).book.rows, o, node) :: node in Nodes(ns)
    ensures DistinctNodes(ns)
  {
    SlotReserveRows(f, o, b, ns);
    hide SlotReserve, Unique;
    var rows := SlotReserve(f, o, b, ns).book.rows;
    forall node
      ensures Owns(rows, o, node) <==> node in Nodes(ns) && Obtainable(f, b.rows, o, node)
    {
      OwnedAfter(f, o, b.rows, ns, rows, node);
    }
    forall node | node in SlotNodes(ns)
      ensures node in f.nodes && HasRow(rows, o, SlotRef(node))
    {
      var i :| 0 <= i < |ns| && SlotNodes(ns)[i] == node;
      assert ns[i] in ns;
      assert Owns(rows, o, node);
    }
  }

  lemma SlotReserveKeepsCoupling(f: Floor, o: nat, b: Book, ns: seq<SlotNeed>)
    requires Unique(b.rows) && SlotsOpen(f, b, o, ns) && OwnCoupled(b, o)
    ensures OwnCoupled(SlotReserve(f, o, b, ns).book, o)
  {
    SlotReserveRows(f, o, b, ns);
    hide SlotReserve, Unique;
    var c := SlotReserve(f, o, b, ns).book;
    forall r | r in c.rows && r.order == o
      ensures (r.confirmed <==> r.ref in c.claims) && (r.ref in c.claims ==> c.claims[r.ref] == o)
    {
      if r !in b.rows {
        var n :| n in ns && SlotRef(n.node) == r.ref;
        RowEitherWay(b.rows, o, SlotRef(n.node));
        assert !Owns(b.rows, o, n.node);
      }
    }
  }

  lemma SettlingKeepsSlots(b: Book, o: nat, refs: set<Ref>, node: string)
    ensures Owns(Settled(b, o, refs).rows, o, node) <==> Owns(b.rows, o, node)
  {
    var ref := SlotRef(node);
    SettledMembers(b, o, refs, Row(o, ref, true));
    SettledMembers(b, o, refs, Row(o, ref, false));
    RowEitherWay(b.rows, o, ref);
    RowEitherWay(Settled(b, o, refs).rows, o, ref);
  }

  /** The slots an order is left with when its commit stops are the slots it reserved. */
  lemma StoppedSlots(
    f: Floor, order: Order, b: Book, needs: seq<Need>, slots: seq<string>, clear: set<Ref>, node: string)
    requires Unique(b.rows) && OwnCoupled(b, order.id) && SlotsHeld(f, b, order.id, slots)
    ensures
      var first := ReserveTick(f, order, b, needs);
      var stopped := ConfirmAll(first.book, order.id, Targets(f, slots, first.taken), clear).book;
      Unique(stopped.rows) && (Owns(stopped.rows, order.id, node) <==> Owns(b.rows, order.id, node))
  {
    var o := order.id;
    var first := ReserveTick(f, order, b, needs);
    var ts := Targets(f, slots, first.taken);
    ReserveLeavesExactlyTheTaken(f, order, b, needs);
    SlotsStayHeld(f, order, b, needs, slots);
    TickIsTruthful(f, order, b, needs);
    TickKeepsCoupling(f, order, b, needs);
    hide ReserveTick, Targets, OwnCoupled, Unique;
    TargetsReady(f, o, first.book, slots, first.taken);
    var k := AllSettles(first.book, o, ts, clear);
    SettledStaysUnique(first.book, o, RefsOf(ts[..k]));
    SettlingKeepsSlots(first.book, o, RefsOf(ts[..k]), node);
    RowEitherWay(b.rows, o, SlotRef(node));
    RowEitherWay(first.book.rows, o, SlotRef(node));
    assert forall c :: Row(o, SlotRef(node), c) in first.book.rows <==> Row(o, SlotRef(node), c) in b.rows;
  }

  /** The slot reconcile of the second tick finds everything in place. */
  lemma SlotsFoundInPlace(f: Floor, o: nat, b: Book, ns: seq<SlotNeed>, c: Book)
    requires Unique(b.rows) && Unique(c.rows) && SlotsOpen(f, b, o, ns) && SlotReserve(f, o, b, ns).missing == 0
    requires forall node :: Owns(c.rows, o, node) <==> Owns(SlotReserve(f, o, b, ns).book.rows, o, node)
    ensures SlotReserve(f, o, c, ns).book == c && SlotReserve(f, o, c, ns).missing == 0
  {
    SlotReserveHolds(f, o, b, ns);
    SlotReserveRows(f, o, c, ns);
    hide SlotReserve, Unique;
    forall n | n in ns
      ensures Owns(c.rows, o, n.node) && Reserved(c.rows, SlotRef(n.node))
    {
      var i :| 0 <= i < |ns| && ns[i] == n;
      assert SlotNodes(ns)[i] in SlotNodes(ns);
      assert Owns(SlotReserve(f, o, b, ns).book.rows, o, n.node);
      OwnedSlotIsReserved(c.rows, o, n.node);
    }
    SlotReserveAtRest(f, o, c, ns);
  }

  /** The whole cycle: slots, bins, a commit blocked anywhere, slots and bins again, commit. If the first tick
      was complete and its bins balanced, the second tick touches no row and no claim, and the second
      commit ends in exactly the book of a commit that was never interrupted. */
  lemma InterruptedOrderConverges(
    f: Floor, order: Order, b: Book, needs: seq<Need>, ns: seq<SlotNeed>, blocked: set<Ref>, clear: set<Ref>)
    requires ValidFloor(f) && Unique(b.rows) && OwnCoupled(b, order.id) && SlotsOpen(f, b, order.id, ns)
    requires
      var slots := SlotReserve(f, order.id, b, ns);
      var first := ReserveTick(f, order, slots.book, needs);
      && slots.missing == 0 && first.missing == 0
      && Keys(f, TakenBins(first.taken)) == Demand(f, needs)
      && RefsOf(Targets(f, SlotNodes(ns), first.taken)) <= clear
    ensures
      var first := ReserveTick(f, order, SlotReserve(f, order.id, b, ns).book, needs);
      var ts := Targets(f, SlotNodes(ns), first.taken);
      var stopped := ConfirmAll(first.book, order.id, ts, clear - blocked).book;
      var slots := SlotReserve(f, order.id, stopped, ns);
      var second := ReserveTick(f, order, slots.book, needs);
      && slots.missing == 0 && slots.book == stopped
      && second.missing == 0 && second.book == stopped
      && ConfirmAll(stopped, order.id, Targets(f, SlotNodes(ns), second.taken), clear)
         == ConfirmAll(first.book, order.id, ts, clear)
  {
    var c := SlotReserve(f, order.id, b, ns).book;
    SlotReserveRows(f, order.id, b, ns);
    SlotReserveHolds(f, order.id, b, ns);
    SlotReserveKeepsCoupling(f, order.id, b, ns);
    hide SlotReserve, ReserveTick, Targets, ConfirmAll, OwnCoupled, Unique, SlotsHeld;
    BinHalfConverges(f, order, c, needs, SlotNodes(ns), blocked, clear);
    var first := ReserveTick(f, order, c, needs);
    var stopped := ConfirmAll(first.book, order.id, Targets(f, SlotNodes(ns), first.taken), clear - blocked).book;
    forall node
      ensures Unique(stopped.rows) && (Owns(stopped.rows, order.id, node) <==> Owns(c.rows, order.id, node))
    {
      StoppedSlots(f, order, c, needs, SlotNodes(ns), clear - blocked, node);
    }
    StoppedSlots(f, order, c, needs, SlotNodes(ns), clear - blocked, "");
    SlotsFoundInPlace(f, order.id, b, ns, stopped);
  }

  // ---- a tick is a run of the shared store ----

  function VisitEvents(f: Floor, order: Order, t: Tick, n: Need): seq<Runs.Event> {
    if FirstMatch(t.held, n, 0) < |t.held| || n.node !in f.nodes then []
    else
      var m := FirstAvailable(t.book, order, n, f.bins, 0);
      if m < |f.bins| then [Runs.Take(order.id, BinRef(f.bins[m].id))] else []
  }

  function WalkEvents(f: Floor, order: Order, t: Tick, needs: seq<Need>): seq<Runs.Event> {
    if needs == [] then []
    else
      var front := needs[..|needs| - 1];
      WalkEvents(f, order, t, front) + VisitEvents(f, order, Walk(f, order, t, front), needs[|needs| - 1])
  }

  function StrayEvents(o: nat, held: seq<Held>): seq<Runs.Event> {
    if held == [] then []
    else
      var h := held[|held| - 1];
      StrayEvents(o, held[..|held| - 1]) + if IsStray(h) then [Runs.Stray(o, Row(o, h.ref, h.confirmed))] else []
  }

  lemma OneStep(serial: bool, s: Runs.World, e: Runs.Event)
    ensures Runs.Run(serial, s, [e]) == Runs.Next(serial, s, e)
    ensures Runs.Run(serial, s, []) == s
  {
    Runs.RunStep(serial, s, [], e);
    assert [] + [e] == [e];
  }

  lemma VisitIsARun(serial: bool, f: Floor, order: Order, s: Runs.World, t: Tick, n: Need)
    requires Runs.IsReserving(s, order.id) && s.book == t.book
    ensures Runs.Run(serial, s, VisitEvents(f, order, t, n)) == s.(book := Visit(f, order, t, n).book)
  {
    hide Runs.Run, FirstMatch, FirstAvailable, EmptyRelay, HasBins, Removal;
    var m := if n.node in f.nodes then FirstAvailable(t.book, order, n, f.bins, 0) else |f.bins|;
    OneStep(serial, s, Runs.Stop(order.id));
    if m < |f.bins| {
      OneStep(serial, s, Runs.Take(order.id, BinRef(f.bins[m].id)));
    }
  }

  lemma {:induction false} WalkIsARun(serial: bool, f: Floor, order: Order, s: Runs.World, t: Tick, needs: seq<Need>)
    requires Runs.IsReserving(s, order.id) && s.book == t.book
    ensures Runs.Run(serial, s, WalkEvents(f, order, t, needs)) == s.(book := Walk(f, order, t, needs).book)
  {
    if needs != [] {
      var front := needs[..|needs| - 1];
      var n := needs[|needs| - 1];
      var w := Walk(f, order, t, front);
      WalkIsARun(serial, f, order, s, t, front);
      Runs.RunConcat(serial, s, WalkEvents(f, order, t, front), VisitEvents(f, order, w, n));
      VisitIsARun(serial, f, order, s.(book := w.book), w, n);
    }
  }

  lemma {:induction false} StraysAreARun(serial: bool, o: nat, s: Runs.World, held: seq<Held>)
    requires Runs.IsReserving(s, o)
    requires forall h | h in held :: Row(o, h.ref, h.confirmed) in s.running[o].held
    ensures Runs.Run(serial, s, StrayEvents(o, held)) == s.(book := DropStrays(s.book, o, held))
  {
    if held != [] {
      var n := |held| - 1;
      var h := held[n];
      assert h in held;
      StraysAreARun(serial, o, s, held[..n]);
      if IsStray(h) {
        Runs.RunStep(serial, s, StrayEvents(o, held[..n]), Runs.Stray(o, Row(o, h.ref, h.confirmed)));
      } else {
        assert StrayEvents(o, held[..n]) + [] == StrayEvents(o, held[..n]);
      }
    }
  }

  /** The bin half of a tick, read as store operations of one order: acquisitions, then stray releases, all
      enabled for an order that has just listed its rows. */
  lemma BinHalfIsARun(serial: bool, f: Floor, order: Order, s: Runs.World, needs: seq<Need>)
    returns (es: seq<Runs.Event>)
    requires Unique(s.book.rows)
    requires order.id in s.running && s.running[order.id] == Runs.Reserving(Runs.OwnRows(s.book.rows, order.id))
    ensures Runs.Run(serial, s, es) == s.(book := ReserveTick(f, order, s.book, needs).book)
  {
    var start := Start(f, s.book, order.id);
    var w := Walk(f, order, start, needs);
    WalkKeepsInv(f, order, s.book, needs);
    forall h | h in w.held
      ensures Row(order.id, h.ref, h.confirmed) in s.running[order.id].held
    {
      HeldRowIsOwn(f, s.book, order.id, w.held, h);
    }
    es := WalkEvents(f, order, start, needs) + StrayEvents(order.id, w.held);
    Runs.RunConcat(serial, s, WalkEvents(f, order, start, needs), StrayEvents(order.id, w.held));
    WalkIsARun(serial, f, order, s, start, needs);
    StraysAreARun(serial, order.id, s.(book := w.book), w.held);
  }

  function SlotVisitEvents(f: Floor, o: nat, t: SlotTick, n: SlotNeed): seq<Runs.Event> {
    if FirstSlot(t.held, n.node, 0) < |t.held| || n.node !in f.nodes then [] else [Runs.Take(o, SlotRef(n.node))]
  }

  function SlotWalkEvents(f: Floor, o: nat, t: SlotTick, ns: seq<SlotNeed>): seq<Runs.Event> {
    if ns == [] then []
    else
      var front := ns[..|ns| - 1];
      SlotWalkEvents(f, o, t, front) + SlotVisitEvents(f, o, SlotWalk(f, o, t, front), ns[|ns| - 1])
  }

  function SlotStrayEvents(o: nat, held: seq<Held>): seq<Runs.Event> {
    if held == [] then []
    else
      var front := SlotStrayEvents(o, held[..|held| - 1]);
      var h := held[|held| - 1];
      if IsSlotStray(h) then front + [Runs.Stray(o, Row(o, h.ref, h.confirmed))] else front
  }

  lemma SlotVisitIsARun(serial: bool, f: Floor, o: nat, s: Runs.World, t: SlotTick, n: SlotNeed)
    requires Runs.IsReserving(s, o) && s.book == t.book
    ensures Runs.Run(serial, s, SlotVisitEvents(f, o, t, n)) == s.(book := SlotVisit(f, o, t, n).book)
  {
    hide Runs.Run, FirstSlot;
    OneStep(serial, s, Runs.Take(o, SlotRef(n.node)));
  }

  lemma {:induction false} SlotWalkIsARun(
    serial: bool, f: Floor, o: nat, s: Runs.World, t: SlotTick, ns: seq<SlotNeed>)
    requires Runs.IsReserving(s, o) && s.book == t.book
    ensures Runs.Run(serial, s, SlotWalkEvents(f, o, t, ns)) == s.(book := SlotWalk(f, o, t, ns).book)
  {
    if ns != [] {
      hide SlotVisit, SlotVisitEvents;
      var front := ns[..|ns| - 1];
      var n := ns[|ns| - 1];
      var w := SlotWalk(f, o, t, front);
      SlotWalkIsARun(serial, f, o, s, t, front);
      Runs.RunConcat(serial, s, SlotWalkEvents(f, o, t, front), SlotVisitEvents(f, o, w, n));
      SlotVisitIsARun(serial, f, o, s.(book := w.book), w, n);
    }
  }

  lemma {:induction false} SlotStraysAreARun(serial: bool, o: nat, s: Runs.World, held: seq<Held>)
    requires Runs.IsReserving(s, o)
    requires forall h | h in held :: Row(o, h.ref, h.confirmed) in s.running[o].held
    ensures Runs.Run(serial, s, SlotStrayEvents(o, held)) == s.(book := DropSlotStrays(s.book, o, held))
  {
    if held != [] {
      var n := |held| - 1;
      var h := held[n];
      assert h in held;
      SlotStraysAreARun(serial, o, s, held[..n]);
      if IsSlotStray(h) {
        Runs.RunStep(serial, s, SlotStrayEvents(o, held[..n]), Runs.Stray(o, Row(o, h.ref, h.confirmed)));
      }
    }
  }

  lemma SlotHalfIsARun(serial: bool, f: Floor, o: nat, s: Runs.World, ns: seq<SlotNeed>) returns (es: seq<Runs.Event>)
    requires Unique(s.book.rows) && forall n | n in ns :: n.node != ""
    requires o in s.running && s.running[o] == Runs.Reserving(Runs.OwnRows(s.book.rows, o))
    ensures Runs.Run(serial, s, es) == s.(book := SlotReserve(f, o, s.book, ns).book)
  {
    var start := SlotListed(f, s.book, o);
    var w := SlotWalk(f, o, start, ns);
    SlotWalkKeeps(f, o, s.book, ns, start);
    forall h | h in w.held
      ensures Row(o, h.ref, h.confirmed) in s.running[o].held
    {
      HeldRowIsOwn(f, Book(s.book.rows, map[]), o, w.held, h);
    }
    hide SlotInv, SlotWalk, Unique;
    es := SlotWalkEvents(f, o, start, ns) + SlotStrayEvents(o, w.held);
    Runs.RunConcat(serial, s, SlotWalkEvents(f, o, start, ns), SlotStrayEvents(o, w.held));
    SlotWalkIsARun(serial, f, o, s, start, ns);
    SlotStraysAreARun(serial, o, s.(book := w.book), w.held);
  }

  /** A whole tick, from the scanner picking the order up: list, reconcile slots, list again, reconcile bins.
      It is a sequence of store operations of one order in the model of all interleavings. */
  lemma TickIsARun(
    serial: bool, f: Floor, order: Order, s: Runs.World, needs: seq<Need>, ns: seq<SlotNeed>)
    returns (es: seq<Runs.Event>)
    requires Unique(s.book.rows) && forall n | n in ns :: n.node != ""
    requires Runs.Enabled(serial, s, Runs.Begin(order.id))
    ensures
      var t := Runs.Run(serial, s, es);
      && t.book == ReserveTick(f, order, SlotReserve(f, order.id, s.book, ns).book, needs).book
      && Runs.IsReserving(t, order.id) && t.dead == s.dead
  {
    hide SlotReserve, ReserveTick, Runs.Run, Unique;
    var o := order.id;
    OneStep(serial, s, Runs.Begin(o));
    var begun := Runs.Next(serial, s, Runs.Begin(o));
    var slots := SlotHalfIsARun(serial, f, o, begun, ns);
    var held := Runs.Run(serial, begun, slots);
    OneStep(serial, held, Runs.List(o));
    var listed := Runs.Next(serial, held, Runs.List(o));
    SlotReserveRows(f, o, s.book, ns);
    var bins := BinHalfIsARun(serial, f, order, listed, needs);
    Runs.RunConcat(serial, s, [Runs.Begin(o)], slots);
    Runs.RunConcat(serial, s, [Runs.Begin(o)] + slots, [Runs.List(o)]);
    Runs.RunConcat(serial, s, [Runs.Begin(o)] + slots + [Runs.List(o)], bins);
    es := [Runs.Begin(o)] + slots + [Runs.List(o)] + bins;
  }

  /** Confirming one target, read as store operations: look at the claim, then affirm or claim. */
  function ConfirmEvents(b: Book, o: nat, t: Target, clear: set<Ref>): seq<Runs.Event> {
    if !t.resolved then []
    else if t.ref in b.claims && b.claims[t.ref] == o then
      if t.confirmed then [Runs.Look(o, t.ref)] else [Runs.Look(o, t.ref)] + [Runs.Affirm(o, t.ref)]
    else [Runs.Claim(o, t.ref, t.ref in clear)]
  }

  lemma TwoSteps(serial: bool, s: Runs.World, e: Runs.Event, g: Runs.Event)
    ensures Runs.Run(serial, s, [e] + [g]) == Runs.Next(serial, Runs.Next(serial, s, e), g)
  {
    OneStep(serial, s, e);
    Runs.RunStep(serial, s, [e], g);
  }

  lemma ConfirmOneIsARun(serial: bool, s: Runs.World, o: nat, t: Target, clear: set<Ref>)
    requires Runs.IsConfirming(s, o)
    ensures
      var u := Runs.Run(serial, s, ConfirmEvents(s.book, o, t, clear));
      u.book == ConfirmOne(s.book, o, t, clear).book && Runs.IsConfirming(u, o) && u.dead == s.dead
  {
    hide Runs.Run;
    OneStep(serial, s, Runs.Look(o, t.ref));
    OneStep(serial, s, Runs.Claim(o, t.ref, t.ref in clear));
    TwoSteps(serial, s, Runs.Look(o, t.ref), Runs.Affirm(o, t.ref));
  }

  /** A target that is got past is secured by the last claim or look of its events. */
  lemma ConfirmOneSecures(serial: bool, s: Runs.World, o: nat, t: Target, clear: set<Ref>)
    requires Runs.IsConfirming(s, o) && o !in s.dead && ConfirmOne(s.book, o, t, clear).ok
    ensures Runs.Committed(serial, s, ConfirmEvents(s.book, o, t, clear), o, {t.ref})
    ensures o !in Runs.Run(serial, s, ConfirmEvents(s.book, o, t, clear)).dead
  {
    hide Runs.Run;
    var es := ConfirmEvents(s.book, o, t, clear);
    OneStep(serial, s, es[0]);
    TwoSteps(serial, s, Runs.Look(o, t.ref), Runs.Affirm(o, t.ref));
    assert es[..1] == [es[0]];
    assert Runs.Secures(serial, s, es, 0, o, t.ref);
  }

  lemma CommittedEarlier(
    serial: bool, s: Runs.World, es: seq<Runs.Event>, more: seq<Runs.Event>, o: nat, refs: set<Ref>)
    requires Runs.Committed(serial, s, es, o, refs)
    requires forall e, ref | e in more && ref in refs :: !Runs.GivesUp(e, o, ref)
    ensures Runs.Committed(serial, s, es + more, o, refs)
  {
    forall ref | ref in refs
      ensures exists i: nat ::
        Runs.Secures(serial, s, es + more, i, o, ref)
        && forall k | i < k < |es + more| :: !Runs.GivesUp((es + more)[k], o, ref)
    {
      var i: nat :| Runs.Secures(serial, s, es, i, o, ref) && forall k | i < k < |es| :: !Runs.GivesUp(es[k], o, ref);
      assert (es + more)[..i + 1] == es[..i + 1];
      assert Runs.Secures(serial, s, es + more, i, o, ref);
      forall k | i < k < |es + more|
        ensures !Runs.GivesUp((es + more)[k], o, ref)
      {
        if k >= |es| {
          assert (es + more)[k] in more;
        }
      }
    }
  }

  lemma SecuresLater(
    serial: bool, s: Runs.World, es: seq<Runs.Event>, more: seq<Runs.Event>, j: nat, o: nat, ref: Ref)
    requires Runs.Secures(serial, Runs.Run(serial, s, es), more, j, o, ref)
    ensures Runs.Secures(serial, s, es + more, |es| + j, o, ref)
  {
    hide Runs.Run;
    assert (es + more)[..|es| + j + 1] == es + more[..j + 1];
    Runs.RunConcat(serial, s, es, more[..j + 1]);
  }

  lemma CommittedLater(serial: bool, s: Runs.World, es: seq<Runs.Event>, more: seq<Runs.Event>, o: nat, refs: set<Ref>)
    requires Runs.Committed(serial, Runs.Run(serial, s, es), more, o, refs)
    ensures Runs.Committed(serial, s, es + more, o, refs)
  {
    hide Runs.Run, Runs.Secures;
    var u, all := Runs.Run(serial, s, es), es + more;
    forall ref | ref in refs
      ensures exists i: nat ::
        Runs.Secures(serial, s, all, i, o, ref) && forall k | i < k < |all| :: !Runs.GivesUp(all[k], o, ref)
    {
      var j: nat :| Runs.Secures(serial, u, more, j, o, ref)
                 && forall k | j < k < |more| :: !Runs.GivesUp(more[k], o, ref);
      SecuresLater(serial, s, es, more, j, o, ref);
      var i := |es| + j;
      forall k | i < k < |all|
        ensures !Runs.GivesUp(all[k], o, ref)
      {
        assert all[k] == more[k - |es|];
      }
    }
  }

  /** The whole commit, up to where it stops, is a run of one order in its confirming phase; if it succeeds the
      order has committed all its targets in that run. */
  lemma {:induction false} CommitIsARun(serial: bool, s: Runs.World, o: nat, ts: seq<Target>, clear: set<Ref>)
    returns (es: seq<Runs.Event>)
    requires Runs.IsConfirming(s, o) && o !in s.dead
    ensures
      var u := Runs.Run(serial, s, es);
      u.book == ConfirmAll(s.book, o, ts, clear).book && Runs.IsConfirming(u, o) && o !in u.dead
    ensures ConfirmAll(s.book, o, ts, clear).ok ==> Runs.Committed(serial, s, es, o, RefsOf(ts))
  {
    if ts == [] {
      es := [];
      assert Runs.Run(serial, s, []) == s;
    } else {
      hide Runs.Committed, Runs.Run;
      var n := |ts| - 1;
      es := CommitIsARun(serial, s, o, ts[..n], clear);
      var u := Runs.Run(serial, s, es);
      if ConfirmAll(s.book, o, ts[..n], clear).ok {
        var more := ConfirmEvents(u.book, o, ts[n], clear);
        ConfirmOneIsARun(serial, u, o, ts[n], clear);
        Runs.RunConcat(serial, s, es, more);
        if ConfirmOne(u.book, o, ts[n], clear).ok {
          ConfirmOneSecures(serial, u, o, ts[n], clear);
          CommittedEarlier(serial, s, es, more, o, RefsOf(ts[..n]));
          CommittedLater(serial, s, es, more, o, {ts[n].ref});
          RefsSnoc(ts);
          CommittedBoth(serial, s, es + more, o, RefsOf(ts[..n]), {ts[n].ref});
        }
        es := es + more;
      }
    }
  }

  lemma CommittedBoth(serial: bool, s: Runs.World, es: seq<Runs.Event>, o: nat, a: set<Ref>, b: set<Ref>)
    requires Runs.Committed(serial, s, es, o, a) && Runs.Committed(serial, s, es, o, b)
    ensures Runs.Committed(serial, s, es, o, a + b)
  {
  }
}
