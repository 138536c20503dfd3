/** What the outcome of a reserve tick means on the floor. */
module AllocatorOutcome {
  import opened Plans
  import opened Reservations
  import opened Pickups
  import opened Allocator
  import opened AllocatorFacts
  import opened AllocatorRetry

  /** The line position a pickup came to clear holds nothing, and the plan does not refill it first. */
  ghost predicate LineEmpty(f: Floor, order: Order, n: Need) {
    order.processNode != "" && n.node == order.processNode && !HasBins(f, n.node) && !n.relay
  }

  ghost predicate SomeLineEmpty(f: Floor, order: Order, needs: seq<Need>) {
    exists n | n in needs :: LineEmpty(f, order, n)
  }

  ghost predicate NoBinsAnywhere(f: Floor, needs: seq<Need>) {
    forall n | n in needs :: !HasBins(f, n.node)
  }

  ghost predicate Flags(f: Floor, order: Order, t: Tick, needs: seq<Need>) {
    && (t.lineGone <==> SomeLineEmpty(f, order, needs))
    && (t.taken == [] ==> (!t.withBins <==> NoBinsAnywhere(f, needs)))
  }

  /** Nothing can be matched or found at a node without bins. */
  lemma NothingToTake(f: Floor, order: Order, b: Book, t: Tick, n: Need)
    requires ValidFloor(f) && HoldsOf(f, b, order.id, t.held) && !HasBins(f, n.node)
    ensures FirstMatch(t.held, n, 0) == |t.held|
    ensures n.node in f.nodes ==> FirstAvailable(t.book, order, n, f.bins, 0) == |f.bins|
  {
    var twin := n.(relay := true);
    assert EmptyRelay(f, twin);
    MatchedNeedIsWanted(f, b, order.id, t.held, twin);
    assert forall h | h in t.held :: Matches(h, n) == Matches(h, twin);
    SameSearch(t.held, n, twin, 0);
    forall j | 0 <= j < |f.bins| && n.node in f.nodes
      ensures !Available(t.book, order, n, f.bins[j])
    {
      assert f.bins[j] in f.bins;
    }
  }

  lemma {:induction false} SameSearch(held: seq<Held>, n: Need, m: Need, from: nat)
    requires from <= |held| && forall h | h in held :: Matches(h, n) == Matches(h, m)
    ensures FirstMatch(held, n, from) == FirstMatch(held, m, from)
    decreases |held| - from
  {
    if from < |held| {
      assert held[from] in held;
      SameSearch(held, n, m, from + 1);
    }
  }

  lemma VisitFlags(f: Floor, order: Order, b: Book, t: Tick, n: Need)
    requires ValidFloor(f) && HoldsOf(f, b, order.id, t.held)
    ensures
      var v := Visit(f, order, t, n);
      && (v.lineGone <==> t.lineGone || LineEmpty(f, order, n))
      && (v.taken == t.taken || |v.taken| > |t.taken|)
      && (v.taken == t.taken ==> (v.withBins <==> t.withBins || HasBins(f, n.node)))
  {
    if !HasBins(f, n.node) {
      NothingToTake(f, order, b, t, n);
    } else {
      assert n.node in f.nodes;
    }
  }

  lemma {:induction false} WalkFlags(f: Floor, order: Order, b: Book, needs: seq<Need>, start: Tick)
    requires ValidFloor(f) && Unique(b.rows) && start == Start(f, b, order.id)
    ensures Flags(f, order, Walk(f, order, start, needs), needs)
  {
    if needs != [] {
      hide Visit, LineEmpty, HasBins, ValidFloor, HoldsOf, Unique;
      var m := |needs| - 1;
      var t := Walk(f, order, start, needs[..m]);
      WalkFlags(f, order, b, needs[..m], start);
      WalkHolds(f, order, b, needs[..m]);
      VisitFlags(f, order, b, t, needs[m]);
      assert needs == needs[..m] + [needs[m]];
    }
  }

  /** The plan has a step of this kind at the node. */
  ghost predicate ActsAt(p: Plan, action: Action, node: string) {
    exists i | 0 <= i < |p| :: p[i].action == action && p[i].node == node
  }

  lemma ActsAtMembers(p: Plan, node: string)
    ensures LegTakesLineBin(p, node) <==> node != "" && ActsAt(p, Pickup, node) && !ActsAt(p, Dropoff, node)
    ensures LegPlacesLineBin(p, node) <==> node != "" && ActsAt(p, Dropoff, node) && !ActsAt(p, Pickup, node)
  {
    forall s | s in p && s.node == node
      ensures s.action.Pickup? ==> ActsAt(p, Pickup, node)
      ensures s.action.Dropoff? ==> ActsAt(p, Dropoff, node)
    {
      var i :| 0 <= i < |p| && p[i] == s;
    }
    forall i | 0 <= i < |p|
      ensures p[i] in p
    {
    }
  }

  /** An order is complete exactly when its pickups are covered. It is moot exactly when they are not and
      either it only clears the line and the line is empty, or it took nothing, no pickup's node has any bin,
      and it is not the leg that fills the line. In every other case it holds what it has. */
  lemma OutcomeIff(f: Floor, order: Order, b: Book, p: Plan)
    requires ValidFloor(f) && Unique(b.rows)
    ensures
      var needs, line := NeedsOf(p), order.processNode;
      var t := ReserveTick(f, order, b, needs);
      var outcome := Verdict(t, p, line);
      && (outcome.Complete? <==> LinesUp(t.taken, Wanted(f, needs)))
      && (outcome.Moot? <==>
            && !LinesUp(t.taken, Wanted(f, needs))
            && (|| (&& SomeLineEmpty(f, order, needs)
                    && line != "" && ActsAt(p, Pickup, line) && !ActsAt(p, Dropoff, line))
                || (&& t.taken == [] && NoBinsAnywhere(f, needs)
                    && !(line != "" && ActsAt(p, Dropoff, line) && !ActsAt(p, Pickup, line)))))
  {
    var needs := NeedsOf(p);
    CompleteIff(f, order, b, needs);
    ActsAtMembers(p, order.processNode);
    WalkFlags(f, order, b, needs, Start(f, b, order.id));
    hide NeedsOf, Walk, LinesUp, Wanted, SomeLineEmpty, NoBinsAnywhere, LegTakesLineBin, LegPlacesLineBin, ActsAt;
  }
}
