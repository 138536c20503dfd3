/** When a reserve is complete, and when reserving again changes nothing. */
module AllocatorRetry {
  import opened Reservations
  import opened Pickups
  import opened Allocator
  import opened AllocatorFacts

  // ---- completeness ----

  /** The pickups that must be sourced: all but the relays whose node is empty. */
  function Wanted(f: Floor, needs: seq<Need>): seq<Need> {
    if needs == [] then []
    else
      var front := Wanted(f, needs[..|needs| - 1]);
      var n := needs[|needs| - 1];
      if EmptyRelay(f, n) then front else front + [n]
  }

  ghost predicate LinesUp(ts: seq<Taken>, ns: seq<Need>) {
    |ts| == |ns| && forall i | 0 <= i < |ts| :: ts[i].index == ns[i].index && ts[i].node == ns[i].node
  }

  lemma HeldStandsSomewhere(f: Floor, b: Book, o: nat, held: seq<Held>, h: Held)
    requires ValidFloor(f) && HoldsOf(f, b, o, held) && h in held && h.ref.BinRef? && h.node != ""
    ensures HasBins(f, h.node)
  {
    var own := Keep(b.rows, Of(o));
    var i :| 0 <= i < |held| && held[i] == h;
    assert held[i].(used := false) == Resolve(f, own[i]);
    var k := BinIndex(f.bins, h.ref.bin);
    assert f.bins[k] in f.bins;
  }

  lemma MatchedNeedIsWanted(f: Floor, b: Book, o: nat, held: seq<Held>, n: Need)
    requires ValidFloor(f) && HoldsOf(f, b, o, held) && EmptyRelay(f, n)
    ensures FirstMatch(held, n, 0) == |held|
  {
    var k := FirstMatch(held, n, 0);
    if k < |held| {
      HeldStandsSomewhere(f, b, o, held, held[k]);
    }
  }

  lemma NothingAtAnEmptyRelay(f: Floor, b: Book, order: Order, n: Need)
    requires ValidFloor(f) && EmptyRelay(f, n) && n.node in f.nodes
    ensures FirstAvailable(b, order, n, f.bins, 0) == |f.bins|
  {
    forall j | 0 <= j < |f.bins|
      ensures !Available(b, order, n, f.bins[j])
    {
      assert f.bins[j] in f.bins;
    }
  }

  lemma EmptyRelayIsSkipped(f: Floor, order: Order, b: Book, t: Tick, n: Need)
    requires ValidFloor(f) && HoldsOf(f, b, order.id, t.held) && EmptyRelay(f, n)
    ensures Visit(f, order, t, n) == t
  {
    MatchedNeedIsWanted(f, b, order.id, t.held, n);
    if n.node in f.nodes {
      NothingAtAnEmptyRelay(f, t.book, order, n);
    }
  }

  lemma WalkHolds(f: Floor, order: Order, b: Book, needs: seq<Need>)
    requires Unique(b.rows)
    ensures HoldsOf(f, b, order.id, Walk(f, order, Start(f, b, order.id), needs).held)
  {
    WalkKeepsInv(f, order, b, needs);
  }

  lemma {:induction false} WalkCounts(f: Floor, order: Order, b: Book, needs: seq<Need>, start: Tick)
    requires ValidFloor(f) && Unique(b.rows) && start == Start(f, b, order.id)
    ensures
      var t := Walk(f, order, start, needs);
      && |t.taken| + t.missing == |Wanted(f, needs)|
      && (t.missing == 0 ==> LinesUp(t.taken, Wanted(f, needs)))
  {
    if needs != [] {
      hide Visit, Unique, ValidFloor, EmptyRelay, HoldsOf;
      var m := |needs| - 1;
      var t := Walk(f, order, start, needs[..m]);
      WalkCounts(f, order, b, needs[..m], start);
      WalkHolds(f, order, b, needs[..m]);
      if EmptyRelay(f, needs[m]) {
        EmptyRelayIsSkipped(f, order, b, t, needs[m]);
      } else {
        VisitCounts(f, order, t, needs[m]);
      }
    }
  }

  lemma VisitCounts(f: Floor, order: Order, t: Tick, n: Need)
    requires !EmptyRelay(f, n)
    ensures
      var v := Visit(f, order, t, n);
      || (v.missing == t.missing && |v.taken| == |t.taken| + 1 && v.taken[..|t.taken|] == t.taken
          && v.taken[|t.taken|].index == n.index && v.taken[|t.taken|].node == n.node)
      || (v.missing == t.missing + 1 && v.taken == t.taken)
  {
  }

  /** The outcome is complete exactly when what was taken lines up, pickup for pickup, with the pickups
      that are not empty-node relays. */
  lemma CompleteIff(f: Floor, order: Order, b: Book, needs: seq<Need>)
    requires ValidFloor(f) && Unique(b.rows)
    ensures
      var t := ReserveTick(f, order, b, needs);
      t.missing == 0 <==> LinesUp(t.taken, Wanted(f, needs))
  {
    WalkCounts(f, order, b, needs, Start(f, b, order.id));
  }

  // ---- what is taken, and what a miss means ----

  /** At a non-blank process node any payload will do. Elsewhere an empty pickup wants no payload, and the other
      kind, for an order that names a payload, that one or none. */
  ghost predicate RightPayload(order: Order, n: Need, payload: string) {
    order.processNode == "" || n.node != order.processNode ==>
      && (n.empty ==> payload == "")
      && (!n.empty && order.payload != "" ==> payload == "" || payload == order.payload)
  }

  /** Pickup `n` took bin `k.bin` rightly: the bin stands at its node, and the order either held it before
      with the emptiness asked for, or it was usable, had the right payload, and nobody claimed or reserved it. */
  ghost predicate RightlyTaken(f: Floor, order: Order, b: Book, n: Need, k: Taken) {
    && k.index == n.index && k.node == n.node
    && exists bin | bin in f.bins ::
      && bin.id == k.bin && bin.node == n.node
      && (|| (HasRow(b.rows, order.id, BinRef(k.bin)) && (bin.payload == "") == n.empty)
          || (bin.usable && RightPayload(order, n, bin.payload)
              && BinRef(k.bin) !in b.claims && forall r | r in b.rows :: r.ref != BinRef(k.bin)))
  }

  lemma VisitTakesRightly(f: Floor, order: Order, b: Book, t: Tick, n: Need)
    requires ValidFloor(f) && Inv(f, order.id, b, t)
    ensures
      var v := Visit(f, order, t, n);
      || v.taken == t.taken
      || (v.taken != [] && v.taken == t.taken + [v.taken[|v.taken| - 1]]
          && RightlyTaken(f, order, b, n, v.taken[|v.taken| - 1]))
  {
    var k := FirstMatch(t.held, n, 0);
    if k < |t.held| {
      var h := t.held[k];
      HeldRowIsOwn(f, b, order.id, t.held, h);
      assert HasRow(b.rows, order.id, h.ref);
      var own := Keep(b.rows, Of(order.id));
      assert t.held[k].(used := false) == Resolve(f, own[k]);
      var i := BinIndex(f.bins, h.ref.bin);
      assert f.bins[i] in f.bins;
    } else if n.node in f.nodes {
      var m := FirstAvailable(t.book, order, n, f.bins, 0);
      if m < |f.bins| && !Reserved(t.book.rows, BinRef(f.bins[m].id)) {
        assert f.bins[m] in f.bins;
        StillUnreserved(b.rows, t.book.rows, BinRef(f.bins[m].id));
      }
    }
  }

  lemma StillUnreserved(a: seq<Row>, c: seq<Row>, ref: Ref)
    requires a <= c && !Reserved(c, ref)
    ensures !Reserved(a, ref)
  {
    forall i | 0 <= i < |a|
      ensures a[i].ref != ref
    {
      assert a[i] == c[i];
    }
  }

  lemma {:induction false} WalkTakesRightly(f: Floor, order: Order, b: Book, needs: seq<Need>, start: Tick)
    requires ValidFloor(f) && Unique(b.rows) && start == Start(f, b, order.id)
    ensures forall k | k in Walk(f, order, start, needs).taken ::
      exists n | n in needs :: RightlyTaken(f, order, b, n, k)
  {
    if needs != [] {
      hide Visit, Unique, ValidFloor, RightlyTaken, Inv;
      var m := |needs| - 1;
      var t := Walk(f, order, start, needs[..m]);
      WalkTakesRightly(f, order, b, needs[..m], start);
      WalkKeepsInv(f, order, b, needs[..m]);
      VisitTakesRightly(f, order, b, t, needs[m]);
      var v := Walk(f, order, start, needs);
      forall k | k in v.taken
        ensures exists n | n in needs :: RightlyTaken(f, order, b, n, k)
      {
        if k in t.taken {
          var n :| n in needs[..m] && RightlyTaken(f, order, b, n, k);
          assert n in needs;
        } else {
          assert needs[m] in needs;
        }
      }
    }
  }

  /** Every bin a tick takes is taken rightly for one of the pickups. */
  lemma TakenAreRight(f: Floor, order: Order, b: Book, needs: seq<Need>)
    requires ValidFloor(f) && Unique(b.rows)
    ensures forall k | k in ReserveTick(f, order, b, needs).taken ::
      exists n | n in needs :: RightlyTaken(f, order, b, n, k)
  {
    WalkTakesRightly(f, order, b, needs, Start(f, b, order.id));
  }

  /** The bin stands there usable with the right payload, nobody claims it and nobody has it pending. */
  ghost predicate CouldHave(b: Book, order: Order, n: Need, bin: Bin) {
    && bin.node == n.node && bin.usable && RightPayload(order, n, bin.payload)
    && BinRef(bin.id) !in b.claims
    && forall r | r in b.rows && r.ref == BinRef(bin.id) :: r.confirmed
  }

  lemma AvailableIff(b: Book, order: Order, n: Need, bin: Bin)
    ensures Available(b, order, n, bin) <==> CouldHave(b, order, n, bin)
  {
    if CouldHave(b, order, n, bin) {
      forall i | 0 <= i < |b.rows| && b.rows[i].ref == BinRef(bin.id)
        ensures b.rows[i].confirmed
      {
        assert b.rows[i] in b.rows;
      }
    }
  }

  /** The bin has a confirmed row and nobody's claim, so it reads as available and cannot be reserved. */
  ghost predicate Unclaimable(b: Book, bin: Bin) {
    && BinRef(bin.id) !in b.claims
    && exists r | r in b.rows :: r.ref == BinRef(bin.id) && r.confirmed
  }

  ghost predicate FirstToHave(b: Book, order: Order, n: Need, bins: seq<Bin>, i: nat) {
    && i < |bins| && CouldHave(b, order, n, bins[i])
    && forall j | 0 <= j < i :: !CouldHave(b, order, n, bins[j])
  }

  /** A pickup is missed exactly when no unused hold matches it and, unless it waits for a relay onto an empty
      node, no bin at its node could be had; or the first that could has a row that is confirmed without a
      claim, which no book with every confirmed row claimed contains. */
  lemma MissMeansNothingToHave(f: Floor, order: Order, t: Tick, n: Need)
    ensures
      var none := n.node in f.nodes ==> forall bin | bin in f.bins :: !CouldHave(t.book, order, n, bin);
      var emptyRelay := n.relay && (n.node in f.nodes ==> forall bin | bin in f.bins :: bin.node != n.node);
      Visit(f, order, t, n).missing > t.missing <==>
        && (n.node, n.empty) !in Supply(t.held)
        && (if none then !emptyRelay
            else exists i: nat :: FirstToHave(t.book, order, n, f.bins, i) && Unclaimable(t.book, f.bins[i]))
    ensures (forall r | r in t.book.rows && r.confirmed :: r.ref in t.book.claims) ==>
      forall bin | bin in f.bins :: !Unclaimable(t.book, bin)
  {
    MatchIffSupplied(t.held, n);
    forall bin
      ensures Available(t.book, order, n, bin) <==> CouldHave(t.book, order, n, bin)
    {
      AvailableIff(t.book, order, n, bin);
    }
    if n.node in f.nodes {
      var m := FirstAvailable(t.book, order, n, f.bins, 0);
      hide CouldHave, Available, Supply;
      forall i: nat | FirstToHave(t.book, order, n, f.bins, i)
        ensures i == m
      {
      }
      if m < |f.bins| {
        assert f.bins[m] in f.bins;
        assert FirstToHave(t.book, order, n, f.bins, m);
        FirstMissed(t.book, order, n, f.bins[m]);
      }
    }
  }

  lemma FirstMissed(b: Book, order: Order, n: Need, bin: Bin)
    requires CouldHave(b, order, n, bin)
    ensures Reserved(b.rows, BinRef(bin.id)) <==> Unclaimable(b, bin)
  {
    AvailableIff(b, order, n, bin);
    ReservedIsPendingOrConfirmed(b.rows, BinRef(bin.id));
  }

  lemma ReservedIsPendingOrConfirmed(rows: seq<Row>, ref: Ref)
    ensures Reserved(rows, ref) <==> Pending(rows, ref) || exists r | r in rows :: r.ref == ref && r.confirmed
  {
    if Reserved(rows, ref) && !Pending(rows, ref) {
      var i :| 0 <= i < |rows| && rows[i].ref == ref;
      assert rows[i] in rows;
    }
  }

  // ---- supply and demand by (node, empty) ----

  type Key = (string, bool)

  function KeyOf(f: Floor, ref: Ref): Key {
    var h := Resolve(f, Row(0, ref, false));
    (h.node, h.empty)
  }

  predicate Free(h: Held) {
    !h.used && h.ref.BinRef? && h.node != ""
  }

  function Supply(held: seq<Held>): multiset<Key> {
    if held == [] then multiset{}
    else
      var h := held[|held| - 1];
      Supply(held[..|held| - 1]) + if Free(h) then multiset{(h.node, h.empty)} else multiset{}
  }

  function Demand(f: Floor, needs: seq<Need>): multiset<Key> {
    if needs == [] then multiset{}
    else
      var n := needs[|needs| - 1];
      Demand(f, needs[..|needs| - 1]) + if EmptyRelay(f, n) then multiset{} else multiset{(n.node, n.empty)}
  }

  lemma {:induction false} SupplyHas(held: seq<Held>, key: Key)
    ensures key in Supply(held) <==> exists h | h in held :: Free(h) && (h.node, h.empty) == key
  {
    if held != [] {
      var n := |held| - 1;
      SupplyHas(held[..n], key);
      assert held == held[..n] + [held[n]];
    }
  }

  lemma {:induction false} SupplyUse(held: seq<Held>, k: nat)
    requires k < |held| && Free(held[k])
    ensures Supply(held[k := held[k].(used := true)]) == Supply(held) - multiset{(held[k].node, held[k].empty)}
    ensures (held[k].node, held[k].empty) in Supply(held)
  {
    var n := |held| - 1;
    var marked := held[k := held[k].(used := true)];
    if k == n {
      assert marked[..n] == held[..n];
    } else {
      SupplyUse(held[..n], k);
      assert marked[..n] == held[..n][k := held[k].(used := true)];
    }
  }

  lemma MatchIffSupplied(held: seq<Held>, n: Need)
    ensures FirstMatch(held, n, 0) < |held| <==> (n.node, n.empty) in Supply(held)
  {
    SupplyHas(held, (n.node, n.empty));
    var k := FirstMatch(held, n, 0);
    if k < |held| {
      assert held[k] in held;
    }
    forall i | 0 <= i < |held| && Free(held[i]) && (held[i].node, held[i].empty) == (n.node, n.empty)
      ensures Matches(held[i], n)
    {
    }
  }

  lemma {:induction false} DemandSize(f: Floor, needs: seq<Need>)
    ensures |Demand(f, needs)| == |Wanted(f, needs)|
  {
    if needs != [] {
      DemandSize(f, needs[..|needs| - 1]);
    }
  }

  /** A pickup reuses a hold exactly when one of its (node, empty) is left, and uses up that one. */
  lemma VisitUsesSupply(f: Floor, order: Order, t: Tick, n: Need)
    ensures
      var v := Visit(f, order, t, n);
      var key := (n.node, n.empty);
      if key in Supply(t.held)
      then v.book == t.book && v.missing == t.missing && Supply(v.held) == Supply(t.held) - multiset{key}
      else v.held == t.held
  {
    MatchIffSupplied(t.held, n);
    var k := FirstMatch(t.held, n, 0);
    if k < |t.held| {
      SupplyUse(t.held, k);
    }
  }

  lemma OneMore(s: multiset<Key>, d: multiset<Key>, key: Key)
    requires d + multiset{key} <= s
    ensures d <= s && key in s - d && s - d - multiset{key} == s - (d + multiset{key})
  {
    assert (d + multiset{key})[key] == d[key] + 1;
  }

  /** While demand is within supply every wanted pickup reuses a hold and no row is touched. */
  lemma {:induction false} WalkReuses(f: Floor, order: Order, b: Book, needs: seq<Need>, start: Tick)
    requires ValidFloor(f) && Unique(b.rows) && start == Start(f, b, order.id)
    requires Demand(f, needs) <= Supply(start.held)
    ensures
      var t := Walk(f, order, start, needs);
      t.book == b && t.missing == 0 && Supply(t.held) == Supply(start.held) - Demand(f, needs)
  {
    if needs != [] {
      hide Visit, Supply, EmptyRelay, Unique, ValidFloor, HoldsOf;
      var m := |needs| - 1;
      var n := needs[m];
      var t := Walk(f, order, start, needs[..m]);
      WalkHolds(f, order, b, needs[..m]);
      if EmptyRelay(f, n) {
        WalkReuses(f, order, b, needs[..m], start);
        EmptyRelayIsSkipped(f, order, b, t, n);
      } else {
        OneMore(Supply(start.held), Demand(f, needs[..m]), (n.node, n.empty));
        WalkReuses(f, order, b, needs[..m], start);
        VisitUsesSupply(f, order, t, n);
      }
    }
  }

  /** Whatever is used up was asked for. */
  lemma {:induction false} WalkUsesWhatIsAsked(f: Floor, order: Order, b: Book, needs: seq<Need>, start: Tick)
    requires ValidFloor(f) && Unique(b.rows) && start == Start(f, b, order.id)
    ensures
      var t := Walk(f, order, start, needs);
      Supply(start.held) <= Supply(t.held) + Demand(f, needs)
  {
    if needs != [] {
      hide Visit, Supply, EmptyRelay, Unique, ValidFloor, HoldsOf;
      var m := |needs| - 1;
      var n := needs[m];
      var t := Walk(f, order, start, needs[..m]);
      WalkUsesWhatIsAsked(f, order, b, needs[..m], start);
      WalkHolds(f, order, b, needs[..m]);
      if EmptyRelay(f, n) {
        EmptyRelayIsSkipped(f, order, b, t, n);
      }
      VisitUsesSupply(f, order, t, n);
    }
  }

  lemma {:induction false} NoStrayNoSupply(held: seq<Held>)
    requires forall h | h in held :: !IsStray(h)
    ensures Supply(held) == multiset{}
  {
    if held != [] {
      var n := |held| - 1;
      assert held[n] in held;
      NoStrayNoSupply(held[..n]);
    }
  }

  lemma {:induction false} DropNone(b: Book, o: nat, held: seq<Held>)
    requires forall h | h in held :: !IsStray(h)
    ensures DropStrays(b, o, held) == b
  {
    if held != [] {
      var n := |held| - 1;
      assert held[n] in held;
      DropNone(b, o, held[..n]);
    }
  }

  lemma EmptySupplyNoStray(held: seq<Held>)
    requires Supply(held) == multiset{}
    requires forall h | h in held && h.ref.BinRef? :: h.node != ""
    ensures forall h | h in held :: !IsStray(h)
  {
    forall h | h in held
      ensures !IsStray(h)
    {
      SupplyHas(held, (h.node, h.empty));
    }
  }

  /** If the tick leaves the book as it was, then every bin hold was used. */
  lemma IdleMeansAllUsed(f: Floor, order: Order, b: Book, needs: seq<Need>)
    requires Unique(b.rows) && ReserveTick(f, order, b, needs).book == b
    ensures forall h | h in Walk(f, order, Start(f, b, order.id), needs).held :: !IsStray(h)
  {
    var w := Walk(f, order, Start(f, b, order.id), needs);
    WalkKeepsInv(f, order, b, needs);
    HeldRowsStillOwn(f, order.id, b, w);
    StraysDropped(w.book, order.id, w.held);
    forall h | h in w.held
      ensures !IsStray(h)
    {
      HeldRowIsOwn(f, b, order.id, w.held, h);
      assert Row(order.id, h.ref, h.confirmed) in b.rows;
    }
  }

  /** A tick over holds that all stand somewhere, as many as the pickups to source, changes nothing
      exactly when it holds of every (node, empty) as many as are asked for. */
  lemma IdleIffBalanced(f: Floor, order: Order, b: Book, needs: seq<Need>)
    requires ValidFloor(f) && Unique(b.rows)
    requires forall h | h in Start(f, b, order.id).held && h.ref.BinRef? :: h.node != ""
    requires |Supply(Start(f, b, order.id).held)| == |Demand(f, needs)|
    ensures ReserveTick(f, order, b, needs).book == b
      <==> Supply(Start(f, b, order.id).held) == Demand(f, needs)
    ensures Supply(Start(f, b, order.id).held) == Demand(f, needs) ==> ReserveTick(f, order, b, needs).missing == 0
  {
    var start := Start(f, b, order.id);
    var w := Walk(f, order, start, needs);
    if Supply(start.held) == Demand(f, needs) {
      WalkReuses(f, order, b, needs, start);
      WalkKeepsInv(f, order, b, needs);
      HeldNodesStay(f, b, order.id, start.held, w.held);
      EmptySupplyNoStray(w.held);
      DropNone(w.book, order.id, w.held);
    }
    if ReserveTick(f, order, b, needs).book == b {
      IdleMeansAllUsed(f, order, b, needs);
      NoStrayNoSupply(w.held);
      WalkUsesWhatIsAsked(f, order, b, needs, start);
      SubsetOfSameSize(Supply(start.held), Demand(f, needs));
    }
  }

  lemma SubsetOfSameSize(a: multiset<Key>, b: multiset<Key>)
    requires a <= b && |a| == |b|
    ensures a == b
  {
    assert b == a + (b - a);
    assert |b - a| == 0;
  }

  lemma HeldNodesStay(f: Floor, b: Book, o: nat, held: seq<Held>, later: seq<Held>)
    requires HoldsOf(f, b, o, held) && HoldsOf(f, b, o, later)
    requires forall h | h in held && h.ref.BinRef? :: h.node != ""
    ensures forall h | h in later && h.ref.BinRef? :: h.node != ""
  {
    var own := Keep(b.rows, Of(o));
    forall h | h in later && h.ref.BinRef?
      ensures h.node != ""
    {
      var i :| 0 <= i < |later| && later[i] == h;
      assert later[i].(used := false) == Resolve(f, own[i]);
      assert held[i].(used := false) == Resolve(f, own[i]);
      assert held[i] in held;
    }
  }

  // ---- the holds a first tick leaves ----

  function BinRefs(rows: seq<Row>): seq<Ref> {
    if rows == [] then []
    else
      var front := BinRefs(rows[..|rows| - 1]);
      var r := rows[|rows| - 1];
      if r.ref.BinRef? then front + [r.ref] else front
  }

  /** The bins by (node, empty), counting those that stand somewhere. */
  function Keys(f: Floor, refs: seq<Ref>): multiset<Key> {
    if refs == [] then multiset{}
    else
      var key := KeyOf(f, refs[|refs| - 1]);
      Keys(f, refs[..|refs| - 1]) + if key.0 != "" then multiset{key} else multiset{}
  }

  function TakenBins(ts: seq<Taken>): seq<Ref> {
    seq(|ts|, i requires 0 <= i < |ts| => BinRef(ts[i].bin))
  }

  lemma ResolvedKey(f: Floor, r: Row)
    ensures KeyOf(f, r.ref) == (Resolve(f, r).node, Resolve(f, r).empty)
    ensures Free(Resolve(f, r)) <==> r.ref.BinRef? && KeyOf(f, r.ref).0 != ""
  {
  }

  lemma SupplySnoc(held: seq<Held>, h: Held)
    ensures Supply(held + [h]) == Supply(held) + if Free(h) then multiset{(h.node, h.empty)} else multiset{}
  {
    assert (held + [h])[..|held|] == held;
  }

  lemma KeysSnoc(f: Floor, refs: seq<Ref>, ref: Ref)
    ensures Keys(f, refs + [ref])
      == Keys(f, refs) + if KeyOf(f, ref).0 != "" then multiset{KeyOf(f, ref)} else multiset{}
  {
    assert (refs + [ref])[..|refs|] == refs;
  }

  lemma ResolveAllSnoc(f: Floor, rows: seq<Row>)
    requires rows != []
    ensures ResolveAll(f, rows) == ResolveAll(f, rows[..|rows| - 1]) + [Resolve(f, rows[|rows| - 1])]
  {
  }

  lemma {:induction false} SupplyOfRows(f: Floor, rows: seq<Row>)
    ensures Supply(ResolveAll(f, rows)) == Keys(f, BinRefs(rows))
  {
    if rows != [] {
      hide Resolve, ResolveAll, KeyOf, Free, Supply, Keys;
      var n := |rows| - 1;
      var r := rows[n];
      SupplyOfRows(f, rows[..n]);
      ResolveAllSnoc(f, rows);
      SupplySnoc(ResolveAll(f, rows[..n]), Resolve(f, r));
      ResolvedKey(f, r);
      if r.ref.BinRef? {
        KeysSnoc(f, BinRefs(rows[..n]), r.ref);
      }
    }
  }

  lemma {:induction false} BinRefsMembers(rows: seq<Row>, ref: Ref)
    ensures ref in BinRefs(rows) <==> ref.BinRef? && exists r | r in rows :: r.ref == ref
  {
    if rows != [] {
      var n := |rows| - 1;
      BinRefsMembers(rows[..n], ref);
      assert rows == rows[..n] + [rows[n]];
    }
  }

  ghost predicate NoRepeat(refs: seq<Ref>) {
    forall i, j | 0 <= i < j < |refs| :: refs[i] != refs[j]
  }

  lemma {:induction false} BinRefsNoRepeat(rows: seq<Row>)
    requires Unique(rows)
    ensures NoRepeat(BinRefs(rows))
  {
    if rows != [] {
      var n := |rows| - 1;
      BinRefsNoRepeat(rows[..n]);
      BinRefsMembers(rows[..n], rows[n].ref);
      assert rows[n].ref !in BinRefs(rows[..n]);
    }
  }

  lemma {:induction false} KeysWithout(f: Floor, refs: seq<Ref>, i: nat)
    requires i < |refs|
    ensures Keys(f, refs) == Keys(f, refs[..i] + refs[i + 1..]) + Keys(f, [refs[i]])
  {
    hide Keys, KeyOf;
    var n := |refs| - 1;
    var last := refs[n];
    assert refs == refs[..n] + [last];
    KeysSnoc(f, refs[..n], last);
    KeysSnoc(f, [], last);
    NoKeys(f);
    assert [] + [last] == [last];
    if i == n {
      assert refs[..i] + refs[i + 1..] == refs[..n];
    } else {
      var fewer := refs[..n][..i] + refs[..n][i + 1..];
      KeysWithout(f, refs[..n], i);
      assert refs[..i] + refs[i + 1..] == fewer + [last];
      KeysSnoc(f, fewer, last);
    }
  }

  lemma NoKeys(f: Floor)
    ensures Keys(f, []) == multiset{}
  {
  }

  lemma SomethingIn(c: seq<Ref>)
    requires c != []
    ensures exists ref :: ref in c
  {
    assert c[0] in c;
  }

  lemma DropOne(c: seq<Ref>, i: nat, ref: Ref)
    requires NoRepeat(c) && i < |c|
    ensures NoRepeat(c[..i] + c[i + 1..])
    ensures ref in c[..i] + c[i + 1..] <==> ref in c && ref != c[i]
  {
    var d := c[..i] + c[i + 1..];
    if ref in c && ref != c[i] {
      var j :| 0 <= j < |c| && c[j] == ref;
      assert d[if j < i then j else j - 1] == ref;
    }
  }

  /** Two lists of the same distinct bins have the same keys. */
  lemma {:induction false} SameBinsSameKeys(f: Floor, a: seq<Ref>, c: seq<Ref>)
    requires NoRepeat(a) && NoRepeat(c) && forall ref :: ref in a <==> ref in c
    ensures Keys(f, a) == Keys(f, c)
    ensures |a| == |c|
  {
    if a == [] {
      if c != [] {
        SomethingIn(c);
      }
    } else {
      hide Keys, NoRepeat;
      var n := |a| - 1;
      assert a[n] in a;
      var i :| 0 <= i < |c| && c[i] == a[n];
      assert a[..n] + a[n + 1..] == a[..n];
      forall ref
        ensures ref in a[..n] <==> ref in c[..i] + c[i + 1..]
      {
        DropOne(a, n, ref);
        DropOne(c, i, ref);
      }
      DropOne(a, n, a[n]);
      DropOne(c, i, c[i]);
      SameBinsSameKeys(f, a[..n], c[..i] + c[i + 1..]);
      KeysWithout(f, c, i);
      KeysWithout(f, a, n);
    }
  }

  // ---- where the taken bins stand ----

  ghost predicate StandsAt(f: Floor, k: Taken) {
    k.node != "" && KeyOf(f, BinRef(k.bin)).0 == k.node
  }

  lemma VisitTakesStanding(f: Floor, order: Order, b: Book, t: Tick, n: Need)
    requires ValidFloor(f) && HoldsOf(f, b, order.id, t.held)
    requires forall k | k in t.taken :: StandsAt(f, k)
    ensures forall k | k in Visit(f, order, t, n).taken :: StandsAt(f, k)
  {
    var k := FirstMatch(t.held, n, 0);
    if k < |t.held| {
      var own := Keep(b.rows, Of(order.id));
      assert t.held[k].(used := false) == Resolve(f, own[k]);
    } else if n.node in f.nodes {
      var m := FirstAvailable(t.book, order, n, f.bins, 0);
      if m < |f.bins| {
        var i := BinIndex(f.bins, f.bins[m].id);
        assert f.bins[m] in f.bins;
        assert i == m;
      }
    }
  }

  lemma {:induction false} WalkTakesStanding(f: Floor, order: Order, b: Book, needs: seq<Need>)
    requires ValidFloor(f) && Unique(b.rows)
    ensures forall k | k in Walk(f, order, Start(f, b, order.id), needs).taken :: StandsAt(f, k)
  {
    if needs != [] {
      var n := |needs| - 1;
      WalkTakesStanding(f, order, b, needs[..n]);
      WalkHolds(f, order, b, needs[..n]);
      VisitTakesStanding(f, order, b, Walk(f, order, Start(f, b, order.id), needs[..n]), needs[n]);
    }
  }

  lemma {:induction false} StandingKeys(f: Floor, refs: seq<Ref>)
    requires forall ref | ref in refs :: KeyOf(f, ref).0 != ""
    ensures |Keys(f, refs)| == |refs|
  {
    if refs != [] {
      assert refs[|refs| - 1] in refs;
      StandingKeys(f, refs[..|refs| - 1]);
    }
  }

  // ---- theorem: the second tick ----

  /** `c` has the same bins reserved by the order as the first tick left, whatever has been confirmed
      or has changed for other orders since. */
  ghost predicate SameBinsHeld(o: nat, b: Book, c: Book) {
    forall bin :: HasRow(c.rows, o, BinRef(bin)) <==> HasRow(b.rows, o, BinRef(bin))
  }

  lemma OwnBins(f: Floor, order: Order, b: Book, needs: seq<Need>, c: Book)
    requires Unique(b.rows) && Unique(c.rows)
    requires SameBinsHeld(order.id, ReserveTick(f, order, b, needs).book, c)
    ensures
      var own := BinRefs(Keep(c.rows, Of(order.id)));
      var bins := TakenBins(ReserveTick(f, order, b, needs).taken);
      NoRepeat(own) && NoRepeat(bins) && forall ref :: ref in own <==> ref in bins
  {
    var t := ReserveTick(f, order, b, needs);
    ReserveLeavesExactlyTheTaken(f, order, b, needs);
    hide ReserveTick;
    var rows := Keep(c.rows, Of(order.id));
    KeepUnique(c.rows, Of(order.id));
    BinRefsNoRepeat(rows);
    forall ref
      ensures ref in BinRefs(rows) <==> ref in TakenBins(t.taken)
    {
      BinRefsMembers(rows, ref);
      if ref.BinRef? {
        OwnRowKept(c.rows, order.id, ref);
        assert HasRow(c.rows, order.id, BinRef(ref.bin)) <==> HasRow(t.book.rows, order.id, BinRef(ref.bin));
        TakenBinsMembers(t.taken, ref.bin);
      }
    }
  }

  lemma OwnRowKept(rows: seq<Row>, o: nat, ref: Ref)
    ensures HasRow(rows, o, ref) <==> exists r | r in Keep(rows, Of(o)) :: r.ref == ref
  {
    forall r ensures r in Keep(rows, Of(o)) <==> r in rows && r.order == o {
      KeepMembers(rows, Of(o), r);
    }
  }

  lemma TakenBinsMembers(ts: seq<Taken>, bin: nat)
    ensures BinRef(bin) in TakenBins(ts) <==> BinRef(bin) in TakenRefs(ts)
  {
    var bins := TakenBins(ts);
    if BinRef(bin) in bins {
      var i :| 0 <= i < |bins| && bins[i] == BinRef(bin);
      assert ts[i] in ts;
    }
    if BinRef(bin) in TakenRefs(ts) {
      var k :| k in ts && k.bin == bin;
      var i :| 0 <= i < |ts| && ts[i] == k;
      assert bins[i] == BinRef(bin);
    }
  }

  /** After a complete reserve, reserving again acquires and releases nothing if and only if the bins
      taken, counted by node and emptiness, are what the pickups ask for by node and emptiness. It
      is then complete again with the same bins. */
  lemma SecondTickIsIdleIff(f: Floor, order: Order, b: Book, needs: seq<Need>, c: Book)
    requires ValidFloor(f) && Unique(b.rows) && Unique(c.rows)
    requires ReserveTick(f, order, b, needs).missing == 0
    requires SameBinsHeld(order.id, ReserveTick(f, order, b, needs).book, c)
    ensures
      var first := ReserveTick(f, order, b, needs);
      var second := ReserveTick(f, order, c, needs);
      && (second.book == c <==> Keys(f, TakenBins(first.taken)) == Demand(f, needs))
      && (second.book == c ==> second.missing == 0 && TakenRefs(second.taken) == TakenRefs(first.taken))
  {
    var first := ReserveTick(f, order, b, needs);
    var second := ReserveTick(f, order, c, needs);
    var rows := Keep(c.rows, Of(order.id));
    var bins := TakenBins(first.taken);
    OwnBins(f, order, b, needs, c);
    SameBinsSameKeys(f, BinRefs(rows), bins);
    SupplyOfRows(f, rows);
    TakenStand(f, order, b, needs);
    StandingKeys(f, bins);
    WalkCounts(f, order, b, needs, Start(f, b, order.id));
    DemandSize(f, needs);
    HoldsStand(f, rows, bins);
    IdleIffBalanced(f, order, c, needs);
    if second.book == c {
      SameTaken(f, order, b, c, needs);
    }
  }

  lemma TakenStand(f: Floor, order: Order, b: Book, needs: seq<Need>)
    requires ValidFloor(f) && Unique(b.rows)
    ensures forall ref | ref in TakenBins(ReserveTick(f, order, b, needs).taken) :: KeyOf(f, ref).0 != ""
  {
    var ts := ReserveTick(f, order, b, needs).taken;
    WalkTakesStanding(f, order, b, needs);
    forall ref | ref in TakenBins(ts)
      ensures KeyOf(f, ref).0 != ""
    {
      var i :| 0 <= i < |ts| && TakenBins(ts)[i] == ref;
      assert StandsAt(f, ts[i]);
    }
  }

  lemma HoldsStand(f: Floor, rows: seq<Row>, bins: seq<Ref>)
    requires forall ref :: ref in BinRefs(rows) <==> ref in bins
    requires forall ref | ref in bins :: KeyOf(f, ref).0 != ""
    ensures forall h | h in ResolveAll(f, rows) && h.ref.BinRef? :: h.node != ""
  {
    forall h | h in ResolveAll(f, rows) && h.ref.BinRef?
      ensures h.node != ""
    {
      var i :| 0 <= i < |rows| && ResolveAll(f, rows)[i] == h;
      BinRefsMembers(rows, rows[i].ref);
      assert rows[i] in rows;
    }
  }

  lemma SameTaken(f: Floor, order: Order, b: Book, c: Book, needs: seq<Need>)
    requires Unique(b.rows) && Unique(c.rows)
    requires SameBinsHeld(order.id, ReserveTick(f, order, b, needs).book, c)
    requires ReserveTick(f, order, c, needs).book == c
    ensures TakenRefs(ReserveTick(f, order, c, needs).taken) == TakenRefs(ReserveTick(f, order, b, needs).taken)
  {
    ReserveLeavesExactlyTheTaken(f, order, b, needs);
    ReserveLeavesExactlyTheTaken(f, order, c, needs);
    hide ReserveTick;
    var first := ReserveTick(f, order, b, needs);
    var second := ReserveTick(f, order, c, needs);
    forall bin: nat
      ensures BinRef(bin) in TakenRefs(second.taken) <==> BinRef(bin) in TakenRefs(first.taken)
    {
      assert HasRow(c.rows, order.id, BinRef(bin)) <==> HasRow(first.book.rows, order.id, BinRef(bin));
    }
    forall ref: Ref
      ensures ref in TakenRefs(second.taken) <==> ref in TakenRefs(first.taken)
    {
      if ref.BinRef? {
        assert ref == BinRef(ref.bin);
      }
    }
  }

  /** In particular when every bin's emptiness is what its own pickup asked for. */
  lemma {:induction false} MatchingEmptiesBalance(f: Floor, ts: seq<Taken>, needs: seq<Need>)
    requires LinesUp(ts, Wanted(f, needs))
    requires forall k | k in ts :: StandsAt(f, k)
    requires forall i | 0 <= i < |ts| :: KeyOf(f, BinRef(ts[i].bin)).1 == Wanted(f, needs)[i].empty
    ensures Keys(f, TakenBins(ts)) == Demand(f, needs)
  {
    if needs != [] {
      var m := |needs| - 1;
      if EmptyRelay(f, needs[m]) {
        MatchingEmptiesBalance(f, ts, needs[..m]);
      } else {
        var n := |ts| - 1;
        assert StandsAt(f, ts[n]);
        forall i | 0 <= i < n
          ensures KeyOf(f, BinRef(ts[..n][i].bin)).1 == Wanted(f, needs[..m])[i].empty
        {
          assert ts[..n][i] == ts[i] && Wanted(f, needs)[i] == Wanted(f, needs[..m])[i];
        }
        MatchingEmptiesBalance(f, ts[..n], needs[..m]);
        assert TakenBins(ts)[..n] == TakenBins(ts[..n]);
      }
    }
  }

  // ---- a family outside the balance ----

  /** One supply pickup whose node holds only an empty carrier: the payload filter lets the carrier
      through, but as a hold it does not match a pickup that asks for a full bin. */
  function CarrierOnly(node: string, bin: nat): Floor {
    Floor({node}, [Bin(bin, node, "", true)])
  }

  /** Reserving alternates for ever: complete with the carrier, then incomplete with nothing held. */
  lemma CarrierForSupplyAlternates(node: string, bin: nat, order: Order)
    requires node != "" && node != order.processNode
    ensures
      var f := CarrierOnly(node, bin);
      var needs := [Need(0, node, false, false)];
      var first := ReserveTick(f, order, Book([], map[]), needs);
      var second := ReserveTick(f, order, first.book, needs);
      && first.missing == 0 && first.book == Book([Row(order.id, BinRef(bin), false)], map[])
      && second.missing == 1 && second.book == Book([], map[])
  {
    var f := CarrierOnly(node, bin);
    var n := Need(0, node, false, false);
    var b := Book([], map[]);
    var row := Row(order.id, BinRef(bin), false);
    var c := Book([row], map[]);
    CarrierTaken(f, order, node, bin);
    WalkOne(f, order, Start(f, b, order.id), n);
    assert DropStrays(c, order.id, []) == c;
    CarrierNotMatched(f, order, node, bin);
    WalkOne(f, order, Start(f, c, order.id), n);
    var held := Start(f, c, order.id).held;
    assert held == [Resolve(f, row)];
    assert held[..0] == [];
    KeepNone(row, NotHeldBy(order.id, BinRef(bin)));
  }

  lemma WalkOne(f: Floor, order: Order, t: Tick, n: Need)
    ensures Walk(f, order, t, [n]) == Visit(f, order, t, n)
  {
    assert [n][..0] == [];
  }

  lemma KeepNone(r: Row, p: Row -> bool)
    requires !p(r)
    ensures Keep([r], p) == []
  {
    assert [r][..0] == [];
  }

  lemma CarrierTaken(f: Floor, order: Order, node: string, bin: nat)
    requires node != "" && node != order.processNode && f == CarrierOnly(node, bin)
    ensures
      var v := Visit(f, order, Start(f, Book([], map[]), order.id), Need(0, node, false, false));
      v.missing == 0 && v.book == Book([Row(order.id, BinRef(bin), false)], map[]) && v.held == []
  {
    assert Available(Book([], map[]), order, Need(0, node, false, false), f.bins[0]);
  }

  lemma CarrierNotMatched(f: Floor, order: Order, node: string, bin: nat)
    requires node != "" && node != order.processNode && f == CarrierOnly(node, bin)
    ensures
      var row := Row(order.id, BinRef(bin), false);
      var start := Start(f, Book([row], map[]), order.id);
      var v := Visit(f, order, start, Need(0, node, false, false));
      && start.held == [Resolve(f, row)] && IsStray(start.held[0]) && !start.held[0].confirmed
      && v.missing == 1 && v.book == Book([row], map[]) && v.held == start.held
  {
    var row := Row(order.id, BinRef(bin), false);
    var rows := [row];
    assert rows[..0] == [];
    assert Keep(rows, Of(order.id)) == rows;
    assert rows[0].ref == BinRef(bin) && !rows[0].confirmed;
    assert Pending(rows, BinRef(bin));
    assert !Available(Book(rows, map[]), order, Need(0, node, false, false), f.bins[0]);
  }
}
