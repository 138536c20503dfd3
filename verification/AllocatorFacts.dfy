/** What a reserve tick guarantees about the rows it leaves and its outcome. */
module AllocatorFacts {
  import opened Reservations
  import opened Pickups
  import opened Allocator

  ghost predicate DistinctBins(ts: seq<Taken>) {
    forall i, j | 0 <= i < j < |ts| :: ts[i].bin != ts[j].bin
  }

  function TakenRefs(ts: seq<Taken>): set<Ref> {
    set k | k in ts :: BinRef(k.bin)
  }

  function UsedRefs(held: seq<Held>): set<Ref> {
    set h | h in held && h.used :: h.ref
  }

  function RefsFrom(rows: seq<Row>, from: nat): set<Ref>
    requires from <= |rows|
  {
    set r | r in rows[from..] :: r.ref
  }

  /** The holds are the order's own rows of `b`, some of them used. */
  ghost predicate HoldsOf(f: Floor, b: Book, o: nat, held: seq<Held>) {
    var own := Keep(b.rows, Of(o));
    && |held| == |own|
    && forall i | 0 <= i < |own| :: held[i].(used := false) == Resolve(f, own[i])
  }

  /** While the walk goes on: rows only grow, by the order's own pending bin rows, and what is taken so
      far is exactly the used holds and the new rows. */
  ghost predicate Inv(f: Floor, o: nat, b: Book, t: Tick) {
    && t.book.claims == b.claims
    && b.rows <= t.book.rows && Unique(t.book.rows)
    && (forall i | |b.rows| <= i < |t.book.rows| ::
          t.book.rows[i].order == o && t.book.rows[i].ref.BinRef? && !t.book.rows[i].confirmed)
    && HoldsOf(f, b, o, t.held)
    && (forall h | h in t.held && h.used :: h.ref.BinRef?)
    && DistinctBins(t.taken)
    && TakenRefs(t.taken) == UsedRefs(t.held) + RefsFrom(t.book.rows, |b.rows|)
  }

  lemma HeldRowIsOwn(f: Floor, b: Book, o: nat, held: seq<Held>, h: Held)
    requires HoldsOf(f, b, o, held) && h in held
    ensures Row(o, h.ref, h.confirmed) in b.rows
  {
    var own := Keep(b.rows, Of(o));
    var i :| 0 <= i < |held| && held[i] == h;
    assert held[i].(used := false) == Resolve(f, own[i]);
    KeepMembers(b.rows, Of(o), own[i]);
  }

  lemma OwnRowIsHeld(f: Floor, b: Book, o: nat, held: seq<Held>, r: Row)
    requires HoldsOf(f, b, o, held) && r in b.rows && r.order == o
    ensures exists h | h in held :: h.ref == r.ref && h.confirmed == r.confirmed
  {
    var own := Keep(b.rows, Of(o));
    KeepMembers(b.rows, Of(o), r);
    var i :| 0 <= i < |own| && own[i] == r;
    assert held[i].(used := false) == Resolve(f, own[i]);
    assert held[i] in held;
  }

  lemma HeldRefsDistinct(f: Floor, b: Book, o: nat, held: seq<Held>, i: nat, j: nat)
    requires HoldsOf(f, b, o, held) && Unique(b.rows) && i < |held| && j < |held| && i != j
    ensures held[i].ref != held[j].ref
  {
    var own := Keep(b.rows, Of(o));
    KeepUnique(b.rows, Of(o));
    assert held[i].(used := false) == Resolve(f, own[i]);
    assert held[j].(used := false) == Resolve(f, own[j]);
  }

  lemma PrefixUnique(a: seq<Row>, b: seq<Row>)
    requires a <= b && Unique(b)
    ensures Unique(a)
  {
    forall i, j | 0 <= i < j < |a|
      ensures a[i].ref != a[j].ref
    {
      assert a[i] == b[i] && a[j] == b[j];
    }
  }

  lemma MatchIsNotTaken(f: Floor, o: nat, b: Book, t: Tick, k: nat)
    requires Inv(f, o, b, t) && k < |t.held| && !t.held[k].used
    ensures t.held[k].ref !in TakenRefs(t.taken)
  {
    var h := t.held[k];
    PrefixUnique(b.rows, t.book.rows);
    HeldRowIsOwn(f, b, o, t.held, h);
    forall j | 0 <= j < |t.held| && t.held[j].used
      ensures t.held[j].ref != h.ref
    {
      HeldRefsDistinct(f, b, o, t.held, j, k);
    }
    var r := Row(o, h.ref, h.confirmed);
    var i :| 0 <= i < |b.rows| && b.rows[i] == r;
    assert t.book.rows[i] == r;
  }

  lemma UseMarks(held: seq<Held>, k: nat)
    requires k < |held| && !held[k].used
    ensures UsedRefs(held[k := held[k].(used := true)]) == UsedRefs(held) + {held[k].ref}
  {
    var marked := held[k := held[k].(used := true)];
    assert marked[k] in marked;
    forall g | g in held && g.used
      ensures g in marked
    {
      var j :| 0 <= j < |held| && held[j] == g;
      assert marked[j] == g;
    }
  }

  lemma TakeOne(ts: seq<Taken>, k: Taken)
    requires DistinctBins(ts) && BinRef(k.bin) !in TakenRefs(ts)
    ensures DistinctBins(ts + [k]) && TakenRefs(ts + [k]) == TakenRefs(ts) + {BinRef(k.bin)}
  {
    forall i | 0 <= i < |ts|
      ensures ts[i].bin != k.bin
    {
      assert BinRef(ts[i].bin) in TakenRefs(ts);
    }
  }

  lemma ReuseKeepsInv(f: Floor, o: nat, b: Book, t: Tick, n: Need, k: nat)
    requires Inv(f, o, b, t) && k < |t.held| && Matches(t.held[k], n)
    ensures
      var h := t.held[k];
      Inv(f, o, b, t.(held := t.held[k := h.(used := true)],
                      taken := t.taken + [Taken(n.index, n.node, h.ref.bin, h.confirmed)]))
  {
    var h := t.held[k];
    MatchIsNotTaken(f, o, b, t, k);
    UseMarks(t.held, k);
    TakeOne(t.taken, Taken(n.index, n.node, h.ref.bin, h.confirmed));
    hide UsedRefs, RefsFrom, TakenRefs, DistinctBins;
  }

  lemma AcquireKeepsInv(f: Floor, o: nat, b: Book, t: Tick, n: Need, bin: nat)
    requires Inv(f, o, b, t) && !Reserved(t.book.rows, BinRef(bin))
    ensures Inv(f, o, b, t.(book := Acquire(t.book, o, BinRef(bin)),
                            taken := t.taken + [Taken(n.index, n.node, bin, false)]))
  {
    var ref := BinRef(bin);
    var rows := t.book.rows + [Row(o, ref, false)];
    assert ref !in TakenRefs(t.taken) by {
      if ref in TakenRefs(t.taken) {
        TakenHasRow(f, o, b, t, ref);
      }
    }
    TakeOne(t.taken, Taken(n.index, n.node, bin, false));
    assert rows[|b.rows|..] == t.book.rows[|b.rows|..] + [Row(o, ref, false)];
    assert RefsFrom(rows, |b.rows|) == RefsFrom(t.book.rows, |b.rows|) + {ref};
  }

  lemma VisitKeepsInv(f: Floor, order: Order, b: Book, t: Tick, n: Need)
    requires Inv(f, order.id, b, t)
    ensures Inv(f, order.id, b, Visit(f, order, t, n))
  {
    var k := FirstMatch(t.held, n, 0);
    if k < |t.held| {
      ReuseKeepsInv(f, order.id, b, t, n, k);
    } else if n.node in f.nodes {
      var m := FirstAvailable(t.book, order, n, f.bins, 0);
      if m < |f.bins| && !Reserved(t.book.rows, BinRef(f.bins[m].id)) {
        AcquireKeepsInv(f, order.id, b, t, n, f.bins[m].id);
      }
    }
  }

  lemma {:induction false} WalkKeepsInv(f: Floor, order: Order, b: Book, needs: seq<Need>)
    requires Unique(b.rows)
    ensures Inv(f, order.id, b, Walk(f, order, Start(f, b, order.id), needs))
  {
    var start := Start(f, b, order.id);
    if needs == [] {
      assert UsedRefs(start.held) == {};
      assert RefsFrom(b.rows, |b.rows|) == {};
    } else {
      var n := |needs| - 1;
      WalkKeepsInv(f, order, b, needs[..n]);
      VisitKeepsInv(f, order, b, Walk(f, order, start, needs[..n]), needs[n]);
    }
  }

  // ---- dropping strays ----

  predicate IsStray(h: Held) {
    !h.used && h.ref.BinRef?
  }

  ghost predicate StrayOn(held: seq<Held>, ref: Ref) {
    exists h | h in held :: IsStray(h) && h.ref == ref
  }

  /** Although a bin's row is dropped by bin and not by owner, uniqueness makes it the order's own. */
  lemma {:induction false} StraysDropped(b: Book, o: nat, held: seq<Held>)
    requires Unique(b.rows)
    requires forall h, r | h in held && r in b.rows && r.ref == h.ref :: r.order == o
    ensures
      var d := DropStrays(b, o, held);
      && Unique(d.rows)
      && (forall r :: r in d.rows <==> r in b.rows && !StrayOn(held, r.ref))
      && (forall ref | ref in d.claims :: ref in b.claims && d.claims[ref] == b.claims[ref])
      && (forall ref | ref in b.claims && (b.claims[ref] != o || !StrayOn(held, ref)) :: ref in d.claims)
  {
    if held != [] {
      var n := |held| - 1;
      var h := held[n];
      var front := DropStrays(b, o, held[..n]);
      StraysDropped(b, o, held[..n]);
      assert held == held[..n] + [h];
      forall ref
        ensures StrayOn(held, ref) <==> StrayOn(held[..n], ref) || (IsStray(h) && h.ref == ref)
      {
      }
      if IsStray(h) {
        var p := if h.confirmed then NotOn(h.ref) else NotHeldBy(o, h.ref);
        KeepUnique(front.rows, p);
        forall r ensures r in Keep(front.rows, p) <==> r in front.rows && r.ref != h.ref {
          KeepMembers(front.rows, p, r);
        }
      }
    }
  }

  // ---- theorem: rows after the tick ----

  ghost predicate HasRow(rows: seq<Row>, o: nat, ref: Ref) {
    exists r | r in rows :: r.order == o && r.ref == ref
  }

  /** After a tick the order's bin rows are exactly the bins it took, no two the same; slot rows and
      every row and claim of another order are as before, and no claim is added. */
  lemma ReserveLeavesExactlyTheTaken(f: Floor, order: Order, b: Book, needs: seq<Need>)
    requires Unique(b.rows)
    ensures
      var t := ReserveTick(f, order, b, needs);
      && Unique(t.book.rows) && DistinctBins(t.taken)
      && (forall bin :: HasRow(t.book.rows, order.id, BinRef(bin)) <==> BinRef(bin) in TakenRefs(t.taken))
      && (forall r: Row | r.order != order.id || r.ref.SlotRef? :: r in t.book.rows <==> r in b.rows)
      && (forall ref | ref in t.book.claims :: ref in b.claims && t.book.claims[ref] == b.claims[ref])
      && (forall ref | ref in b.claims && (b.claims[ref] != order.id || ref.SlotRef?) :: ref in t.book.claims)
  {
    var w := Walk(f, order, Start(f, b, order.id), needs);
    WalkKeepsInv(f, order, b, needs);
    HeldRowsStillOwn(f, order.id, b, w);
    StraysDropped(w.book, order.id, w.held);
    forall r | r in w.book.rows && r.order == order.id && r.ref.BinRef?
      ensures StrayOn(w.held, r.ref) <==> r.ref !in TakenRefs(w.taken)
    {
      StrayIffNotTaken(f, order.id, b, w, r);
    }
    forall bin | BinRef(bin) in TakenRefs(w.taken)
      ensures HasRow(w.book.rows, order.id, BinRef(bin))
    {
      TakenHasRow(f, order.id, b, w, BinRef(bin));
    }
  }

  lemma HeldRowsStillOwn(f: Floor, o: nat, b: Book, t: Tick)
    requires Inv(f, o, b, t)
    ensures forall h, r | h in t.held && r in t.book.rows && r.ref == h.ref :: r.order == o
  {
    forall h, r | h in t.held && r in t.book.rows && r.ref == h.ref
      ensures r.order == o
    {
      var own := Row(o, h.ref, h.confirmed);
      HeldRowIsOwn(f, b, o, t.held, h);
      var i :| 0 <= i < |b.rows| && b.rows[i] == own;
      assert t.book.rows[i] == own;
      UniqueMembers(t.book.rows, r, own);
    }
  }

  lemma StrayIffNotTaken(f: Floor, o: nat, b: Book, t: Tick, r: Row)
    requires Inv(f, o, b, t) && r in t.book.rows && r.order == o && r.ref.BinRef?
    ensures StrayOn(t.held, r.ref) <==> r.ref !in TakenRefs(t.taken)
  {
    PrefixUnique(b.rows, t.book.rows);
    var i :| 0 <= i < |t.book.rows| && t.book.rows[i] == r;
    if i < |b.rows| {
      assert b.rows[i] == r;
      OwnRowIsHeld(f, b, o, t.held, r);
      var k :| 0 <= k < |t.held| && t.held[k].ref == r.ref;
      forall j | 0 <= j < |t.held| && j != k ensures t.held[j].ref != r.ref {
        HeldRefsDistinct(f, b, o, t.held, j, k);
      }
      assert r.ref !in RefsFrom(t.book.rows, |b.rows|);
    } else {
      assert r in t.book.rows[|b.rows|..];
      assert r.ref in RefsFrom(t.book.rows, |b.rows|);
      forall h | h in t.held ensures h.ref != r.ref {
        HeldRowIsOwn(f, b, o, t.held, h);
        var j :| 0 <= j < |b.rows| && b.rows[j] == Row(o, h.ref, h.confirmed);
        assert t.book.rows[j] == b.rows[j];
      }
    }
  }

  lemma TakenHasRow(f: Floor, o: nat, b: Book, t: Tick, ref: Ref)
    requires Inv(f, o, b, t) && ref in TakenRefs(t.taken)
    ensures HasRow(t.book.rows, o, ref)
  {
    if ref in UsedRefs(t.held) {
      var h :| h in t.held && h.used && h.ref == ref;
      HeldRowIsOwn(f, b, o, t.held, h);
      var i :| 0 <= i < |b.rows| && b.rows[i] == Row(o, ref, h.confirmed);
      assert t.book.rows[i] in t.book.rows;
    } else {
      var added := t.book.rows[|b.rows|..];
      var r :| r in added && r.ref == ref;
      var i :| 0 <= i < |added| && added[i] == r;
      assert t.book.rows[|b.rows| + i] == r;
      assert r in t.book.rows;
    }
  }
}
