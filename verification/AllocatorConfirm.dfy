/** Committing a complete reserve to hard claims, and retrying a commit that stopped half-way. */
module AllocatorConfirm {
  import opened Reservations
  import opened Pickups
  import opened Allocator
  import opened AllocatorFacts
  import opened AllocatorRetry

  /** A slot or bin to confirm: whether its node resolves, and what the reserve saw of its row. */
  datatype Target = Target(ref: Ref, resolved: bool, confirmed: bool)

  datatype Attempt = Attempt(book: Book, ok: bool)

  /** Already the order's: the row is confirmed in place. Otherwise the guarded claim decides;
      `clear` are the bins not locked and the slots not occupied. */
  function ConfirmOne(b: Book, o: nat, t: Target, clear: set<Ref>): Attempt {
    if !t.resolved then Attempt(b, false)
    else if t.ref in b.claims && b.claims[t.ref] == o then
      Attempt(if t.confirmed then b else b.(rows := Confirm(b.rows, o, t.ref)), true)
    else if t.ref in clear && MayClaim(b, o, t.ref) then Attempt(ConfirmClaim(b, o, t.ref), true)
    else Attempt(b, false)
  }

  /** One after the other, stopping at the first that fails. */
  function ConfirmAll(b: Book, o: nat, ts: seq<Target>, clear: set<Ref>): Attempt {
    if ts == [] then Attempt(b, true)
    else
      var a := ConfirmAll(b, o, ts[..|ts| - 1], clear);
      if a.ok then ConfirmOne(a.book, o, ts[|ts| - 1], clear) else a
  }

  function SlotTargets(f: Floor, slots: seq<string>): seq<Target> {
    seq(|slots|, i requires 0 <= i < |slots| => Target(SlotRef(slots[i]), slots[i] in f.nodes, false))
  }

  function BinTargets(taken: seq<Taken>): seq<Target> {
    seq(|taken|, i requires 0 <= i < |taken| => Target(BinRef(taken[i].bin), true, taken[i].confirmed))
  }

  /** Slots before bins. */
  function Targets(f: Floor, slots: seq<string>, taken: seq<Taken>): seq<Target> {
    SlotTargets(f, slots) + BinTargets(taken)
  }

  /** A plan with no bin to confirm is refused after its slots were claimed. */
  method ConfirmComplexPlan(store: Store, f: Floor, o: nat, slots: seq<string>, taken: seq<Taken>, clear: set<Ref>)
    returns (ok: bool)
    modifies store
    ensures
      var a := ConfirmAll(old(store.Contents()), o, Targets(f, slots, taken), clear);
      store.Contents() == a.book && ok == (a.ok && taken != [])
  {
    ConfirmInTwo(store.Contents(), o, SlotTargets(f, slots), BinTargets(taken), clear);
    ok := ConfirmSlots(store, f, o, slots, clear);
    if ok {
      ok := ConfirmBins(store, o, taken, clear);
      ok := ok && taken != [];
    }
  }

  method ConfirmSlots(store: Store, f: Floor, o: nat, slots: seq<string>, clear: set<Ref>) returns (ok: bool)
    modifies store
    ensures ConfirmAll(old(store.Contents()), o, SlotTargets(f, slots), clear) == Attempt(store.Contents(), ok)
  {
    ghost var b, ts := store.Contents(), SlotTargets(f, slots);
    ok := true;
    for i := 0 to |slots|
      invariant ok
      invariant ConfirmAll(b, o, ts[..i], clear) == Attempt(store.Contents(), true)
    {
      assert ts[..i + 1][..i] == ts[..i];
      var ref := SlotRef(slots[i]);
      if slots[i] !in f.nodes {
        StopsThere(b, o, ts, clear, i);
        return false;
      }
      if ref in store.claims && store.claims[ref] == o {
        store.ConfirmRow(o, ref);
        continue;
      }
      ok := store.ClaimAndConfirm(o, ref, ref in clear);
      if !ok {
        StopsThere(b, o, ts, clear, i);
        return;
      }
    }
    assert ts[..|ts|] == ts;
  }

  method ConfirmBins(store: Store, o: nat, taken: seq<Taken>, clear: set<Ref>) returns (ok: bool)
    modifies store
    ensures ConfirmAll(old(store.Contents()), o, BinTargets(taken), clear) == Attempt(store.Contents(), ok)
  {
    ghost var b, ts := store.Contents(), BinTargets(taken);
    ok := true;
    for i := 0 to |taken|
      invariant ok
      invariant ConfirmAll(b, o, ts[..i], clear) == Attempt(store.Contents(), true)
    {
      assert ts[..i + 1][..i] == ts[..i];
      var ref := BinRef(taken[i].bin);
      if ref in store.claims && store.claims[ref] == o {
        if !taken[i].confirmed {
          store.ConfirmRow(o, ref);
        }
        continue;
      }
      ok := store.ClaimAndConfirm(o, ref, ref in clear);
      if !ok {
        StopsThere(b, o, ts, clear, i);
        return;
      }
    }
    assert ts[..|ts|] == ts;
  }

  lemma {:induction false} ConfirmInTwo(b: Book, o: nat, ts: seq<Target>, us: seq<Target>, clear: set<Ref>)
    ensures
      var a := ConfirmAll(b, o, ts, clear);
      ConfirmAll(b, o, ts + us, clear) == if a.ok then ConfirmAll(a.book, o, us, clear) else a
  {
    if us == [] {
      assert ts + us == ts;
    } else {
      var n := |us| - 1;
      assert (ts + us)[..|ts| + n] == ts + us[..n];
      ConfirmInTwo(b, o, ts, us[..n], clear);
    }
  }

  /** What follows a failed target is never looked at. */
  lemma {:induction false} StopsThere(b: Book, o: nat, ts: seq<Target>, clear: set<Ref>, i: nat)
    requires i < |ts| && !ConfirmAll(b, o, ts[..i + 1], clear).ok
    ensures ConfirmAll(b, o, ts, clear) == ConfirmAll(b, o, ts[..i + 1], clear)
    decreases |ts|
  {
    var n := |ts| - 1;
    if i == n {
      assert ts[..n + 1] == ts;
    } else {
      assert ts[..n][..i + 1] == ts[..i + 1];
      StopsThere(b, o, ts[..n], clear, i);
    }
  }

  // ---- the state a commit reaches ----

  function ConfirmSet(rows: seq<Row>, o: nat, refs: set<Ref>): (r: seq<Row>)
    ensures |r| == |rows|
    ensures forall i | 0 <= i < |rows| ::
      r[i] == if rows[i].order == o && rows[i].ref in refs then rows[i].(confirmed := true) else rows[i]
  {
    seq(|rows|, i requires 0 <= i < |rows| =>
      if rows[i].order == o && rows[i].ref in refs then rows[i].(confirmed := true) else rows[i])
  }

  /** Claims and confirmed rows on exactly `refs`, everything else as in `b`. */
  function Settled(b: Book, o: nat, refs: set<Ref>): Book {
    Book(ConfirmSet(b.rows, o, refs), b.claims + map ref | ref in refs :: o)
  }

  function RefsOf(ts: seq<Target>): set<Ref> {
    set t | t in ts :: t.ref
  }

  /** Nobody else is in the way, the order has a row, and its row is confirmed exactly where it has
      the claim. */
  ghost predicate ReadyRef(b: Book, o: nat, ref: Ref) {
    && (Row(o, ref, false) in b.rows || Row(o, ref, true) in b.rows)
    && (ref in b.claims ==> b.claims[ref] == o)
    && (Row(o, ref, true) in b.rows <==> ref in b.claims)
  }

  ghost predicate Ready(b: Book, o: nat, ts: seq<Target>) {
    && Unique(b.rows)
    && forall t | t in ts :: ReadyRef(b, o, t.ref) && t.resolved && (t.confirmed ==> Row(o, t.ref, true) in b.rows)
  }

  lemma SettledTwice(b: Book, o: nat, p: set<Ref>, q: set<Ref>)
    ensures Settled(Settled(b, o, p), o, q) == Settled(b, o, p + q)
  {
    assert ConfirmSet(ConfirmSet(b.rows, o, p), o, q) == ConfirmSet(b.rows, o, p + q);
  }

  lemma SettledNothing(b: Book, o: nat)
    ensures Settled(b, o, {}) == b
  {
    assert ConfirmSet(b.rows, o, {}) == b.rows;
  }

  lemma SettledMembers(b: Book, o: nat, refs: set<Ref>, r: Row)
    ensures r in ConfirmSet(b.rows, o, refs) <==>
      if r.order == o && r.ref in refs
      then r.confirmed && (r in b.rows || r.(confirmed := false) in b.rows)
      else r in b.rows
  {
    var c := ConfirmSet(b.rows, o, refs);
    if r in c {
      var i :| 0 <= i < |c| && c[i] == r;
      assert b.rows[i] in b.rows;
    }
    if r in b.rows {
      var i :| 0 <= i < |c| && b.rows[i] == r;
      assert c[i] in c;
    }
    var p := r.(confirmed := false);
    if r.order == o && r.ref in refs && r.confirmed && p in b.rows {
      var i :| 0 <= i < |c| && b.rows[i] == p;
      assert c[i] == r;
    }
  }

  lemma SettledStaysReady(b: Book, o: nat, refs: set<Ref>, ref: Ref)
    requires ReadyRef(b, o, ref)
    ensures ReadyRef(Settled(b, o, refs), o, ref)
  {
    SettledMembers(b, o, refs, Row(o, ref, true));
    SettledMembers(b, o, refs, Row(o, ref, false));
  }

  lemma OneSettles(b: Book, o: nat, t: Target, clear: set<Ref>)
    requires Ready(b, o, [t])
    ensures
      var a := ConfirmOne(b, o, t, clear);
      && a.book == (if a.ok then Settled(b, o, {t.ref}) else b)
      && (t.ref in clear ==> a.ok)
  {
    assert t in [t];
    var c := ConfirmSet(b.rows, o, {t.ref});
    assert c == Confirm(b.rows, o, t.ref);
    if Row(o, t.ref, true) in b.rows {
      forall i | 0 <= i < |c|
        ensures c[i] == b.rows[i]
      {
        if b.rows[i].order == o && b.rows[i].ref == t.ref {
          UniqueMembers(b.rows, b.rows[i], Row(o, t.ref, true));
        }
      }
      assert c == b.rows;
    }
  }

  lemma SettledStaysUnique(b: Book, o: nat, refs: set<Ref>)
    requires Unique(b.rows)
    ensures Unique(Settled(b, o, refs).rows)
  {
  }

  lemma RefsSnoc(ts: seq<Target>)
    requires ts != []
    ensures RefsOf(ts) == RefsOf(ts[..|ts| - 1]) + {ts[|ts| - 1].ref}
  {
    assert ts == ts[..|ts| - 1] + [ts[|ts| - 1]];
  }

  /** The next target after a part of the targets has been settled. */
  lemma SettlesOneMore(b: Book, o: nat, refs: set<Ref>, t: Target, clear: set<Ref>)
    requires Ready(b, o, [t])
    ensures
      var a := ConfirmOne(Settled(b, o, refs), o, t, clear);
      && a.book == Settled(b, o, if a.ok then refs + {t.ref} else refs)
      && (t.ref in clear ==> a.ok)
  {
    assert t in [t];
    SettledStaysReady(b, o, refs, t.ref);
    SettledStaysUnique(b, o, refs);
    SettledMembers(b, o, refs, Row(o, t.ref, true));
    hide Settled, ReadyRef, Unique;
    OneSettles(Settled(b, o, refs), o, t, clear);
    SettledTwice(b, o, refs, {t.ref});
  }

  /** However far a commit gets, it leaves exactly the targets it passed claimed and confirmed; it stops only at
      a blocked one. */
  lemma {:induction false} AllSettles(b: Book, o: nat, ts: seq<Target>, clear: set<Ref>) returns (k: nat)
    requires Ready(b, o, ts)
    ensures k <= |ts| && (k < |ts| ==> ts[k].ref !in clear)
    ensures
      var a := ConfirmAll(b, o, ts, clear);
      && a.book == Settled(b, o, RefsOf(ts[..k]))
      && (a.ok <==> k == |ts|)
      && (RefsOf(ts) <= clear ==> a.ok)
  {
    if ts == [] {
      k := 0;
      SettledNothing(b, o);
      assert RefsOf(ts[..0]) == {};
    } else {
      var n := |ts| - 1;
      k := AllSettles(b, o, ts[..n], clear);
      RefsSnoc(ts);
      assert ts[..n][..k] == ts[..k];
      assert ts[n] in ts;
      SettlesOneMore(b, o, RefsOf(ts[..n]), ts[n], clear);
      hide Settled, ReadyRef, Unique, ConfirmOne, RefsOf;
      if ConfirmAll(b, o, ts, clear).ok {
        k := n + 1;
        assert ts[..n + 1] == ts && ts[..n][..n] == ts[..n];
      }
    }
  }

  /** A commit that succeeded has claimed and confirmed every target, and touched nothing else. */
  lemma CommitClaimsAll(b: Book, o: nat, ts: seq<Target>, clear: set<Ref>)
    requires Ready(b, o, ts) && ConfirmAll(b, o, ts, clear).ok
    ensures ConfirmAll(b, o, ts, clear).book == Settled(b, o, RefsOf(ts))
  {
    var k := AllSettles(b, o, ts, clear);
    assert ts[..k] == ts;
  }

  /** From any part of the targets already settled, the rest of the commit completes the set. */
  lemma CommitFromPart(b: Book, o: nat, ts: seq<Target>, part: set<Ref>, again: seq<Target>, clear: set<Ref>)
    requires Ready(b, o, ts) && part <= RefsOf(ts) && RefsOf(again) == RefsOf(ts) <= clear
    requires forall t | t in again :: t.resolved && (t.confirmed ==> Row(o, t.ref, true) in Settled(b, o, part).rows)
    ensures ConfirmAll(Settled(b, o, part), o, again, clear) == Attempt(Settled(b, o, RefsOf(ts)), true)
  {
    var mid := Settled(b, o, part);
    SettledStaysUnique(b, o, part);
    forall t | t in again
      ensures ReadyRef(mid, o, t.ref)
    {
      assert t.ref in RefsOf(again);
      var u :| u in ts && u.ref == t.ref;
      SettledStaysReady(b, o, part, t.ref);
    }
    var j := AllSettles(mid, o, again, clear);
    hide Settled, ReadyRef, ConfirmAll, Unique;
    assert again[..j] == again;
    SettledTwice(b, o, part, RefsOf(again));
    assert part + RefsOf(ts) == RefsOf(ts);
  }

  /** A commit that stopped anywhere, retried with nothing in the way, ends exactly where a commit
      that was never interrupted ends. */
  lemma RetriedCommit(b: Book, o: nat, ts: seq<Target>, blocked: set<Ref>, again: seq<Target>, clear: set<Ref>)
    requires Ready(b, o, ts) && RefsOf(again) == RefsOf(ts) <= clear
    requires
      var mid := ConfirmAll(b, o, ts, clear - blocked).book;
      forall t | t in again :: t.resolved && (t.confirmed ==> Row(o, t.ref, true) in mid.rows)
    ensures
      var mid := ConfirmAll(b, o, ts, clear - blocked).book;
      ConfirmAll(mid, o, again, clear) == ConfirmAll(b, o, ts, clear) == Attempt(Settled(b, o, RefsOf(ts)), true)
  {
    var k := AllSettles(b, o, ts, clear - blocked);
    CommitFromPart(b, o, ts, RefsOf(ts[..k]), again, clear);
    var j := AllSettles(b, o, ts, clear);
    assert ts[..j] == ts;
  }
}
