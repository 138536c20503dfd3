/** Any number of orders reconciling, confirming and dying over one store, one store operation at a time. */
module AllocatorRuns {
  import opened Reservations

  /** Where an order's tick is: reconciling against the rows it listed, or confirming, with the bins
      and slots it has read as already claimed by itself. */
  datatype Pc = Reserving(held: set<Row>) | Confirming(own: set<Ref>)

  datatype World = World(book: Book, dead: set<nat>, running: map<nat, Pc>)

  /** `Begin` and `List` read the order's rows; `Stray` drops a listed row; `Look` reads a claim;
      `Affirm` confirms a row whose claim was read as the order's own; `Stop` is the end of a tick or
      a crash anywhere inside it. The last four come from outside the allocator. */
  datatype Event =
    | Begin(o: nat)
    | List(o: nat)
    | Take(o: nat, ref: Ref)
    | Stray(o: nat, row: Row)
    | Commit(o: nat)
    | Claim(o: nat, ref: Ref, clear: bool)
    | Look(o: nat, ref: Ref)
    | Affirm(o: nat, ref: Ref)
    | Stop(o: nat)
    | Terminal(o: nat)
    | Arrival(ref: Ref, kin: set<nat>)
    | Reap
    | Sweep

  function OwnRows(rows: seq<Row>, o: nat): set<Row> {
    set r | r in rows && r.order == o
  }

  predicate IsReserving(s: World, o: nat) {
    o in s.running && s.running[o].Reserving?
  }

  predicate IsConfirming(s: World, o: nat) {
    o in s.running && s.running[o].Confirming?
  }

  /** `serial` is the scanner's mutex: no tick begins while another is running. */
  predicate Enabled(serial: bool, s: World, e: Event) {
    match e
    case Begin(o) => o !in s.running && (serial ==> s.running == map[])
    case List(o) => IsReserving(s, o)
    case Take(o, _) => IsReserving(s, o)
    case Stray(o, row) => IsReserving(s, o) && row in s.running[o].held
    case Commit(o) => IsReserving(s, o)
    case Claim(o, _, _) => IsConfirming(s, o)
    case Look(o, _) => IsConfirming(s, o)
    case Affirm(o, ref) => IsConfirming(s, o) && ref in s.running[o].own
    case Stop(o) => o in s.running
    case _ => true
  }

  function Effect(s: World, e: Event): World
    requires Enabled(false, s, e)
  {
    match e
    case Begin(o) => s.(running := s.running[o := Reserving(OwnRows(s.book.rows, o))])
    case List(o) => s.(running := s.running[o := Reserving(OwnRows(s.book.rows, o))])
    case Take(o, ref) => s.(book := Acquire(s.book, o, ref))
    case Stray(o, row) =>
      s.(book := if row.confirmed then ReleaseClaim(s.book, o, row.ref) else Release(s.book, o, row.ref))
    case Commit(o) => s.(running := s.running[o := Confirming({})])
    case Claim(o, ref, clear) => s.(book := if clear then ConfirmClaim(s.book, o, ref) else s.book)
    case Look(o, ref) =>
      if ref in s.book.claims && s.book.claims[ref] == o
      then s.(running := s.running[o := Confirming(s.running[o].own + {ref})])
      else s
    case Affirm(o, ref) => s.(book := s.book.(rows := Confirm(s.book.rows, o, ref)))
    case Stop(o) => s.(running := s.running - {o})
    case Terminal(o) => s.(book := Terminalize(s.book, o), dead := s.dead + {o})
    case Arrival(ref, kin) => s.(book := Arrive(s.book, ref, kin))
    case Reap => s.(book := s.book.(rows := Keep(s.book.rows, NotIn(s.dead))))
    case Sweep =>
      var kept := map ref | ref in s.book.claims && s.book.claims[ref] !in s.dead :: s.book.claims[ref];
      s.(book := s.book.(claims := kept))
  }

  /** An event that is not enabled changes nothing. */
  function Next(serial: bool, s: World, e: Event): World {
    if Enabled(serial, s, e) then Effect(s, e) else s
  }

  function Run(serial: bool, s: World, es: seq<Event>): World {
    if es == [] then s else Next(serial, Run(serial, s, es[..|es| - 1]), es[|es| - 1])
  }

  const EMPTY := World(Book([], map[]), {}, map[])

  // ---- every run: one owner per bin and slot ----

  lemma ConfirmMembers(rows: seq<Row>, o: nat, ref: Ref, r: Row)
    ensures r in Confirm(rows, o, ref) <==>
      if r.order == o && r.ref == ref
      then r.confirmed && (r in rows || r.(confirmed := false) in rows)
      else r in rows
  {
    var c := Confirm(rows, o, ref);
    if r in c {
      var i :| 0 <= i < |c| && c[i] == r;
      assert rows[i] in rows;
    }
    if r in rows {
      var i :| 0 <= i < |rows| && rows[i] == r;
      assert c[i] in c;
    }
    var p := r.(confirmed := false);
    if r.order == o && r.ref == ref && r.confirmed && p in rows {
      var i :| 0 <= i < |rows| && rows[i] == p;
      assert c[i] == r;
    }
  }

  lemma NextKeepsUnique(serial: bool, s: World, e: Event)
    requires Unique(s.book.rows)
    ensures Unique(Next(serial, s, e).book.rows)
  {
    if Enabled(serial, s, e) {
      match e
      case Stray(o, row) =>
        KeepUnique(s.book.rows, NotOn(row.ref));
        KeepUnique(s.book.rows, NotHeldBy(o, row.ref));
      case Terminal(o) => KeepUnique(s.book.rows, NotOf(o));
      case Arrival(ref, _) => KeepUnique(s.book.rows, NotOn(ref));
      case Reap => KeepUnique(s.book.rows, NotIn(s.dead));
      case _ =>
    }
  }

  /** In every run, however its orders interleave, no bin or slot ever has two rows. */
  lemma {:induction false} RowsStayUnique(serial: bool, es: seq<Event>)
    ensures Unique(Run(serial, EMPTY, es).book.rows)
  {
    if es != [] {
      var n := |es| - 1;
      RowsStayUnique(serial, es[..n]);
      NextKeepsUnique(serial, Run(serial, EMPTY, es[..n]), es[n]);
    }
  }

  // ---- every run: a claim is lost only by its owner's own doing or by the bin arriving ----

  ghost predicate GivesUp(e: Event, o: nat, ref: Ref) {
    match e
    case Stray(p, row) => p == o && row.ref == ref && row.confirmed
    case Terminal(p) => p == o
    case Arrival(r, kin) => r == ref && (ref.SlotRef? || o in kin)
    case _ => false
  }

  ghost predicate Claims(s: World, o: nat, ref: Ref) {
    ref in s.book.claims && s.book.claims[ref] == o
  }

  /** Once an order's claim has succeeded, no interleaving, serialized or not, lets another order
      claim the same bin or slot until the owner gives it up, and the claim stands all the while. */
  lemma {:induction false} ClaimStands(serial: bool, s: World, es: seq<Event>, o: nat, ref: Ref)
    requires Claims(s, o, ref) && o !in s.dead
    requires forall e | e in es :: !GivesUp(e, o, ref)
    ensures Claims(Run(serial, s, es), o, ref) && o !in Run(serial, s, es).dead
    ensures forall p, c | p != o :: Next(serial, Run(serial, s, es), Claim(p, ref, c)) == Run(serial, s, es)
  {
    if es != [] {
      var n := |es| - 1;
      assert es[n] in es;
      ClaimStands(serial, s, es[..n], o, ref);
      NextKeepsClaim(serial, Run(serial, s, es[..n]), es[n], o, ref);
    }
  }

  lemma NextKeepsClaim(serial: bool, s: World, e: Event, o: nat, ref: Ref)
    requires Claims(s, o, ref) && o !in s.dead && !GivesUp(e, o, ref)
    ensures Claims(Next(serial, s, e), o, ref) && o !in Next(serial, s, e).dead
  {
  }

  lemma {:induction false} RunConcat(serial: bool, s: World, es: seq<Event>, gs: seq<Event>)
    ensures Run(serial, s, es + gs) == Run(serial, Run(serial, s, es), gs)
  {
    if gs == [] {
      assert es + gs == es;
    } else {
      var n := |gs| - 1;
      assert (es + gs)[..|es| + n] == es + gs[..n];
      RunConcat(serial, s, es, gs[..n]);
    }
  }

  /** Event `i` of the run is the step of order `o`'s commit that gets `ref` past: a claim that took, or a look
      that found the claim its own. */
  ghost predicate Secures(serial: bool, s: World, es: seq<Event>, i: nat, o: nat, ref: Ref) {
    && i < |es|
    && ((es[i].Claim? && es[i].o == o && es[i].ref == ref) || es[i] == Look(o, ref))
    && Claims(Run(serial, s, es[..i + 1]), o, ref) && o !in Run(serial, s, es[..i + 1]).dead
  }

  /** Somewhere in the run, between other orders' steps, `o`'s commit got every one of `refs` past, and has not
      given it up since. */
  ghost predicate Committed(serial: bool, s: World, es: seq<Event>, o: nat, refs: set<Ref>) {
    forall ref | ref in refs ::
      exists i: nat :: Secures(serial, s, es, i, o, ref) && forall k | i < k < |es| :: !GivesUp(es[k], o, ref)
  }

  /** Two orders whose commits both succeeded in one run, with their steps interleaved in any way among each
      other's and everybody else's, never share a bin or slot. */
  lemma CommittedOrdersDoNotShare(
    serial: bool, s: World, es: seq<Event>, o: nat, refs: set<Ref>, p: nat, others: set<Ref>)
    requires o != p && Committed(serial, s, es, o, refs) && Committed(serial, s, es, p, others)
    ensures refs !! others
  {
    forall ref | ref in refs
      ensures Claims(Run(serial, s, es), o, ref)
    {
      CommitHolds(serial, s, es, o, refs, ref);
    }
    forall ref | ref in others
      ensures Claims(Run(serial, s, es), p, ref)
    {
      CommitHolds(serial, s, es, p, others, ref);
    }
  }

  lemma CommitHolds(serial: bool, s: World, es: seq<Event>, o: nat, refs: set<Ref>, ref: Ref)
    requires Committed(serial, s, es, o, refs) && ref in refs
    ensures Claims(Run(serial, s, es), o, ref)
  {
    var i: nat :| Secures(serial, s, es, i, o, ref) && forall k | i < k < |es| :: !GivesUp(es[k], o, ref);
    var before, after := es[..i + 1], es[i + 1..];
    assert before + after == es;
    RunConcat(serial, s, before, after);
    forall e | e in after
      ensures !GivesUp(e, o, ref)
    {
      var k :| 0 <= k < |after| && after[k] == e;
      assert es[i + 1 + k] == e;
    }
    ClaimStands(serial, Run(serial, s, before), after, o, ref);
  }

  // ---- every run: what the outside frees ----

  /** The end of an order frees every row and every claim it had, and nothing of anybody else. */
  lemma TerminalFrees(serial: bool, s: World, o: nat)
    ensures
      var t := Next(serial, s, Terminal(o));
      && (forall r :: r in t.book.rows <==> r in s.book.rows && r.order != o)
      && (forall ref :: ref in t.book.claims <==> ref in s.book.claims && s.book.claims[ref] != o)
      && (forall ref | ref in t.book.claims :: t.book.claims[ref] == s.book.claims[ref])
      && t.dead == s.dead + {o} && t.running == s.running
  {
    forall r
      ensures r in Keep(s.book.rows, NotOf(o)) <==> r in s.book.rows && r.order != o
    {
      KeepMembers(s.book.rows, NotOf(o), r);
    }
  }

  /** A delivery frees a slot whoever had it, and a bin unless an order outside `kin` claims it; the row goes with
      the claim, and nothing else changes. */
  lemma ArrivalFrees(serial: bool, s: World, ref: Ref, kin: set<nat>)
    ensures
      var t := Next(serial, s, Arrival(ref, kin));
      var foreign := exists bin, o :: ref == BinRef(bin) && Claims(s, o, ref) && o !in kin;
      && (forall r :: r in t.book.rows <==> r in s.book.rows && (r.ref != ref || foreign))
      && (forall x :: x in t.book.claims <==> x in s.book.claims && (x != ref || foreign))
      && (forall x | x in t.book.claims :: t.book.claims[x] == s.book.claims[x])
      && t.dead == s.dead && t.running == s.running
  {
    forall r
      ensures r in Keep(s.book.rows, NotOn(ref)) <==> r in s.book.rows && r.ref != ref
    {
      KeepMembers(s.book.rows, NotOn(ref), r);
    }
  }

  /** The reaper takes the rows of ended orders and the sweep their claims; together nothing of an ended order
      is left and nothing of a live one is touched. */
  lemma ReapAndSweepFree(serial: bool, s: World)
    ensures
      var t, u := Next(serial, s, Reap), Next(serial, s, Sweep);
      && (forall r :: r in t.book.rows <==> r in s.book.rows && r.order !in s.dead)
      && t.book.claims == s.book.claims && u.book.rows == s.book.rows
      && (forall ref :: ref in u.book.claims <==> ref in s.book.claims && s.book.claims[ref] !in s.dead)
      && (forall ref | ref in u.book.claims :: u.book.claims[ref] == s.book.claims[ref])
      && t.dead == u.dead == s.dead && t.running == u.running == s.running
  {
    forall r
      ensures r in Keep(s.book.rows, NotIn(s.dead)) <==> r in s.book.rows && r.order !in s.dead
    {
      KeepMembers(s.book.rows, NotIn(s.dead), r);
    }
  }

  /** The order has no tick at work, no row and no claim. */
  ghost predicate Gone(s: World, o: nat) {
    && o !in s.running
    && (forall r | r in s.book.rows :: r.order != o)
    && (forall ref | ref in s.book.claims :: s.book.claims[ref] != o)
  }

  lemma NextStaysGone(serial: bool, s: World, e: Event, o: nat)
    requires Gone(s, o) && e != Begin(o)
    ensures Gone(Next(serial, s, e), o)
  {
    var t := Next(serial, s, e);
    forall r | r in t.book.rows
      ensures r.order != o
    {
      match e
      case Stray(p, row) =>
        KeepMembers(s.book.rows, NotOn(row.ref), r);
        KeepMembers(s.book.rows, NotHeldBy(p, row.ref), r);
      case Terminal(p) => KeepMembers(s.book.rows, NotOf(p), r);
      case Arrival(ref, _) => KeepMembers(s.book.rows, NotOn(ref), r);
      case Reap => KeepMembers(s.book.rows, NotIn(s.dead), r);
      case Claim(p, ref, _) => ConfirmMembers(s.book.rows, p, ref, r);
      case Affirm(p, ref) => ConfirmMembers(s.book.rows, p, ref, r);
      case _ =>
    }
  }

  /** An order that ended while no tick of its own was at work holds nothing ever after, as long as no tick is
      begun for it, whatever all the others do. */
  lemma {:induction false} EndedStaysGone(serial: bool, s: World, o: nat, es: seq<Event>)
    requires o !in s.running && Begin(o) !in es
    ensures Gone(Run(serial, s, [Terminal(o)] + es), o)
  {
    var a := [Terminal(o)];
    if es == [] {
      TerminalFrees(serial, s, o);
      RunStep(serial, s, [], Terminal(o));
      assert [] + a == a + es == a;
    } else {
      var n := |es| - 1;
      EndedStaysGone(serial, s, o, es[..n]);
      assert a + es == (a + es[..n]) + [es[n]];
      RunStep(serial, s, a + es[..n], es[n]);
      NextStaysGone(serial, Run(serial, s, a + es[..n]), es[n], o);
    }
  }

  /** What an order held is another's for the asking once it has ended: a confirming order that has a pending
      row there claims it with its next clear claim, even if the ended order's claim was still in its way;
      and a reserving order that finds only the ended order's row there takes it and claims it. */
  lemma EndedOrderLetsGo(serial: bool, s: World, o: nat, p: nat, ref: Ref)
    requires o != p && (ref in s.book.claims ==> s.book.claims[ref] == o)
    ensures IsConfirming(s, p) && Row(p, ref, false) in s.book.rows ==>
      var t := Run(serial, s, [Terminal(o)] + [Claim(p, ref, true)]);
      Claims(t, p, ref) && Row(p, ref, true) in t.book.rows
    ensures IsReserving(s, p) && (forall r | r in s.book.rows && r.ref == ref :: r.order == o) ==>
      var t := Run(serial, s, [Terminal(o)] + [Take(p, ref)] + [Commit(p)] + [Claim(p, ref, true)]);
      Claims(t, p, ref) && Row(p, ref, true) in t.book.rows
  {
    TerminalFrees(serial, s, o);
    var t := Next(serial, s, Terminal(o));
    RunStep(serial, s, [], Terminal(o));
    assert [] + [Terminal(o)] == [Terminal(o)];
    if IsConfirming(s, p) && Row(p, ref, false) in s.book.rows {
      RunStep(serial, s, [Terminal(o)], Claim(p, ref, true));
      ClearClaim(serial, t, p, ref);
    }
    if IsReserving(s, p) && forall r | r in s.book.rows && r.ref == ref :: r.order == o {
      var a := [Terminal(o)];
      RunStep(serial, s, a, Take(p, ref));
      RunStep(serial, s, a + [Take(p, ref)], Commit(p));
      RunStep(serial, s, a + [Take(p, ref)] + [Commit(p)], Claim(p, ref, true));
      FreeTake(serial, t, p, ref);
      ClearClaim(serial, Next(serial, Next(serial, t, Take(p, ref)), Commit(p)), p, ref);
    }
  }

  lemma ClearClaim(serial: bool, s: World, p: nat, ref: Ref)
    requires IsConfirming(s, p) && ref !in s.book.claims && Row(p, ref, false) in s.book.rows
    ensures
      var t := Next(serial, s, Claim(p, ref, true));
      Claims(t, p, ref) && Row(p, ref, true) in t.book.rows
  {
    ConfirmMembers(s.book.rows, p, ref, Row(p, ref, true));
  }

  lemma FreeTake(serial: bool, s: World, p: nat, ref: Ref)
    requires IsReserving(s, p) && forall r | r in s.book.rows :: r.ref != ref
    ensures Row(p, ref, false) in Next(serial, s, Take(p, ref)).book.rows
    ensures Next(serial, s, Take(p, ref)).book.claims == s.book.claims
    ensures Next(serial, s, Take(p, ref)).running == s.running
  {
    forall i | 0 <= i < |s.book.rows|
      ensures s.book.rows[i].ref != ref
    {
      assert s.book.rows[i] in s.book.rows;
    }
  }

  // ---- serialized runs: a claim exactly where the owner's row is confirmed ----

  /** For every order that is still alive, its claims and its confirmed rows cover the same things. */
  ghost predicate Coupled(s: World) {
    && (forall r | r in s.book.rows && r.confirmed && r.order !in s.dead :: Claims(s, r.order, r.ref))
    && (forall ref | ref in s.book.claims && s.book.claims[ref] !in s.dead ::
          Row(s.book.claims[ref], ref, true) in s.book.rows)
  }

  /** What a listed row still says while its order is the only one at work. */
  ghost predicate Fresh(s: World, o: nat, h: Row) {
    && h.order == o
    && (forall r | r in s.book.rows && r.ref == h.ref :: r.order == o)
    && (!h.confirmed && o !in s.dead ==> Row(o, h.ref, true) !in s.book.rows)
  }

  ghost predicate PcHolds(s: World, o: nat)
    requires o in s.running
  {
    match s.running[o]
    case Reserving(held) => forall h | h in held :: Fresh(s, o, h)
    case Confirming(own) => forall ref | ref in own && o !in s.dead :: Row(o, ref, false) !in s.book.rows
  }

  ghost predicate Alone(s: World) {
    forall o, p | o in s.running && p in s.running :: o == p
  }

  ghost predicate Inv(s: World) {
    && Unique(s.book.rows) && Alone(s) && Coupled(s)
    && forall o | o in s.running :: PcHolds(s, o)
  }

  /** Dropping rows and dropping exactly the claims that go with them keeps the invariant. */
  lemma DropKeepsInv(s: World, t: World)
    requires Inv(s) && t.running == s.running && s.dead <= t.dead
    requires Unique(t.book.rows)
    requires forall r | r in t.book.rows :: r in s.book.rows
    requires forall ref | ref in t.book.claims :: ref in s.book.claims && t.book.claims[ref] == s.book.claims[ref]
    requires forall r | r in t.book.rows && r.confirmed && r.order !in t.dead ::
      Claims(s, r.order, r.ref) ==> Claims(t, r.order, r.ref)
    requires forall ref | ref in t.book.claims && t.book.claims[ref] !in t.dead ::
      Row(t.book.claims[ref], ref, true) in s.book.rows ==> Row(t.book.claims[ref], ref, true) in t.book.rows
    ensures Inv(t)
  {
    forall o | o in t.running
      ensures PcHolds(t, o)
    {
      assert PcHolds(s, o);
      if s.running[o].Reserving? {
        forall h | h in s.running[o].held
          ensures Fresh(t, o, h)
        {
          assert Fresh(s, o, h);
        }
      }
    }
  }

  lemma ListKeepsInv(s: World, o: nat)
    requires Inv(s) && (o in s.running || s.running == map[])
    ensures Inv(s.(running := s.running[o := Reserving(OwnRows(s.book.rows, o))]))
  {
    var t := s.(running := s.running[o := Reserving(OwnRows(s.book.rows, o))]);
    forall h | h in OwnRows(s.book.rows, o)
      ensures Fresh(t, o, h)
    {
      forall r | r in s.book.rows && r.ref == h.ref
        ensures r == h
      {
        UniqueMembers(s.book.rows, r, h);
      }
    }
  }

  lemma TakeKeepsInv(s: World, o: nat, ref: Ref)
    requires Inv(s) && IsReserving(s, o)
    ensures Inv(s.(book := Acquire(s.book, o, ref)))
  {
    var t := s.(book := Acquire(s.book, o, ref));
    assert PcHolds(s, o);
    forall h | h in s.running[o].held
      ensures Fresh(t, o, h)
    {
      assert Fresh(s, o, h);
    }
  }

  lemma ClaimKeepsInv(s: World, o: nat, ref: Ref)
    requires Inv(s) && IsConfirming(s, o) && MayClaim(s.book, o, ref)
    ensures Inv(s.(book := ConfirmClaim(s.book, o, ref)))
  {
    var t := s.(book := ConfirmClaim(s.book, o, ref));
    forall r: Row
      ensures r in t.book.rows <==> if r == Row(o, ref, true) then true else r != Row(o, ref, false) && r in s.book.rows
    {
      ConfirmMembers(s.book.rows, o, ref, r);
    }
    forall r | r in s.book.rows && r.ref == ref
      ensures r == Row(o, ref, false)
    {
      UniqueMembers(s.book.rows, r, Row(o, ref, false));
    }
    assert PcHolds(s, o);
  }

  lemma AffirmKeepsInv(s: World, o: nat, ref: Ref)
    requires Inv(s) && IsConfirming(s, o) && ref in s.running[o].own
    ensures Inv(s.(book := s.book.(rows := Confirm(s.book.rows, o, ref))))
  {
    var t := s.(book := s.book.(rows := Confirm(s.book.rows, o, ref)));
    assert PcHolds(s, o);
    if o !in s.dead {
      assert t.book.rows == s.book.rows;
    } else {
      forall r: Row
        ensures r.order != o ==> (r in t.book.rows <==> r in s.book.rows)
      {
        ConfirmMembers(s.book.rows, o, ref, r);
      }
    }
  }

  /** A stray release from a listing that may be stale keeps the invariant and changes no row and no claim
      of another order. */
  lemma StrayKeepsInv(s: World, o: nat, row: Row)
    requires Inv(s) && IsReserving(s, o) && row in s.running[o].held
    ensures Inv(Effect(s, Stray(o, row)))
    ensures
      var b, c := s.book, Effect(s, Stray(o, row)).book;
      && (forall r | r in b.rows && r.order != o :: r in c.rows)
      && (forall r | r in c.rows :: r in b.rows)
      && (forall ref | ref in b.claims && b.claims[ref] != o :: ref in c.claims)
      && (forall ref | ref in c.claims :: ref in b.claims && c.claims[ref] == b.claims[ref])
  {
    var t := Effect(s, Stray(o, row));
    var p := if row.confirmed && row.ref.BinRef? then NotOn(row.ref) else NotHeldBy(o, row.ref);
    assert PcHolds(s, o);
    assert Fresh(s, o, row);
    KeepUnique(s.book.rows, p);
    forall r: Row
      ensures r in t.book.rows <==> r in s.book.rows && r.ref != row.ref
    {
      KeepMembers(s.book.rows, p, r);
    }
    DropKeepsInv(s, t);
  }

  lemma OutsideKeepsInv(s: World, e: Event)
    requires Inv(s) && (e.Terminal? || e.Arrival? || e.Reap? || e.Sweep?)
    ensures Inv(Effect(s, e))
  {
    var t := Effect(s, e);
    match e {
      case Terminal(o) =>
        KeepUnique(s.book.rows, NotOf(o));
        forall r: Row ensures r in t.book.rows <==> r in s.book.rows && r.order != o {
          KeepMembers(s.book.rows, NotOf(o), r);
        }
      case Arrival(ref, kin) =>
        KeepUnique(s.book.rows, NotOn(ref));
        forall r: Row
          ensures r in t.book.rows <==> r in s.book.rows && !(r.ref == ref && EndsClaim(s.book, ref, kin))
        {
          KeepMembers(s.book.rows, NotOn(ref), r);
        }
      case Reap =>
        KeepUnique(s.book.rows, NotIn(s.dead));
        forall r: Row ensures r in t.book.rows <==> r in s.book.rows && r.order !in s.dead {
          KeepMembers(s.book.rows, NotIn(s.dead), r);
        }
      case Sweep =>
    }
    DropKeepsInv(s, t);
  }

  lemma NextKeepsInv(s: World, e: Event)
    requires Inv(s)
    ensures Inv(Next(true, s, e))
  {
    if Enabled(true, s, e) {
      match e
      case Begin(o) => ListKeepsInv(s, o);
      case List(o) => ListKeepsInv(s, o);
      case Take(o, ref) => TakeKeepsInv(s, o, ref);
      case Stray(o, row) => StrayKeepsInv(s, o, row);
      case Claim(o, ref, clear) => if MayClaim(s.book, o, ref) { ClaimKeepsInv(s, o, ref); }
      case Affirm(o, ref) => AffirmKeepsInv(s, o, ref);
      case Look(o, ref) => LookKeepsInv(s, o, ref);
      case Commit(o) =>
      case Stop(o) =>
      case _ => OutsideKeepsInv(s, e);
    }
  }

  lemma LookKeepsInv(s: World, o: nat, ref: Ref)
    requires Inv(s) && IsConfirming(s, o)
    ensures Inv(Effect(s, Look(o, ref)))
  {
    assert PcHolds(s, o);
    if Claims(s, o, ref) && o !in s.dead && Row(o, ref, false) in s.book.rows {
      UniqueMembers(s.book.rows, Row(o, ref, false), Row(o, ref, true));
    }
  }

  /** When ticks are serialized, in every run of reserve ticks, confirms, stray releases, crashes and
      outside events, each bin and slot has at most one row, a live order's claims are exactly its
      confirmed rows, and nobody else has a row on what a live order claims. */
  lemma ClaimsMatchConfirmedRows(es: seq<Event>, o: nat, ref: Ref)
    ensures Unique(Run(true, EMPTY, es).book.rows)
    ensures
      var s := Run(true, EMPTY, es);
      && (o !in s.dead ==> (Claims(s, o, ref) <==> Row(o, ref, true) in s.book.rows))
      && (Claims(s, o, ref) && o !in s.dead ==> forall r | r in s.book.rows && r.ref == ref :: r.order == o)
  {
    SerialInv(es);
    var s := Run(true, EMPTY, es);
    forall r | r in s.book.rows && r.ref == ref && Row(o, ref, true) in s.book.rows
      ensures r.order == o
    {
      UniqueMembers(s.book.rows, r, Row(o, ref, true));
    }
  }

  lemma {:induction false} SerialInv(es: seq<Event>)
    ensures Inv(Run(true, EMPTY, es))
  {
    if es != [] {
      var n := |es| - 1;
      SerialInv(es[..n]);
      NextKeepsInv(Run(true, EMPTY, es[..n]), es[n]);
    }
  }

  // ---- what the mutex and the reaper's reach are for ----

  lemma RunStep(serial: bool, s: World, es: seq<Event>, e: Event)
    ensures Run(serial, s, es + [e]) == Next(serial, Run(serial, s, es), e)
  {
    assert (es + [e])[..|es|] == es;
  }

  /** Order 1's whole tick on one bin, up to the claim. */
  function TickOn(o: nat, bin: nat): seq<Event> {
    [Begin(o)] + [Take(o, BinRef(bin))] + [Commit(o)] + [Claim(o, BinRef(bin), true)]
  }

  /** Begin and acquire on an empty book. */
  lemma TickTakes(serial: bool, s: World, es: seq<Event>, o: nat, bin: nat)
    requires Run(serial, EMPTY, es) == s
    requires s.book == Book([], map[]) && o !in s.running && (serial ==> s.running == map[])
    ensures Run(serial, EMPTY, es + [Begin(o)] + [Take(o, BinRef(bin))])
      == World(Book([Row(o, BinRef(bin), false)], map[]), s.dead, s.running[o := Reserving({})])
  {
    hide Run;
    RunStep(serial, EMPTY, es, Begin(o));
    assert OwnRows([], o) == {};
    RunStep(serial, EMPTY, es + [Begin(o)], Take(o, BinRef(bin)));
  }

  lemma TickOnClaims(serial: bool, s: World, es: seq<Event>, o: nat, bin: nat)
    requires Run(serial, EMPTY, es) == s
    requires s.book == Book([], map[]) && o !in s.running && (serial ==> s.running == map[])
    ensures Run(serial, EMPTY, es + TickOn(o, bin))
      == World(Book([Row(o, BinRef(bin), true)], map[BinRef(bin) := o]), s.dead, s.running[o := Confirming({})])
  {
    hide Run;
    var b := BinRef(bin);
    var taken := es + [Begin(o)] + [Take(o, b)];
    TickTakes(serial, s, es, o, bin);
    RunStep(serial, EMPTY, taken, Commit(o));
    RunStep(serial, EMPTY, taken + [Commit(o)], Claim(o, b, true));
    assert Row(o, b, false) in [Row(o, b, false)];
    assert es + TickOn(o, bin) == taken + [Commit(o)] + [Claim(o, b, true)];
  }

  lemma KeepOne(r: Row, p: Row -> bool)
    ensures Keep([r], p) == if p(r) then [r] else []
  {
    assert [r][..0] == [];
  }

  /** Order 1 claims a bin, lists it in its next tick, and the bin is delivered meanwhile. */
  function ListedThenDelivered(bin: nat): seq<Event> {
    TickOn(1, bin) + [Stop(1)] + [Begin(1)] + [Arrival(BinRef(bin), {1})]
  }

  lemma ListedWhileClaimed(es: seq<Event>, bin: nat)
    requires Run(false, EMPTY, es)
      == World(Book([Row(1, BinRef(bin), true)], map[BinRef(bin) := 1]), {}, map[1 := Confirming({})])
    ensures Run(false, EMPTY, es + [Stop(1)] + [Begin(1)])
      == World(
           Book([Row(1, BinRef(bin), true)], map[BinRef(bin) := 1]), {},
           map[1 := Reserving({Row(1, BinRef(bin), true)})])
  {
    hide Run;
    RunStep(false, EMPTY, es, Stop(1));
    RunStep(false, EMPTY, es + [Stop(1)], Begin(1));
    assert OwnRows([Row(1, BinRef(bin), true)], 1) == {Row(1, BinRef(bin), true)};
  }

  lemma ListedRowIsStale(bin: nat)
    ensures Run(false, EMPTY, ListedThenDelivered(bin))
      == World(Book([], map[]), {}, map[1 := Reserving({Row(1, BinRef(bin), true)})])
  {
    hide Run, TickOn;
    var b := BinRef(bin);
    TickOnClaims(false, EMPTY, [], 1, bin) by {
      assert Run(false, EMPTY, []) == EMPTY by { RunOfNothing(false, EMPTY); }
    }
    var claimed := TickOn(1, bin);
    assert [] + claimed == claimed;
    ListedWhileClaimed(claimed, bin);
    RunStep(false, EMPTY, claimed + [Stop(1)] + [Begin(1)], Arrival(b, {1}));
    KeepOne(Row(1, b, true), NotOn(b));
  }

  lemma RunOfNothing(serial: bool, s: World)
    ensures Run(serial, s, []) == s
  {
  }

  /** Order 2 then reserves and claims the bin, and only now does order 1 drop its stray. */
  function ForeignRelease(bin: nat): seq<Event> {
    ListedThenDelivered(bin) + TickOn(2, bin) + [Stray(1, Row(1, BinRef(bin), true))]
  }

  /** Without the mutex a live order can be left with a claim and no row: the coupled release of a bin
      is matched by the bin alone, so order 1's release takes order 2's row. */
  lemma UnserializedTicksUncouple(bin: nat)
    ensures
      var s := Run(false, EMPTY, ForeignRelease(bin));
      Claims(s, 2, BinRef(bin)) && 2 !in s.dead && s.book.rows == []
  {
    var b := BinRef(bin);
    ListedRowIsStale(bin);
    var freed := ListedThenDelivered(bin);
    TickOnClaims(false, Run(false, EMPTY, freed), freed, 2, bin);
    hide Run, TickOn, ListedThenDelivered;
    RunStep(false, EMPTY, freed + TickOn(2, bin), Stray(1, Row(1, b, true)));
    KeepOne(Row(2, b, true), NotOn(b));
  }

  lemma DeadFromTheStart()
    ensures Run(true, EMPTY, [Terminal(1)]) == World(Book([], map[]), {1}, map[])
  {
    RunStep(true, EMPTY, [], Terminal(1));
    assert [] + [Terminal(1)] == [Terminal(1)];
  }

  /** A tick that outlives its order leaves a claim behind: the reaper then deletes the row and not the
      claim. This is why the coupling is stated for live orders, and what the claim sweep is for. */
  lemma ReapedTickLeavesAClaim(bin: nat)
    ensures
      var es := [Terminal(1)] + TickOn(1, bin) + [Reap];
      var s := Run(true, EMPTY, es);
      && Claims(s, 1, BinRef(bin)) && s.book.rows == []
      && !Claims(Run(true, EMPTY, es + [Sweep]), 1, BinRef(bin))
  {
    hide Run, TickOn;
    var b := BinRef(bin);
    DeadFromTheStart();
    TickOnClaims(true, World(Book([], map[]), {1}, map[]), [Terminal(1)], 1, bin);
    ReapThenSweep([Terminal(1)] + TickOn(1, bin), b);
  }

  lemma ReapThenSweep(es: seq<Event>, b: Ref)
    requires Run(true, EMPTY, es) == World(Book([Row(1, b, true)], map[b := 1]), {1}, map[1 := Confirming({})])
    ensures
      var s := Run(true, EMPTY, es + [Reap]);
      Claims(s, 1, b) && s.book.rows == [] && !Claims(Run(true, EMPTY, es + [Reap] + [Sweep]), 1, b)
  {
    hide Run;
    RunStep(true, EMPTY, es, Reap);
    RunStep(true, EMPTY, es + [Reap], Sweep);
    KeepOne(Row(1, b, true), NotIn({1}));
  }
}
