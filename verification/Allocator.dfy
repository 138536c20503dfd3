/** One reserve tick of a complex order: what it holds reconciled against what its pickups need. */
module Allocator {
  import opened Plans
  import opened Reservations
  import opened Pickups

  /** `usable` is unlocked and in a status that allows pickup; a bin with no payload is empty. */
  datatype Bin = Bin(id: nat, node: string, payload: string, usable: bool)

  /** The nodes a name resolves to, and the bins in listing order. */
  datatype Floor = Floor(nodes: set<string>, bins: seq<Bin>)

  datatype Order = Order(id: nat, payload: string, processNode: string)

  /** A row of the order's own, resolved to what it can be matched by. A bin that is nowhere has the
      blank node, which matches nothing. */
  datatype Held = Held(ref: Ref, node: string, empty: bool, confirmed: bool, used: bool)

  datatype Taken = Taken(index: nat, node: string, bin: nat, confirmed: bool)

  datatype Outcome = Complete | Holding | Moot

  /** Bin ids are a key, a bin stands at a node or at none, and the blank name resolves to nothing. */
  ghost predicate ValidFloor(f: Floor) {
    && "" !in f.nodes
    && (forall i, j | 0 <= i < j < |f.bins| :: f.bins[i].id != f.bins[j].id)
    && (forall b | b in f.bins :: b.node == "" || b.node in f.nodes)
  }

  predicate HasBins(f: Floor, node: string) {
    node in f.nodes && exists b | b in f.bins :: b.node == node
  }

  /** A relay whose node is empty: its bin has not been parked there yet, so nothing is missing. */
  predicate EmptyRelay(f: Floor, n: Need) {
    n.relay && !HasBins(f, n.node)
  }

  // ---- choosing a bin ----

  predicate Removal(order: Order, n: Need) {
    order.processNode != "" && n.node == order.processNode
  }

  /** A removal takes whatever stands there, an empty leg an empty carrier, and a supply leg anything
      that does not carry a different payload. */
  predicate Suits(order: Order, n: Need, bin: Bin) {
    || Removal(order, n)
    || (if n.empty then bin.payload == ""
        else order.payload == "" || bin.payload == "" || bin.payload == order.payload)
  }

  /** Reservations are read owner-blind. */
  predicate Available(b: Book, order: Order, n: Need, bin: Bin) {
    && bin.node == n.node && bin.usable && Suits(order, n, bin)
    && BinRef(bin.id) !in b.claims && !Pending(b.rows, BinRef(bin.id))
  }

  /** The position of the first available bin, or the end of the list. */
  function FirstAvailable(b: Book, order: Order, n: Need, bins: seq<Bin>, from: nat): (k: nat)
    requires from <= |bins|
    ensures from <= k <= |bins|
    ensures k < |bins| ==> Available(b, order, n, bins[k])
    ensures forall j | from <= j < k :: !Available(b, order, n, bins[j])
    decreases |bins| - from
  {
    if from == |bins| || Available(b, order, n, bins[from]) then from
    else FirstAvailable(b, order, n, bins, from + 1)
  }

  // ---- matching a hold ----

  predicate Matches(h: Held, n: Need) {
    !h.used && h.ref.BinRef? && h.node != "" && h.node == n.node && h.empty == n.empty
  }

  function FirstMatch(held: seq<Held>, n: Need, from: nat): (k: nat)
    requires from <= |held|
    ensures from <= k <= |held|
    ensures k < |held| ==> Matches(held[k], n)
    ensures forall j | from <= j < k :: !Matches(held[j], n)
    decreases |held| - from
  {
    if from == |held| || Matches(held[from], n) then from else FirstMatch(held, n, from + 1)
  }

  function BinIndex(bins: seq<Bin>, id: nat): (k: nat)
    ensures k <= |bins|
    ensures k < |bins| ==> bins[k].id == id
    ensures k == |bins| ==> forall b | b in bins :: b.id != id
  {
    if bins == [] || bins[0].id == id then 0 else 1 + BinIndex(bins[1..], id)
  }

  function Resolve(f: Floor, r: Row): Held {
    match r.ref
    case SlotRef(node) => Held(r.ref, node, false, r.confirmed, false)
    case BinRef(id) =>
      var k := BinIndex(f.bins, id);
      if k < |f.bins|
      then Held(r.ref, f.bins[k].node, f.bins[k].payload == "", r.confirmed, false)
      else Held(r.ref, "", false, r.confirmed, false)
  }

  function ResolveAll(f: Floor, rows: seq<Row>): (held: seq<Held>)
    ensures |held| == |rows|
    ensures forall i | 0 <= i < |rows| :: held[i] == Resolve(f, rows[i])
  {
    seq(|rows|, i requires 0 <= i < |rows| => Resolve(f, rows[i]))
  }

  // ---- the walk over the pickups ----

  datatype Tick = Tick(
    book: Book,
    held: seq<Held>,
    taken: seq<Taken>,
    missing: nat,
    withBins: bool,
    lineGone: bool)

  function Start(f: Floor, b: Book, o: nat): Tick {
    Tick(b, ResolveAll(f, Keep(b.rows, Of(o))), [], 0, false, false)
  }

  function Visit(f: Floor, order: Order, t: Tick, n: Need): Tick {
    var k := FirstMatch(t.held, n, 0);
    if k < |t.held| then
      t.(held := t.held[k := t.held[k].(used := true)],
         taken := t.taken + [Taken(n.index, n.node, t.held[k].ref.bin, t.held[k].confirmed)])
    else
      var m := if n.node in f.nodes then FirstAvailable(t.book, order, n, f.bins, 0) else |f.bins|;
      if m == |f.bins| then
        if EmptyRelay(f, n) then t
        else
          t.(missing := t.missing + 1,
             withBins := t.withBins || HasBins(f, n.node),
             lineGone := t.lineGone || (!HasBins(f, n.node) && Removal(order, n)))
      else if Reserved(t.book.rows, BinRef(f.bins[m].id)) then
        t.(missing := t.missing + 1, withBins := true)
      else
        t.(book := Acquire(t.book, order.id, BinRef(f.bins[m].id)),
           taken := t.taken + [Taken(n.index, n.node, f.bins[m].id, false)])
  }

  function Walk(f: Floor, order: Order, t: Tick, needs: seq<Need>): Tick {
    if needs == [] then t
    else Visit(f, order, Walk(f, order, t, needs[..|needs| - 1]), needs[|needs| - 1])
  }

  /** A bin hold no pickup used goes: claim and row together if it was confirmed, else the row. */
  function DropStrays(b: Book, o: nat, held: seq<Held>): Book {
    if held == [] then b
    else
      var front := DropStrays(b, o, held[..|held| - 1]);
      var h := held[|held| - 1];
      if h.used || h.ref.SlotRef? then front
      else if h.confirmed then ReleaseClaim(front, o, h.ref)
      else Release(front, o, h.ref)
  }

  predicate LegTakesLineBin(p: Plan, node: string) {
    && node != ""
    && (exists s | s in p :: s.node == node && s.action.Pickup?)
    && (forall s | s in p && s.node == node :: !s.action.Dropoff?)
  }

  predicate LegPlacesLineBin(p: Plan, node: string) {
    && node != ""
    && (exists s | s in p :: s.node == node && s.action.Dropoff?)
    && (forall s | s in p && s.node == node :: !s.action.Pickup?)
  }

  function Verdict(t: Tick, p: Plan, node: string): Outcome {
    if t.missing == 0 then Complete
    else if t.lineGone && LegTakesLineBin(p, node) then Moot
    else if t.taken == [] && !t.withBins && !LegPlacesLineBin(p, node) then Moot
    else Holding
  }

  function ReserveTick(f: Floor, order: Order, b: Book, needs: seq<Need>): Tick {
    var t := Walk(f, order, Start(f, b, order.id), needs);
    t.(book := DropStrays(t.book, order.id, t.held))
  }

  /** The tick itself: list own rows, walk the pickups, drop what no pickup used. */
  method ReserveComplexPlan(store: Store, f: Floor, order: Order, plan: Plan)
    returns (taken: seq<Taken>, outcome: Outcome)
    modifies store
    ensures
      var t := ReserveTick(f, order, old(store.Contents()), NeedsOf(plan));
      store.Contents() == t.book && taken == t.taken && outcome == Verdict(t, plan, order.processNode)
  {
    var needs := ComplexPickups(plan);
    var held := ResolveAll(f, Keep(store.rows, Of(order.id)));
    ghost var start := Start(f, store.Contents(), order.id);
    var missing, withBins, lineGone := 0, false, false;
    taken := [];
    for i := 0 to |needs|
      invariant Tick(store.Contents(), held, taken, missing, withBins, lineGone)
             == Walk(f, order, start, needs[..i])
    {
      assert needs[..i + 1][..i] == needs[..i];
      var n := needs[i];
      var k := FirstMatch(held, n, 0);
      if k < |held| {
        taken := taken + [Taken(n.index, n.node, held[k].ref.bin, held[k].confirmed)];
        held := held[k := held[k].(used := true)];
        continue;
      }
      var m := if n.node in f.nodes then FirstAvailable(store.Contents(), order, n, f.bins, 0) else |f.bins|;
      var hadBins := HasBins(f, n.node);
      if m == |f.bins| {
        if n.relay && !hadBins {
          continue;
        }
        missing := missing + 1;
        if hadBins {
          withBins := true;
        } else if Removal(order, n) {
          lineGone := true;
        }
        continue;
      }
      var conflict := store.AcquireRow(order.id, BinRef(f.bins[m].id));
      if conflict {
        missing, withBins := missing + 1, true;
        continue;
      }
      taken := taken + [Taken(n.index, n.node, f.bins[m].id, false)];
    }
    assert needs[..|needs|] == needs;
    ReleaseStrays(store, order.id, held);
    outcome := Verdict(Tick(store.Contents(), held, taken, missing, withBins, lineGone), plan, order.processNode);
  }

  method ReleaseStrays(store: Store, o: nat, held: seq<Held>)
    modifies store
    ensures store.Contents() == DropStrays(old(store.Contents()), o, held)
  {
    for i := 0 to |held|
      invariant store.Contents() == DropStrays(old(store.Contents()), o, held[..i])
    {
      assert held[..i + 1][..i] == held[..i];
      var h := held[i];
      if h.used || h.ref.SlotRef? {
        continue;
      }
      if h.confirmed {
        store.ReleaseClaimAndRow(o, h.ref);
      } else {
        store.ReleaseRow(o, h.ref);
      }
    }
    assert held[..|held|] == held;
  }
}
