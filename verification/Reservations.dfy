/** The reservation rows and hard claims that complex orders share, and the store operations on them. */
module Reservations {

  /** What a row covers. A node is named by its own name. */
  datatype Ref = BinRef(bin: nat) | SlotRef(node: string)

  datatype Row = Row(order: nat, ref: Ref, confirmed: bool)

  /** Rows in insertion order, and `claimed_by` of every bin and slot that is claimed. */
  datatype Book = Book(rows: seq<Row>, claims: map<Ref, nat>)

  predicate Reserved(rows: seq<Row>, ref: Ref) {
    exists i | 0 <= i < |rows| :: rows[i].ref == ref
  }

  predicate Pending(rows: seq<Row>, ref: Ref) {
    exists i | 0 <= i < |rows| :: rows[i].ref == ref && !rows[i].confirmed
  }

  /** At most one row per bin or slot. */
  ghost predicate Unique(rows: seq<Row>) {
    forall i, j | 0 <= i < j < |rows| :: rows[i].ref != rows[j].ref
  }

  function Keep(rows: seq<Row>, p: Row -> bool): seq<Row> {
    if rows == [] then []
    else
      var front := Keep(rows[..|rows| - 1], p);
      var last := rows[|rows| - 1];
      if p(last) then front + [last] else front
  }

  function Of(o: nat): Row -> bool { (r: Row) => r.order == o }
  function NotOf(o: nat): Row -> bool { (r: Row) => r.order != o }
  function NotOn(ref: Ref): Row -> bool { (r: Row) => r.ref != ref }
  function NotHeldBy(o: nat, ref: Ref): Row -> bool { (r: Row) => !(r.order == o && r.ref == ref) }
  function NotIn(orders: set<nat>): Row -> bool { (r: Row) => r.order !in orders }

  lemma {:induction false} KeepMembers(rows: seq<Row>, p: Row -> bool, r: Row)
    ensures r in Keep(rows, p) <==> r in rows && p(r)
  {
    if rows != [] {
      var n := |rows| - 1;
      KeepMembers(rows[..n], p, r);
      assert rows == rows[..n] + [rows[n]];
    }
  }

  /** The positions that are kept, in order. */
  ghost function Kept(rows: seq<Row>, p: Row -> bool): (at: seq<nat>)
    ensures forall k | 0 <= k < |at| :: at[k] < |rows| && p(rows[at[k]])
    ensures forall j, k | 0 <= j < k < |at| :: at[j] < at[k]
    ensures forall i | 0 <= i < |rows| && p(rows[i]) :: i in at
  {
    if rows == [] then []
    else
      var n := |rows| - 1;
      var front := Kept(rows[..n], p);
      if p(rows[n]) then front + [n] else front
  }

  /** Keeping drops rows and never reorders them: the rows listed for an order come oldest first. */
  lemma {:induction false} KeepKeepsOrder(rows: seq<Row>, p: Row -> bool)
    ensures |Keep(rows, p)| == |Kept(rows, p)|
    ensures forall k | 0 <= k < |Kept(rows, p)| :: Keep(rows, p)[k] == rows[Kept(rows, p)[k]]
  {
    if rows != [] {
      KeepKeepsOrder(rows[..|rows| - 1], p);
    }
  }

  lemma {:induction false} KeepUnique(rows: seq<Row>, p: Row -> bool)
    requires Unique(rows)
    ensures Unique(Keep(rows, p))
  {
    if rows != [] {
      var n := |rows| - 1;
      var front := Keep(rows[..n], p);
      KeepUnique(rows[..n], p);
      forall i | 0 <= i < |front|
        ensures front[i].ref != rows[n].ref
      {
        KeepMembers(rows[..n], p, front[i]);
      }
    }
  }

  lemma UniqueMembers(rows: seq<Row>, a: Row, b: Row)
    requires Unique(rows) && a in rows && b in rows && a.ref == b.ref
    ensures a == b
  {
    var i :| 0 <= i < |rows| && rows[i] == a;
    var j :| 0 <= j < |rows| && rows[j] == b;
  }

  /** An insert that conflicts on any row of the bin or slot, the order's own included. */
  function Acquire(b: Book, o: nat, ref: Ref): Book {
    if Reserved(b.rows, ref) then b else b.(rows := b.rows + [Row(o, ref, false)])
  }

  /** Confirming flips the order's pending row; a confirmed or missing row is left as it is. */
  function Confirm(rows: seq<Row>, o: nat, ref: Ref): (r: seq<Row>)
    ensures |r| == |rows|
    ensures forall i | 0 <= i < |rows| ::
      r[i] == if rows[i].order == o && rows[i].ref == ref then rows[i].(confirmed := true) else rows[i]
  {
    if rows == [] then []
    else
      var last := rows[|rows| - 1];
      Confirm(rows[..|rows| - 1], o, ref)
      + [if last.order == o && last.ref == ref then last.(confirmed := true) else last]
  }

  /** The claim's guard: unclaimed or already this order's, and reserved by it but not yet confirmed. */
  predicate MayClaim(b: Book, o: nat, ref: Ref) {
    (ref in b.claims ==> b.claims[ref] == o) && Row(o, ref, false) in b.rows
  }

  /** Claim and confirm in one transaction. */
  function ConfirmClaim(b: Book, o: nat, ref: Ref): Book {
    if MayClaim(b, o, ref) then Book(Confirm(b.rows, o, ref), b.claims[ref := o]) else b
  }

  /** Plain release of a pending hold; it deletes the order's row whatever its state. */
  function Release(b: Book, o: nat, ref: Ref): Book {
    b.(rows := Keep(b.rows, NotHeldBy(o, ref)))
  }

  /** Coupled release: the claim goes only if it is the order's. The row of a slot is matched by its
      owner too, but the row of a bin is matched by the bin alone. */
  function ReleaseClaim(b: Book, o: nat, ref: Ref): Book {
    Book(
      Keep(b.rows, if ref.BinRef? then NotOn(ref) else NotHeldBy(o, ref)),
      if ref in b.claims && b.claims[ref] == o then b.claims - {ref} else b.claims)
  }

  /** Terminal release: everything the order claims or reserves. */
  function Terminalize(b: Book, o: nat): Book {
    Book(Keep(b.rows, NotOf(o)), map ref | ref in b.claims && b.claims[ref] != o :: b.claims[ref])
  }

  /** Placing ends the claim on a slot whoever has it, and that on a bin if there is none or it is one of
      `kin`: the placing order and its siblings in a compound. */
  predicate EndsClaim(b: Book, ref: Ref, kin: set<nat>) {
    ref.SlotRef? || ref !in b.claims || b.claims[ref] in kin
  }

  /** Delivery: where the claim ends, the row goes with it, whoever holds that. */
  function Arrive(b: Book, ref: Ref, kin: set<nat>): Book {
    if EndsClaim(b, ref, kin) then Book(Keep(b.rows, NotOn(ref)), b.claims - {ref}) else b
  }

  /** The store, with the operations updating it in place. */
  class Store {
    var rows: seq<Row>
    var claims: map<Ref, nat>

    constructor ()
      ensures Contents() == Book([], map[])
    {
      rows, claims := [], map[];
    }

    function Contents(): Book
      reads this
    {
      Book(rows, claims)
    }

    method AcquireRow(o: nat, ref: Ref) returns (conflict: bool)
      modifies `rows
      ensures Contents() == Acquire(old(Contents()), o, ref)
      ensures conflict <==> Reserved(old(rows), ref)
    {
      conflict := Reserved(rows, ref);
      if !conflict {
        rows := rows + [Row(o, ref, false)];
      }
    }

    method ReleaseRow(o: nat, ref: Ref)
      modifies `rows
      ensures Contents() == Release(old(Contents()), o, ref)
    {
      rows := Keep(rows, NotHeldBy(o, ref));
    }

    method ReleaseClaimAndRow(o: nat, ref: Ref)
      modifies this
      ensures Contents() == ReleaseClaim(old(Contents()), o, ref)
    {
      if ref in claims && claims[ref] == o {
        claims := claims - {ref};
      }
      rows := Keep(rows, if ref.BinRef? then NotOn(ref) else NotHeldBy(o, ref));
    }

    method ConfirmRow(o: nat, ref: Ref)
      modifies `rows
      ensures Contents() == old(Contents()).(rows := Confirm(old(rows), o, ref))
    {
      rows := Confirm(rows, o, ref);
    }

    /** `clear` stands for the seatbelts on the floor itself: bin not locked, slot not occupied. */
    method ClaimAndConfirm(o: nat, ref: Ref, clear: bool) returns (ok: bool)
      modifies this
      ensures ok <==> clear && MayClaim(old(Contents()), o, ref)
      ensures Contents() == if ok then ConfirmClaim(old(Contents()), o, ref) else old(Contents())
    {
      ok := clear && MayClaim(Contents(), o, ref);
      if ok {
        claims := claims[ref := o];
        rows := Confirm(rows, o, ref);
      }
    }
  }
}
