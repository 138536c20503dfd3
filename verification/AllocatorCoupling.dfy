/** Ticks that are not serialized: exactly which step takes a live order's row from under its claim. */
module AllocatorCoupling {
  import opened Reservations
  import opened AllocatorRuns

  /** What a running order still knows of its own rows, whoever else is at work. */
  ghost predicate PcOwn(s: World, o: nat)
    requires o in s.running
  {
    match s.running[o]
    case Reserving(held) =>
      forall h | h in held :: h.order == o && (!h.confirmed && o !in s.dead ==> Row(o, h.ref, true) !in s.book.rows)
    case Confirming(own) =>
      forall ref | ref in own && o !in s.dead :: Row(o, ref, false) !in s.book.rows
  }

  ghost predicate Loose(s: World) {
    Unique(s.book.rows) && Coupled(s) && forall o | o in s.running :: PcOwn(s, o)
  }

  /** The guard: a coupled release of a bin whose row has meanwhile become another live order's, confirmed. */
  ghost predicate TakesForeign(s: World, e: Event) {
    && e.Stray? && e.row.confirmed && e.row.ref.BinRef?
    && exists r | r in s.book.rows :: r.ref == e.row.ref && r.confirmed && r.order != e.o && r.order !in s.dead
  }

  /** Deleting rows, and claims only together with the rows of live orders, keeps everything. */
  lemma DropKeepsLoose(s: World, t: World)
    requires Loose(s) && t.running == s.running && s.dead <= t.dead
    requires Unique(t.book.rows) && forall r | r in t.book.rows :: r in s.book.rows
    requires Coupled(t)
    ensures Loose(t)
  {
    forall o | o in t.running
      ensures PcOwn(t, o)
    {
      assert PcOwn(s, o);
    }
  }

  lemma ListKeepsLoose(s: World, o: nat)
    requires Loose(s)
    ensures Loose(s.(running := s.running[o := Reserving(OwnRows(s.book.rows, o))]))
  {
    var t := s.(running := s.running[o := Reserving(OwnRows(s.book.rows, o))]);
    forall h | h in OwnRows(s.book.rows, o) && !h.confirmed
      ensures Row(o, h.ref, true) !in s.book.rows
    {
      if Row(o, h.ref, true) in s.book.rows {
        UniqueMembers(s.book.rows, h, Row(o, h.ref, true));
      }
    }
    forall p | p in t.running
      ensures PcOwn(t, p)
    {
      assert p != o ==> PcOwn(s, p);
    }
  }

  lemma TakeKeepsLoose(s: World, o: nat, ref: Ref)
    requires Loose(s) && IsReserving(s, o)
    ensures Loose(s.(book := Acquire(s.book, o, ref)))
  {
    var t := s.(book := Acquire(s.book, o, ref));
    forall p | p in t.running
      ensures PcOwn(t, p)
    {
      assert PcOwn(s, p);
    }
  }

  lemma ClaimKeepsLoose(s: World, o: nat, ref: Ref)
    requires Loose(s) && IsConfirming(s, o) && MayClaim(s.book, o, ref)
    ensures Loose(s.(book := ConfirmClaim(s.book, o, ref)))
  {
    var t := s.(book := ConfirmClaim(s.book, o, ref));
    forall r: Row
      ensures r in t.book.rows <==> r == Row(o, ref, true) || (r != Row(o, ref, false) && r in s.book.rows)
    {
      ConfirmMembers(s.book.rows, o, ref, r);
    }
    forall r | r in s.book.rows && r.ref == ref
      ensures r == Row(o, ref, false)
    {
      UniqueMembers(s.book.rows, r, Row(o, ref, false));
    }
    forall p | p in t.running
      ensures PcOwn(t, p)
    {
      assert PcOwn(s, p);
    }
  }

  lemma AffirmKeepsLoose(s: World, o: nat, ref: Ref)
    requires Loose(s) && IsConfirming(s, o) && ref in s.running[o].own
    ensures Loose(s.(book := s.book.(rows := Confirm(s.book.rows, o, ref))))
  {
    var t := s.(book := s.book.(rows := Confirm(s.book.rows, o, ref)));
    assert PcOwn(s, o);
    forall r: Row
      ensures r.order != o ==> (r in t.book.rows <==> r in s.book.rows)
    {
      ConfirmMembers(s.book.rows, o, ref, r);
    }
    if o !in s.dead {
      assert t.book.rows == s.book.rows;
    }
    forall p | p in t.running
      ensures PcOwn(t, p)
    {
      assert PcOwn(s, p);
      if p == o && o in s.dead {
        assert PcOwn(t, p);
      }
    }
  }

  lemma LookKeepsLoose(s: World, o: nat, ref: Ref)
    requires Loose(s) && IsConfirming(s, o)
    ensures Loose(Effect(s, Look(o, ref)))
  {
    var t := Effect(s, Look(o, ref));
    if Claims(s, o, ref) && o !in s.dead && Row(o, ref, false) in s.book.rows {
      UniqueMembers(s.book.rows, Row(o, ref, false), Row(o, ref, true));
    }
    forall p | p in t.running
      ensures PcOwn(t, p)
    {
      assert PcOwn(s, p);
    }
  }

  lemma StrayRows(s: World, o: nat, row: Row)
    requires IsReserving(s, o) && row in s.running[o].held && Unique(s.book.rows)
    ensures
      var t := Effect(s, Stray(o, row));
      var all := row.confirmed && row.ref.BinRef?;
      && Unique(t.book.rows)
      && (forall r :: r in t.book.rows <==> r in s.book.rows && !(r.ref == row.ref && (all || r.order == o)))
  {
    var p := if row.confirmed && row.ref.BinRef? then NotOn(row.ref) else NotHeldBy(o, row.ref);
    KeepUnique(s.book.rows, p);
    forall r
      ensures r in Keep(s.book.rows, p) <==> r in s.book.rows && p(r)
    {
      KeepMembers(s.book.rows, p, r);
    }
  }

  lemma StrayIff(s: World, o: nat, row: Row)
    requires Loose(s) && IsReserving(s, o) && row in s.running[o].held
    ensures
      var e := Stray(o, row);
      if TakesForeign(s, e) then !Coupled(Effect(s, e)) else Loose(Effect(s, e))
  {
    var e := Stray(o, row);
    var t := Effect(s, e);
    StrayRows(s, o, row);
    assert PcOwn(s, o);
    if TakesForeign(s, e) {
      var r :| r in s.book.rows && r.ref == row.ref && r.confirmed && r.order != o && r.order !in s.dead;
      assert Claims(s, r.order, r.ref) && Claims(t, r.order, r.ref);
    } else {
      forall ref | ref in t.book.claims && t.book.claims[ref] !in t.dead
        ensures Row(t.book.claims[ref], ref, true) in t.book.rows
      {
        assert Row(s.book.claims[ref], ref, true) in s.book.rows;
      }
      forall r | r in t.book.rows && r.confirmed && r.order !in t.dead
        ensures Claims(t, r.order, r.ref)
      {
        assert Claims(s, r.order, r.ref);
      }
      DropKeepsLoose(s, t);
    }
  }

  lemma OutsideKeepsLoose(s: World, e: Event)
    requires Loose(s) && (e.Terminal? || e.Arrival? || e.Reap? || e.Sweep?)
    ensures Loose(Effect(s, e))
  {
    var t := Effect(s, e);
    match e {
      case Terminal(o) =>
        KeepUnique(s.book.rows, NotOf(o));
        forall r: Row ensures r in t.book.rows <==> r in s.book.rows && r.order != o {
          KeepMembers(s.book.rows, NotOf(o), r);
        }
      case Arrival(ref, kin) =>
        KeepUnique(s.book.rows, NotOn(ref));
        forall r: Row
          ensures r in t.book.rows <==> r in s.book.rows && !(r.ref == ref && EndsClaim(s.book, ref, kin))
        {
          KeepMembers(s.book.rows, NotOn(ref), r);
        }
      case Reap =>
        KeepUnique(s.book.rows, NotIn(s.dead));
        forall r: Row ensures r in t.book.rows <==> r in s.book.rows && r.order !in s.dead {
          KeepMembers(s.book.rows, NotIn(s.dead), r);
        }
      case Sweep =>
    }
    DropKeepsLoose(s, t);
  }

  lemma RunningKeepsLoose(s: World, e: Event)
    requires Loose(s) && Enabled(false, s, e) && (e.Commit? || e.Stop?)
    ensures Loose(Effect(s, e))
  {
    var t := Effect(s, e);
    forall p | p in t.running
      ensures PcOwn(t, p)
    {
      assert p in s.running && PcOwn(s, p);
    }
  }

  /** Any step of any order, with ticks running side by side, keeps every live order's claims on exactly its
      confirmed rows if and only if it is not a release that takes another order's confirmed bin row. */
  lemma CouplingStepIff(s: World, e: Event)
    requires Loose(s) && Enabled(false, s, e)
    ensures if TakesForeign(s, e) then !Coupled(Effect(s, e)) else Loose(Effect(s, e))
  {
    match e
    case Begin(o) => ListKeepsLoose(s, o);
    case List(o) => ListKeepsLoose(s, o);
    case Take(o, ref) => TakeKeepsLoose(s, o, ref);
    case Stray(o, row) => StrayIff(s, o, row);
    case Commit(_) => RunningKeepsLoose(s, e);
    case Claim(o, ref, _) => if MayClaim(s.book, o, ref) { ClaimKeepsLoose(s, o, ref); }
    case Look(o, ref) => LookKeepsLoose(s, o, ref);
    case Affirm(o, ref) => AffirmKeepsLoose(s, o, ref);
    case Stop(_) => RunningKeepsLoose(s, e);
    case _ => OutsideKeepsLoose(s, e);
  }

  /** No enabled step of the run is such a release. */
  ghost predicate NoneForeign(es: seq<Event>) {
    es != [] ==>
      var n := |es| - 1;
      var s := Run(false, EMPTY, es[..n]);
      NoneForeign(es[..n]) && (Enabled(false, s, es[n]) ==> !TakesForeign(s, es[n]))
  }

  /** The coupling holds after the run and after every shorter one. */
  ghost predicate CoupledThroughout(es: seq<Event>) {
    Coupled(Run(false, EMPTY, es)) && (es != [] ==> CoupledThroughout(es[..|es| - 1]))
  }

  /** Over whole unserialized runs: claims and confirmed rows of live orders agree after every step if and only
      if no step was such a release. */
  lemma {:induction false} CoupledThroughoutIff(es: seq<Event>)
    ensures CoupledThroughout(es) <==> NoneForeign(es)
    ensures NoneForeign(es) ==> Loose(Run(false, EMPTY, es))
  {
    if es != [] {
      hide Enabled, TakesForeign, Coupled, Effect, Loose;
      var n := |es| - 1;
      var s := Run(false, EMPTY, es[..n]);
      CoupledThroughoutIff(es[..n]);
      LooseIsCoupled(s);
      if NoneForeign(es[..n]) && Enabled(false, s, es[n]) {
        CouplingStepIff(s, es[n]);
        LooseIsCoupled(Effect(s, es[n]));
      }
    }
  }

  lemma LooseIsCoupled(s: World)
    ensures Loose(s) ==> Coupled(s)
  {
  }
}
