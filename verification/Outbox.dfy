/** The outbox drainer: a ticker arm, a wake arm, and a mute that keeps wakes from spending retries. */
module Outbox {

  const MAX_RETRIES := 10

  /** A message row, in id order. `published` counts publishes that went through; `purged` rows have been
      deleted by housekeeping. */
  datatype Row = Row(retries: nat, sent: bool, published: nat, purged: bool)

  const FRESH := Row(0, false, 0, false)

  /** What publishing one message does: it goes through (and is acked or not), it errors (and the retry is
      counted or not), or it panics (and the row is marked exhausted or not). */
  datatype Outcome = Delivered(acked: bool) | Failed(counted: bool) | Panicked(marked: bool)

  /** One drain pass as the world decides it: the connection, the listing, and each message's outcome. */
  datatype Pass = Pass(connected: bool, listed: bool, outcome: nat -> Outcome)

  predicate Pending(r: Row) {
    !r.sent && !r.purged && r.retries < MAX_RETRIES
  }

  predicate Exhausted(r: Row) {
    !r.sent && r.retries >= MAX_RETRIES
  }

  function PendingIds(rows: seq<Row>): (ids: seq<nat>)
    ensures forall k | 0 <= k < |ids| :: ids[k] < |rows| && Pending(rows[ids[k]])
    ensures forall j, k | 0 <= j < k < |ids| :: ids[j] < ids[k]
  {
    if rows == [] then []
    else
      var n := |rows| - 1;
      var front := PendingIds(rows[..n]);
      if Pending(rows[n]) then front + [n] else front
  }

  /** The first `limit` pending rows. */
  function Batch(rows: seq<Row>, limit: nat): seq<nat> {
    var ids := PendingIds(rows);
    if |ids| <= limit then ids else ids[..limit]
  }

  function Published(r: Row, o: Outcome): Row {
    match o
    case Delivered(acked) => r.(sent := r.sent || acked, published := r.published + 1)
    case Failed(counted) => if counted then r.(retries := r.retries + 1) else r
    case Panicked(marked) => if marked then r.(retries := MAX_RETRIES) else r
  }

  predicate Runs(p: Pass) {
    p.connected && p.listed
  }

  /** The rows after a pass: each row of the batch by its own outcome, whatever happens to the others. */
  function Drained(rows: seq<Row>, limit: nat, p: Pass): (r: seq<Row>)
    ensures |r| == |rows|
  {
    if !Runs(p) then rows
    else
      var batch := Batch(rows, limit);
      seq(|rows|, i requires 0 <= i < |rows| => if i in batch then Published(rows[i], p.outcome(i)) else rows[i])
  }

  predicate PassFails(rows: seq<Row>, limit: nat, p: Pass) {
    Runs(p) && exists i | i in Batch(rows, limit) :: !p.outcome(i).Delivered?
  }

  class Drainer {
    const limit: nat
    var rows: seq<Row>
    var muted: bool

    constructor (limit: int)
      ensures rows == [] && !muted
      ensures this.limit == if limit >= 1 then limit else 50
    {
      this.limit := if limit <= 0 then 50 else limit;
      rows, muted := [], false;
    }

    method Enqueue()
      modifies `rows
      ensures rows == old(rows) + [FRESH]
    {
      rows := rows + [FRESH];
    }

    /** One message, inside the panic boundary. */
    method PublishOne(i: nat, o: Outcome) returns (ok: bool)
      requires i < |rows|
      modifies `rows
      ensures rows == old(rows)[i := Published(old(rows)[i], o)]
      ensures
        var was, now := old(rows)[i], rows[i];
        && now.retries ==
           (if o == Failed(true) then was.retries + 1 else if o == Panicked(true) then 10 else was.retries)
        && now.sent == (was.sent || o == Delivered(true))
        && now.published == (if o.Delivered? then was.published + 1 else was.published)
        && now.purged == was.purged
      ensures ok <==> o.Delivered?
    {
      ok := o.Delivered?;
      match o
      case Delivered(acked) =>
        rows := rows[i := rows[i].(published := rows[i].published + 1)];
        if acked {
          rows := rows[i := rows[i].(sent := true)];
        }
      case Failed(counted) =>
        if counted {
          rows := rows[i := rows[i].(retries := rows[i].retries + 1)];
        }
      case Panicked(marked) =>
        if marked {
          rows := rows[i := rows[i].(retries := MAX_RETRIES)];
        }
    }

    method Drain(p: Pass) returns (failed: bool)
      modifies `rows
      ensures rows == Drained(old(rows), limit, p)
      ensures failed <==> PassFails(old(rows), limit, p)
      ensures failed <==> p.connected && p.listed && exists i | i in Batch(old(rows), limit) ::
        p.outcome(i).Failed? || p.outcome(i).Panicked?
    {
      failed := false;
      if !p.connected {
        return;
      }
      if !p.listed {
        return;
      }
      var batch := Batch(rows, limit);
      ghost var before := rows;
      for k := 0 to |batch|
        invariant |rows| == |before|
        invariant forall i | 0 <= i < |rows| ::
          rows[i] == if i in batch[..k] then Published(before[i], p.outcome(i)) else before[i]
        invariant failed <==> exists i | i in batch[..k] :: !p.outcome(i).Delivered?
      {
        assert batch[..k + 1] == batch[..k] + [batch[k]];
        assert batch[k] !in batch[..k];
        var ok := PublishOne(batch[k], p.outcome(batch[k]));
        if !ok {
          failed := true;
        }
      }
      assert batch[..|batch|] == batch;
    }

    method OnTick(p: Pass)
      modifies this
      ensures rows == Drained(old(rows), limit, p)
      ensures muted <==> PassFails(old(rows), limit, p)
    {
      muted := Drain(p);
    }

    /** A wake while muted is swallowed. */
    method OnWake(p: Pass)
      modifies this
      ensures rows == if old(muted) then old(rows) else Drained(old(rows), limit, p)
      ensures muted <==> old(muted) || PassFails(old(rows), limit, p)
    {
      if muted {
        return;
      }
      muted := Drain(p);
    }
  }

  // ---- runs ----

  datatype State = State(rows: seq<Row>, muted: bool)

  datatype Event = Enqueue | Tick(pass: Pass) | Wake(pass: Pass) | Purge(ids: set<nat>)

  /** Housekeeping deletes only delivered and dead-lettered rows. */
  function Purged(rows: seq<Row>, ids: set<nat>): (r: seq<Row>)
    ensures |r| == |rows|
  {
    seq(|rows|, i requires 0 <= i < |rows| =>
      if i in ids && (rows[i].sent || Exhausted(rows[i])) then rows[i].(purged := true) else rows[i])
  }

  function Next(limit: nat, s: State, e: Event): State {
    match e
    case Enqueue => s.(rows := s.rows + [FRESH])
    case Tick(p) => State(Drained(s.rows, limit, p), PassFails(s.rows, limit, p))
    case Wake(p) => if s.muted then s else State(Drained(s.rows, limit, p), PassFails(s.rows, limit, p))
    case Purge(ids) => s.(rows := Purged(s.rows, ids))
  }

  function Run(limit: nat, s: State, es: seq<Event>): State {
    if es == [] then s else Next(limit, Run(limit, s, es[..|es| - 1]), es[|es| - 1])
  }

  /** Whether this event is a drain in which some publish failed. */
  predicate FailingDrain(limit: nat, s: State, e: Event) {
    match e
    case Tick(p) => PassFails(s.rows, limit, p)
    case Wake(p) => !s.muted && PassFails(s.rows, limit, p)
    case _ => false
  }

  function Ticks(es: seq<Event>): nat {
    if es == [] then 0 else Ticks(es[..|es| - 1]) + if es[|es| - 1].Tick? then 1 else 0
  }

  function FailingDrains(limit: nat, s: State, es: seq<Event>): nat {
    if es == [] then 0
    else
      var n := |es| - 1;
      FailingDrains(limit, s, es[..n]) + if FailingDrain(limit, Run(limit, s, es[..n]), es[n]) then 1 else 0
  }

  // ---- the retry budget ----

  /** Every failing drain leaves the drainer muted, and only a tick can pay for the next one. */
  lemma {:induction false} FailingDrainsBounded(limit: nat, s: State, es: seq<Event>)
    ensures FailingDrains(limit, s, es) + (if s.muted then 1 else 0)
         <= Ticks(es) + if Run(limit, s, es).muted then 1 else 0
  {
    if es != [] {
      FailingDrainsBounded(limit, s, es[..|es| - 1]);
    }
  }

  /** From one tick until just before the next there is at most one failing drain. */
  lemma OneFailingDrainPerTick(limit: nat, s: State, tick: Event, es: seq<Event>)
    requires tick.Tick? && Ticks(es) == 0
    ensures FailingDrains(limit, s, [tick] + es) <= 1
  {
    var t := Next(limit, s, tick);
    FirstThenRest(limit, s, tick, es);
    FailingDrainsBounded(limit, t, es);
  }

  lemma {:induction false} FirstThenRest(limit: nat, s: State, e: Event, es: seq<Event>)
    ensures Run(limit, s, [e] + es) == Run(limit, Next(limit, s, e), es)
    ensures FailingDrains(limit, s, [e] + es)
         == (if FailingDrain(limit, s, e) then 1 else 0) + FailingDrains(limit, Next(limit, s, e), es)
  {
    if es == [] {
      assert [e] + es == [e] && [e][..0] == [];
      assert Run(limit, s, []) == s && FailingDrains(limit, s, []) == 0;
    } else {
      var n := |es| - 1;
      assert ([e] + es)[..n + 1] == [e] + es[..n];
      FirstThenRest(limit, s, e, es[..n]);
    }
  }

  ghost predicate NeverPanics(es: seq<Event>, i: nat) {
    forall e | e in es && (e.Tick? || e.Wake?) :: !e.pass.outcome(i).Panicked?
  }

  lemma OneDrainOneRetry(limit: nat, s: State, e: Event, i: nat)
    requires i < |s.rows| && (e.Tick? || e.Wake? ==> !e.pass.outcome(i).Panicked?)
    ensures i < |Next(limit, s, e).rows|
    ensures Next(limit, s, e).rows[i].retries <= s.rows[i].retries + if FailingDrain(limit, s, e) then 1 else 0
  {
  }

  lemma {:induction false} RetriesCountFailingDrains(limit: nat, s: State, es: seq<Event>, i: nat)
    requires i < |s.rows| && NeverPanics(es, i)
    ensures i < |Run(limit, s, es).rows|
    ensures Run(limit, s, es).rows[i].retries <= s.rows[i].retries + FailingDrains(limit, s, es)
  {
    if es != [] {
      var n := |es| - 1;
      assert es[n] in es;
      RetriesCountFailingDrains(limit, s, es[..n], i);
      OneDrainOneRetry(limit, Run(limit, s, es[..n]), es[n], i);
    }
  }

  /** A message that never panics gains at most one retry more than there are ticks after its enqueue, so it
      cannot be dead-lettered before all but one of its retries' worth of ticks have passed. */
  lemma RetryBudget(limit: nat, s: State, es: seq<Event>)
    requires NeverPanics(es, |s.rows|)
    ensures
      var t := Run(limit, Next(limit, s, Enqueue), es);
      && |s.rows| < |t.rows|
      && t.rows[|s.rows|].retries <= Ticks(es) + 1
      && (Exhausted(t.rows[|s.rows|]) ==> Ticks(es) >= MAX_RETRIES - 1)
  {
    var i := |s.rows|;
    var start := Next(limit, s, Enqueue);
    RetriesCountFailingDrains(limit, start, es, i);
    FailingDrainsBounded(limit, start, es);
  }

  // ---- what a failure costs, exactly ----

  /** The event is a drain that lists row `i` and whose publish of it comes out as `o`. */
  ghost predicate Meets(limit: nat, s: State, e: Event, i: nat, o: Outcome) {
    && (e.Tick? || (e.Wake? && !s.muted))
    && e.pass.connected && e.pass.listed && i in Batch(s.rows, limit) && e.pass.outcome(i) == o
  }

  /** A counted failure adds one retry, a marked panic leaves the row exhausted, a publish that went through is
      counted and with its ack settles the row, and nothing else a drain does changes a row. */
  lemma DrainRow(limit: nat, s: State, e: Event, i: nat)
    requires i < |s.rows| && (e.Tick? || e.Wake?)
    ensures
      var was, t := s.rows[i], Next(limit, s, e);
      && i < |t.rows|
      && (Meets(limit, s, e, i, Failed(true)) ==> t.rows[i] == was.(retries := was.retries + 1))
      && (Meets(limit, s, e, i, Panicked(true)) ==>
            t.rows[i] == was.(retries := t.rows[i].retries) && Exhausted(t.rows[i]))
      && (Meets(limit, s, e, i, Delivered(true)) ==> t.rows[i] == was.(sent := true, published := was.published + 1))
      && (Meets(limit, s, e, i, Delivered(false)) ==> t.rows[i] == was.(published := was.published + 1))
      && (!Meets(limit, s, e, i, Failed(true)) && !Meets(limit, s, e, i, Panicked(true))
          && !Meets(limit, s, e, i, Delivered(true)) && !Meets(limit, s, e, i, Delivered(false)) ==>
            t.rows[i] == was)
  {
    BatchIsPending(s.rows, limit, i);
  }

  lemma BatchIsPending(rows: seq<Row>, limit: nat, i: nat)
    ensures i in Batch(rows, limit) ==> i < |rows| && Pending(rows[i])
  {
    var batch := Batch(rows, limit);
    if i in batch {
      var k :| 0 <= k < |batch| && batch[k] == i;
      assert PendingIds(rows)[k] == i;
    }
  }

  /** Housekeeping marks exactly the named rows that are sent or dead-lettered, and changes nothing else. */
  lemma PurgeTakesSettled(limit: nat, s: State, ids: set<nat>)
    ensures
      var t := Next(limit, s, Purge(ids));
      && |t.rows| == |s.rows| && t.muted == s.muted
      && forall i | 0 <= i < |s.rows| ::
           var was, now := s.rows[i], t.rows[i];
           && now.retries == was.retries && now.sent == was.sent && now.published == was.published
           && (now.purged <==> was.purged || (i in ids && (was.sent || was.retries >= 10)))
  {
  }

  /** How many drains of the run listed row `i` and failed it with the failure counted. */
  ghost function CountedFailures(limit: nat, s: State, es: seq<Event>, i: nat): nat {
    if es == [] then 0
    else
      var n := |es| - 1;
      CountedFailures(limit, s, es[..n], i)
      + if Meets(limit, Run(limit, s, es[..n]), es[n], i, Failed(true)) then 1 else 0
  }

  ghost predicate NoMarkedPanic(es: seq<Event>, i: nat) {
    forall e | e in es && (e.Tick? || e.Wake?) :: e.pass.outcome(i) != Panicked(true)
  }

  lemma NextRetries(limit: nat, s: State, e: Event, i: nat)
    requires i < |s.rows| && (e.Tick? || e.Wake? ==> e.pass.outcome(i) != Panicked(true))
    ensures
      var t, c := Next(limit, s, e), Meets(limit, s, e, i, Failed(true));
      && i < |t.rows| && t.rows[i].retries == s.rows[i].retries + (if c then 1 else 0)
      && (c ==> Pending(s.rows[i]) && !t.rows[i].sent)
      && (Exhausted(s.rows[i]) ==> Exhausted(t.rows[i]))
  {
    BatchIsPending(s.rows, limit, i);
    if e.Tick? || e.Wake? {
      DrainRow(limit, s, e, i);
    }
  }

  /** The retries of a message are exactly its counted failures, and a fresh one is dead-lettered after exactly
      MAX_RETRIES of them and not sooner; there are never more. */
  lemma {:induction false} RetriesAreCountedFailures(limit: nat, s: State, es: seq<Event>, i: nat)
    requires i < |s.rows| && NoMarkedPanic(es, i)
    ensures
      var t, c := Run(limit, s, es), CountedFailures(limit, s, es, i);
      && i < |t.rows| && t.rows[i].retries == s.rows[i].retries + c
      && (s.rows[i] == FRESH ==> c <= 10 && (Exhausted(t.rows[i]) <==> c == 10))
  {
    if es != [] {
      var n := |es| - 1;
      assert es[n] in es;
      RetriesAreCountedFailures(limit, s, es[..n], i);
      NextRetries(limit, Run(limit, s, es[..n]), es[n], i);
    }
  }

  /** A publisher that fails and counts every time: a fresh message at the head of the queue is dead-lettered by
      the tenth such tick, and by no earlier one. */
  lemma {:induction false} TenFailingTicks(limit: nat, s: State, passes: seq<Pass>)
    requires limit >= 1 && s.rows != [] && s.rows[0] == FRESH
    requires forall p | p in passes :: p.connected && p.listed && p.outcome(0) == Failed(true)
    ensures
      var t := Run(limit, s, seq(|passes|, k requires 0 <= k < |passes| => Tick(passes[k])));
      && t.rows != [] && t.rows[0] == FRESH.(retries := if |passes| < 10 then |passes| else 10)
      && (Exhausted(t.rows[0]) <==> |passes| >= 10)
  {
    if passes != [] {
      var n := |passes| - 1;
      var es := seq(|passes|, k requires 0 <= k < |passes| => Tick(passes[k]));
      assert es[..n] == seq(n, k requires 0 <= k < n => Tick(passes[..n][k]));
      TenFailingTicks(limit, s, passes[..n]);
      var u := Run(limit, s, es[..n]);
      assert passes[n] in passes;
      HeadIsListed(limit, u.rows);
      DrainRow(limit, u, Tick(passes[n]), 0);
      BatchIsPending(u.rows, limit, 0);
    }
  }

  lemma HeadIsListed(limit: nat, rows: seq<Row>)
    requires limit >= 1 && rows != []
    ensures Pending(rows[0]) ==> 0 in Batch(rows, limit)
  {
    if Pending(rows[0]) {
      var k := PendingIsListed(rows, 0);
      BatchIsBelowCut(rows, limit, 0, k);
    }
  }

  // ---- conservation ----

  /** A row is acked only after a publish went through, and housekeeping took only settled rows. */
  ghost predicate RowSound(r: Row) {
    (r.sent ==> r.published >= 1) && (r.purged ==> r.sent || Exhausted(r))
  }

  ghost predicate Sound(s: State) {
    forall i | 0 <= i < |s.rows| :: RowSound(s.rows[i])
  }

  lemma PublishedIsSound(r: Row, o: Outcome)
    requires RowSound(r) && Pending(r)
    ensures RowSound(Published(r, o))
  {
  }

  lemma DrainKeepsSound(rows: seq<Row>, limit: nat, p: Pass, i: nat)
    requires i < |rows| && RowSound(rows[i])
    ensures RowSound(Drained(rows, limit, p)[i])
  {
    var batch := Batch(rows, limit);
    if i in batch {
      var k :| 0 <= k < |batch| && batch[k] == i;
      assert PendingIds(rows)[k] == i;
      hide Batch, PendingIds;
      PublishedIsSound(rows[i], p.outcome(i));
    }
  }

  lemma NextKeepsSound(limit: nat, s: State, e: Event)
    requires Sound(s)
    ensures Sound(Next(limit, s, e)) && |s.rows| <= |Next(limit, s, e).rows|
  {
    hide Drained;
    forall i | 0 <= i < |s.rows|
      ensures RowSound(Next(limit, s, e).rows[i])
    {
      assert RowSound(s.rows[i]);
      if e.Tick? || e.Wake? {
        DrainKeepsSound(s.rows, limit, e.pass, i);
      }
    }
  }

  ghost predicate ExactlyOne(a: bool, b: bool, c: bool) {
    (a || b || c) && !(a && b) && !(a && c) && !(b && c)
  }

  /** No message is ever lost: in every reachable state each message that was not purged is exactly one of
      pending, acked after at least one successful publish, or exhausted; and only settled messages are
      purged. */
  lemma {:induction false} MessagesConserved(limit: nat, es: seq<Event>, i: nat)
    requires i < |Run(limit, State([], false), es).rows|
    ensures
      var r := Run(limit, State([], false), es).rows[i];
      && (!r.purged ==> ExactlyOne(Pending(r), r.sent && r.published >= 1, Exhausted(r)))
      && (r.purged ==> r.sent || Exhausted(r))
  {
    ReachableIsSound(limit, es);
    assert RowSound(Run(limit, State([], false), es).rows[i]);
  }

  lemma {:induction false} ReachableIsSound(limit: nat, es: seq<Event>)
    ensures Sound(Run(limit, State([], false), es))
  {
    if es != [] {
      var n := |es| - 1;
      ReachableIsSound(limit, es[..n]);
      NextKeepsSound(limit, Run(limit, State([], false), es[..n]), es[n]);
    }
  }

  // ---- a healthy publisher empties the outbox ----

  ghost predicate Healthy(p: Pass) {
    Runs(p) && forall i :: p.outcome(i) == Delivered(true)
  }

  /** Marking every pending row below `cut` as sent leaves the pending ids from `cut` on. */
  lemma {:induction false} PendingAfterCut(rows: seq<Row>, after: seq<Row>, cut: nat, m: nat)
    requires |rows| == |after|
    requires forall i | 0 <= i < |rows| :: Pending(after[i]) <==> Pending(rows[i]) && i >= cut
    requires m <= |PendingIds(rows)|
    requires forall k | 0 <= k < |PendingIds(rows)| :: k < m <==> PendingIds(rows)[k] < cut
    ensures PendingIds(after) == PendingIds(rows)[m..]
  {
    if rows != [] {
      var n := |rows| - 1;
      var front := PendingIds(rows[..n]);
      var ids := PendingIds(rows);
      assert forall k | 0 <= k < |front| :: ids[k] == front[k];
      var m' := if m <= |front| then m else |front|;
      PendingAfterCut(rows[..n], after[..n], cut, m');
      if Pending(rows[n]) {
        assert ids[|front|] == n;
        assert m <= |front| <==> n >= cut;
      }
    }
  }

  /** After a healthy pass a row is pending if it was and did not make the batch. */
  lemma HealthyRow(rows: seq<Row>, limit: nat, p: Pass, i: nat)
    requires Healthy(p) && i < |rows|
    ensures
      var ids := PendingIds(rows);
      var cut := if |ids| <= limit then |rows| else ids[limit];
      Pending(Drained(rows, limit, p)[i]) <==> Pending(rows[i]) && i >= cut
  {
    assert p.outcome(i) == Delivered(true);
    if Pending(rows[i]) {
      var k := PendingIsListed(rows, i);
      BatchIsBelowCut(rows, limit, i, k);
      hide PendingIds, Batch;
    } else {
      hide PendingIds, Batch;
    }
  }

  lemma HealthyDrain(rows: seq<Row>, limit: nat, p: Pass)
    requires Healthy(p)
    ensures
      var ids := PendingIds(rows);
      PendingIds(Drained(rows, limit, p)) == if |ids| <= limit then [] else ids[limit..]
  {
    hide PendingIds, Drained, Healthy;
    var ids := PendingIds(rows);
    var m := if |ids| <= limit then |ids| else limit;
    var cut := if |ids| <= limit then |rows| else ids[limit];
    forall i | 0 <= i < |rows|
      ensures Pending(Drained(rows, limit, p)[i]) <==> Pending(rows[i]) && i >= cut
    {
      HealthyRow(rows, limit, p, i);
    }
    PendingAfterCut(rows, Drained(rows, limit, p), cut, m);
  }

  lemma {:induction false} PendingIsListed(rows: seq<Row>, i: nat) returns (k: nat)
    requires i < |rows| && Pending(rows[i])
    ensures k < |PendingIds(rows)| && PendingIds(rows)[k] == i
  {
    var n := |rows| - 1;
    if i == n {
      k := |PendingIds(rows)| - 1;
    } else {
      k := PendingIsListed(rows[..n], i);
    }
  }

  lemma BatchIsBelowCut(rows: seq<Row>, limit: nat, i: nat, k: nat)
    requires k < |PendingIds(rows)| && PendingIds(rows)[k] == i
    ensures i in Batch(rows, limit) <==> k < limit
  {
    var batch := Batch(rows, limit);
    if k < limit {
      assert batch[k] == i;
    }
    if i in batch {
      var j :| 0 <= j < |batch| && batch[j] == i;
      assert PendingIds(rows)[j] == i;
    }
  }

  ghost function HealthyRun(rows: seq<Row>, limit: nat, passes: seq<Pass>): seq<Row> {
    if passes == [] then rows
    else Drained(HealthyRun(rows, limit, passes[..|passes| - 1]), limit, passes[|passes| - 1])
  }

  function Rest(ids: seq<nat>, done: nat): seq<nat> {
    if |ids| <= done then [] else ids[done..]
  }

  lemma {:induction false} HealthyRunDrops(rows: seq<Row>, limit: nat, passes: seq<Pass>)
    requires forall p | p in passes :: Healthy(p)
    ensures PendingIds(HealthyRun(rows, limit, passes)) == Rest(PendingIds(rows), limit * |passes|)
  {
    hide PendingIds, Drained, Healthy;
    if passes != [] {
      var n := |passes| - 1;
      var ids := PendingIds(rows);
      assert passes[n] in passes;
      HealthyRunDrops(rows, limit, passes[..n]);
      HealthyDrain(HealthyRun(rows, limit, passes[..n]), limit, passes[n]);
      assert limit * |passes| == limit * n + limit;
      RestOfRest(ids, limit * n, limit);
    } else {
      assert PendingIds(rows)[0..] == PendingIds(rows);
    }
  }

  lemma RestOfRest(ids: seq<nat>, a: nat, b: nat)
    ensures Rest(Rest(ids, a), b) == Rest(ids, a + b)
  {
  }

  /** With a healthy publisher, n pending messages are all off the queue after ceil(n / limit) drains, and
      not all of them sooner. */
  lemma HealthyDrainsSuffice(rows: seq<Row>, limit: nat, passes: seq<Pass>)
    requires limit >= 1 && forall p | p in passes :: Healthy(p)
    ensures PendingIds(HealthyRun(rows, limit, passes)) == []
      <==> |passes| >= DrainsFor(|PendingIds(rows)|, limit)
  {
    hide PendingIds, HealthyRun, DrainsFor;
    HealthyRunDrops(rows, limit, passes);
    var n, done := |PendingIds(rows)|, limit * |passes|;
    CeilIff(n, limit, |passes|);
    assert Rest(PendingIds(rows), done) == [] <==> n <= done;
  }

  /** n / limit, rounded up. */
  function DrainsFor(n: nat, limit: nat): nat
    requires limit >= 1
  {
    (n + limit - 1) / limit
  }

  lemma CeilIff(n: nat, limit: nat, k: nat)
    requires limit >= 1
    ensures n <= limit * k <==> k >= DrainsFor(n, limit)
  {
    var c := DrainsFor(n, limit);
    assert limit * c <= n + limit - 1 < limit * c + limit;
    if k >= c {
      assert limit * k >= limit * c;
    } else {
      assert limit * (k + 1) <= limit * c;
    }
  }

  lemma {:induction false} HealthyRunOnlyAcks(rows: seq<Row>, limit: nat, passes: seq<Pass>, i: nat)
    requires i < |rows| && forall p | p in passes :: Healthy(p)
    ensures
      var after := HealthyRun(rows, limit, passes);
      |after| == |rows| && (after[i] == rows[i] || (after[i].sent && after[i].published >= 1))
  {
    if passes != [] {
      var n := |passes| - 1;
      assert passes[n] in passes;
      HealthyRunOnlyAcks(rows, limit, passes[..n], i);
      assert passes[n].outcome(i) == Delivered(true);
    }
  }

  /** By then each of them has been published and acked. */
  lemma HealthyDrainsAckAll(rows: seq<Row>, limit: nat, passes: seq<Pass>, i: nat)
    requires limit >= 1 && forall p | p in passes :: Healthy(p)
    requires |passes| >= DrainsFor(|PendingIds(rows)|, limit) && i < |rows| && Pending(rows[i])
    ensures
      var after := HealthyRun(rows, limit, passes);
      |after| == |rows| && after[i].sent && after[i].published >= 1
  {
    HealthyDrainsSuffice(rows, limit, passes);
    HealthyRunOnlyAcks(rows, limit, passes, i);
    var after := HealthyRun(rows, limit, passes);
    hide HealthyRun, DrainsFor;
    if after[i] == rows[i] {
      var k := PendingIsListed(after, i);
      assert false;
    }
  }
}
