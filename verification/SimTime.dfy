/** The simulated clock and the message deadlines stamped with it. Times, durations and speeds are exact
    reals; the zero time of the source is `None`. */
module SimTime {
  import opened Options

  /** `speed` is the rate in force, `requested` the one asked for, `maxSpeed` the cap (none if not
      positive). */
  datatype Clock = Clock(
    epoch: real, start: real, speed: real, requested: real, maxSpeed: real, clampToWall: bool)

  ghost predicate Valid(c: Clock) {
    c.speed > 0.0 && c.requested > 0.0
  }

  function Max(a: real, b: real): real {
    if a < b then b else a
  }

  function Capped(speed: real, maxSpeed: real): real {
    if maxSpeed > 0.0 && speed > maxSpeed then maxSpeed else speed
  }

  function OrOne(speed: real): real {
    if speed <= 0.0 then 1.0 else speed
  }

  /** What a stretch of wall time amounts to at a rate. */
  function At(rate: real, span: real): real {
    span * rate
  }

  /** Simulated time before the clamp. */
  function Raw(c: Clock, wall: real): real {
    c.epoch + At(c.speed, wall - c.start)
  }

  /** A fast-forward clock that has reached the present. */
  predicate CaughtUp(c: Clock, wall: real) {
    c.clampToWall && Raw(c, wall) > wall
  }

  function Now(c: Clock, wall: real): real {
    if CaughtUp(c, wall) then wall else Raw(c, wall)
  }

  function EffectiveNowRate(c: Clock, wall: real): real {
    if CaughtUp(c, wall) then 1.0 else c.speed
  }

  /** Re-anchoring reads the wall twice: once for simulated now, once for the new start. */
  function Reanchored(c: Clock, w1: real, w2: real, requested: real, maxSpeed: real): Clock {
    var now := Now(c, w1);
    Clock(
      if c.clampToWall && now > w2 then w2 else now,
      w2, Capped(requested, maxSpeed), requested, maxSpeed, c.clampToWall)
  }

  function WithSpeed(c: Clock, speed: real, w1: real, w2: real): Clock {
    Reanchored(c, w1, w2, OrOne(speed), c.maxSpeed)
  }

  function WithMaxSpeed(c: Clock, max: real, w1: real, w2: real): Clock {
    Reanchored(c, w1, w2, c.requested, max)
  }

  // ---- building ----

  const DEFAULT_MAX_SPEED := 15.0

  datatype Mode = Running | SyncedFastForward | UnsyncedFastForward | SyncedRunning

  /** `w` are the wall readings taken while building, in order: construction, then the re-anchor's two. */
  datatype Readings = Readings(built: real, first: real, second: real)

  function RunningClock(speed: real, maxSpeed: real, w: Readings): Clock {
    WithMaxSpeed(Clock(w.built, w.built, OrOne(speed), OrOne(speed), 0.0, false), maxSpeed, w.first, w.second)
  }

  function Anchored(epoch: real, anchor: real, speed: real, maxSpeed: real, clamp: bool): Clock {
    Clock(epoch, anchor, Capped(OrOne(speed), maxSpeed), OrOne(speed), maxSpeed, clamp)
  }

  function Build(epoch: Option<real>, anchor: Option<real>, speed: real, maxSpeed: real, w: Readings): (Clock, Mode) {
    var cap := if maxSpeed <= 0.0 then DEFAULT_MAX_SPEED else maxSpeed;
    if epoch.None? then (RunningClock(speed, cap, w), Running)
    else
      var at := if anchor.None? then w.built else anchor.value;
      if epoch.value >= at then
        if anchor.None? then (RunningClock(speed, cap, w), Running)
        else (Anchored(epoch.value, at, speed, cap, false), SyncedRunning)
      else if anchor.Some? then (Anchored(epoch.value, at, speed, cap, true), SyncedFastForward)
      else
        (WithMaxSpeed(Clock(epoch.value, w.built, OrOne(speed), OrOne(speed), 0.0, true), cap, w.first, w.second),
         UnsyncedFastForward)
  }

  /** The clock object; its methods take the wall readings their calls would make. */
  class SimClock {
    var epoch: real
    var start: real
    var speed: real
    var requested: real
    var maxSpeed: real
    const clampToWall: bool

    constructor (c: Clock)
      ensures Contents() == c
    {
      epoch, start, speed := c.epoch, c.start, c.speed;
      requested, maxSpeed, clampToWall := c.requested, c.maxSpeed, c.clampToWall;
    }

    function Contents(): Clock
      reads this
    {
      Clock(epoch, start, speed, requested, maxSpeed, clampToWall)
    }

    method ReadNow(wall: real) returns (now: real)
      ensures now == Now(Contents(), wall)
    {
      now := epoch + (wall - start) * speed;
      if clampToWall && now > wall {
        now := wall;
      }
    }

    method SetSpeed(s: real, w1: real, w2: real)
      modifies this
      ensures Contents() == WithSpeed(old(Contents()), s, w1, w2)
    {
      requested := OrOne(s);
      var now := ReadNow(w1);
      if clampToWall && now > w2 {
        now := w2;
      }
      epoch, start, speed := now, w2, Capped(requested, maxSpeed);
    }

    method SetMaxSpeed(max: real, w1: real, w2: real)
      modifies this
      ensures Contents() == WithMaxSpeed(old(Contents()), max, w1, w2)
    {
      maxSpeed := max;
      var now := ReadNow(w1);
      if clampToWall && now > w2 {
        now := w2;
      }
      epoch, start, speed := now, w2, Capped(requested, maxSpeed);
    }
  }

  // ---- one clock, two instants ----

  lemma FasterIsMore(a: real, b: real, span: real)
    requires a <= b && span >= 0.0
    ensures At(a, span) <= At(b, span)
  {
    assert span * (b - a) >= 0.0;
  }

  lemma LongerIsMore(rate: real, a: real, b: real)
    requires a <= b && rate >= 0.0
    ensures At(rate, a) <= At(rate, b)
  {
    assert (b - a) * rate >= 0.0;
  }

  lemma Stretches(rate: real, a: real, b: real)
    ensures At(rate, a + b) == At(rate, a) + At(rate, b)
  {
  }

  lemma RawGrowth(c: Clock, w: real, v: real)
    ensures Raw(c, v) - Raw(c, w) == At(c.speed, v - w)
  {
    Stretches(c.speed, w - c.start, v - w);
    assert w - c.start + (v - w) == v - c.start;
  }

  lemma AtOne(span: real)
    ensures At(1.0, span) == span
  {
  }

  lemma AtZero(rate: real)
    ensures At(rate, 0.0) == 0.0
  {
  }

  /** Time never runs backwards, a clamping clock never passes the wall, and between two instants time grows
      by at most max(speed, 1) times the wall's growth, through the clamp and out of it. */
  lemma NowIsMonotoneAndLipschitz(c: Clock, w: real, v: real)
    requires Valid(c) && w <= v
    ensures Now(c, w) <= Now(c, v)
    ensures Now(c, v) - Now(c, w) <= At(Max(c.speed, 1.0), v - w)
    ensures c.clampToWall ==> Now(c, w) <= w
  {
    RawGrowth(c, w, v);
    LongerIsMore(c.speed, 0.0, v - w);
    AtZero(c.speed);
    FasterIsMore(c.speed, Max(c.speed, 1.0), v - w);
    FasterIsMore(1.0, Max(c.speed, 1.0), v - w);
    AtOne(v - w);
    hide At;
  }

  /** The effective rate is the true slope between any two instants with the same clamp status. */
  lemma RateIsSlope(c: Clock, w: real, v: real)
    requires CaughtUp(c, w) == CaughtUp(c, v)
    ensures Now(c, v) - Now(c, w) == EffectiveNowRate(c, w) * (v - w)
  {
    RawGrowth(c, w, v);
  }

  /** Changing speed or cap does not move simulated time: at the new start it is what it was when read. */
  lemma ReanchorDoesNotJump(c: Clock, w1: real, w2: real, requested: real, maxSpeed: real)
    requires Valid(c) && w1 <= w2 && requested > 0.0
    ensures
      var d := Reanchored(c, w1, w2, requested, maxSpeed);
      Valid(d) && Now(d, w2) == Now(c, w1) && d.clampToWall == c.clampToWall
  {
    NowIsMonotoneAndLipschitz(c, w1, w2);
  }

  /** Two clocks built from the same non-zero epoch and anchor agree at every instant, whenever each was
      built; the others depend on when they were built. */
  lemma SyncedBuildsAgree(
    epoch: real, anchor: real, speed: real, maxSpeed: real, w: Readings, v: Readings, wall: real)
    ensures
      var a := Build(Some(epoch), Some(anchor), speed, maxSpeed, w);
      var b := Build(Some(epoch), Some(anchor), speed, maxSpeed, v);
      && Now(a.0, wall) == Now(b.0, wall) && Valid(a.0)
      && (a.1.SyncedRunning? <==> epoch >= anchor) && (a.1.SyncedFastForward? <==> epoch < anchor)
      && (a.0.clampToWall <==> epoch < anchor)
  {
  }

  // ---- runs ----

  datatype State = State(clock: Clock, wall: real)

  /** The wall advances, or somebody changes speed or cap; `gap` is how far the wall moves between the two
      readings of a change. */
  datatype Event = Advance(span: real) | SetSpeed(speed: real, gap: real) | SetMaxSpeed(max: real, gap: real)

  ghost predicate Forward(es: seq<Event>) {
    forall e | e in es :: if e.Advance? then e.span >= 0.0 else e.gap >= 0.0
  }

  function Next(s: State, e: Event): State {
    match e
    case Advance(span) => s.(wall := s.wall + span)
    case SetSpeed(speed, gap) => State(WithSpeed(s.clock, speed, s.wall, s.wall + gap), s.wall + gap)
    case SetMaxSpeed(max, gap) => State(WithMaxSpeed(s.clock, max, s.wall, s.wall + gap), s.wall + gap)
  }

  function Run(s: State, es: seq<Event>): State {
    if es == [] then s else Next(Run(s, es[..|es| - 1]), es[|es| - 1])
  }

  function SimNow(s: State): real {
    Now(s.clock, s.wall)
  }

  /** Wall time spent, each stretch weighted by the speed in force; `floor` is the least weight. */
  function Weighted(s: State, es: seq<Event>, floor: real): real {
    if es == [] then 0.0
    else
      var n := |es| - 1;
      Weighted(s, es[..n], floor)
      + if es[n].Advance? then At(Max(Run(s, es[..n]).clock.speed, floor), es[n].span) else 0.0
  }

  lemma NextGrowth(s: State, e: Event)
    requires Valid(s.clock) && Forward([e])
    ensures
      var t := Next(s, e);
      && Valid(t.clock) && t.clock.clampToWall == s.clock.clampToWall && s.wall <= t.wall
      && SimNow(s) <= SimNow(t)
      && (if e.Advance? then SimNow(t) <= SimNow(s) + At(Max(s.clock.speed, 1.0), e.span) else SimNow(t) == SimNow(s))
      && (!s.clock.clampToWall && e.Advance? ==> SimNow(t) == SimNow(s) + At(s.clock.speed, e.span))
      && (s.clock.clampToWall ==> SimNow(t) <= t.wall)
  {
    hide At;
    assert e in [e];
    match e
    case Advance(span) =>
      NowIsMonotoneAndLipschitz(s.clock, s.wall, s.wall + span);
      NowIsMonotoneAndLipschitz(s.clock, s.wall + span, s.wall + span);
      RawGrowth(s.clock, s.wall, s.wall + span);
    case SetSpeed(speed, gap) =>
      ReanchorDoesNotJump(s.clock, s.wall, s.wall + gap, OrOne(speed), s.clock.maxSpeed);
      NowIsMonotoneAndLipschitz(Next(s, e).clock, s.wall + gap, s.wall + gap);
    case SetMaxSpeed(max, gap) =>
      ReanchorDoesNotJump(s.clock, s.wall, s.wall + gap, s.clock.requested, max);
      NowIsMonotoneAndLipschitz(Next(s, e).clock, s.wall + gap, s.wall + gap);
  }

  /** Over every run of wall advances and speed changes: simulated time is monotone; it grows by at most the
      wall time weighted with max(speed in force, 1), and on a clock that does not clamp by exactly the
      wall time weighted with the speed in force; a clamping clock never passes the wall. */
  lemma {:induction false} RunGrowth(s: State, es: seq<Event>)
    requires Valid(s.clock) && Forward(es) && (s.clock.clampToWall ==> SimNow(s) <= s.wall)
    ensures
      var t := Run(s, es);
      && Valid(t.clock) && t.clock.clampToWall == s.clock.clampToWall && s.wall <= t.wall
      && SimNow(s) <= SimNow(t) <= SimNow(s) + Weighted(s, es, 1.0)
      && (!s.clock.clampToWall ==> SimNow(t) == SimNow(s) + Weighted(s, es, 0.0))
      && (s.clock.clampToWall ==> SimNow(t) <= t.wall)
  {
    if es != [] {
      hide At, Now, Next;
      var n := |es| - 1;
      assert es[n] in es;
      RunGrowth(s, es[..n]);
      NextGrowth(Run(s, es[..n]), es[n]);
    }
  }

  // ---- deadlines ----

  /** With a simulated clock the TTL is stretched by its speed, never shortened. */
  function ScaleTTL(c: Option<Clock>, ttl: real): real {
    if c.None? || c.value.speed <= 1.0 then ttl else ttl * c.value.speed
  }

  /** No deadline for a TTL that is not positive, otherwise now plus the TTL. */
  function ZeroOrDeadline(now: real, ttl: real): Option<real> {
    if ttl <= 0.0 then None else Some(now + ttl)
  }

  function Stamp(s: State, ttl: real): Option<real> {
    ZeroOrDeadline(SimNow(s), ScaleTTL(Some(s.clock), ttl))
  }

  predicate Expired(s: State, deadline: Option<real>) {
    deadline.Some? && SimNow(s) > deadline.value
  }

  function WallSpent(es: seq<Event>): real {
    if es == [] then 0.0
    else
      var e := es[|es| - 1];
      WallSpent(es[..|es| - 1]) + if e.Advance? then e.span else e.gap
  }

  /** No stretch of the run goes faster than the speed the TTL was stretched by. */
  ghost predicate NoFaster(s: State, es: seq<Event>) {
    forall i | 0 <= i < |es| && es[i].Advance? :: Run(s, es[..i]).clock.speed <= Max(s.clock.speed, 1.0)
  }

  lemma {:induction false} WeightedAtMost(s: State, es: seq<Event>)
    requires Forward(es) && NoFaster(s, es)
    ensures Weighted(s, es, 1.0) <= At(Max(s.clock.speed, 1.0), WallSpent(es))
  {
    var m := Max(s.clock.speed, 1.0);
    if es == [] {
      AtZero(m);
    } else {
      hide At, Run;
      var n := |es| - 1;
      var span := if es[n].Advance? then es[n].span else es[n].gap;
      assert es[n] in es;
      PrefixNoFaster(s, es);
      WeightedAtMost(s, es[..n]);
      Stretches(m, WallSpent(es[..n]), span);
      LongerIsMore(m, 0.0, span);
      AtZero(m);
      if es[n].Advance? {
        assert Run(s, es[..n]).clock.speed <= m;
        FasterIsMore(Max(Run(s, es[..n]).clock.speed, 1.0), m, span);
      }
    }
  }

  lemma PrefixNoFaster(s: State, es: seq<Event>)
    requires es != [] && NoFaster(s, es)
    ensures NoFaster(s, es[..|es| - 1])
  {
    var n := |es| - 1;
    forall i | 0 <= i < n && es[..n][i].Advance?
      ensures Run(s, es[..n][..i]).clock.speed <= Max(s.clock.speed, 1.0)
    {
      assert es[..n][..i] == es[..i];
    }
  }

  /** A message stamped with TTL `ttl` is not expired while no more than `ttl` of wall time has passed, on any
      clock and through the clamp, as long as the clock is not sped up after stamping. */
  lemma NotExpiredEarly(s: State, es: seq<Event>, ttl: real)
    requires Valid(s.clock) && Forward(es) && NoFaster(s, es) && WallSpent(es) <= ttl
    ensures !Expired(Run(s, es), Stamp(s, ttl))
  {
    hide At, Run, Now;
    ClampHolds(s);
    RunGrowth(s, es);
    WeightedAtMost(s, es);
    LongerIsMore(Max(s.clock.speed, 1.0), WallSpent(es), ttl);
    StretchedTTL(s.clock, ttl);
  }

  lemma ClampHolds(s: State)
    requires Valid(s.clock)
    ensures s.clock.clampToWall ==> SimNow(s) <= s.wall
  {
    NowIsMonotoneAndLipschitz(s.clock, s.wall, s.wall);
  }

  lemma StretchedTTL(c: Clock, ttl: real)
    ensures ScaleTTL(Some(c), ttl) == At(Max(c.speed, 1.0), ttl)
    ensures ttl > 0.0 ==> ScaleTTL(Some(c), ttl) > 0.0
  {
  }

  /** On a clock that does not clamp, expiry is exactly the speed-weighted wall time passing the stretched
      TTL: this is how raising the speed after stamping eats into the budget. */
  lemma UnclampedExpiryIff(s: State, es: seq<Event>, ttl: real)
    requires Valid(s.clock) && Forward(es) && !s.clock.clampToWall && ttl > 0.0
    ensures Expired(Run(s, es), Stamp(s, ttl)) <==> Weighted(s, es, 0.0) > At(Max(s.clock.speed, 1.0), ttl)
  {
    hide At, Run, Now;
    RunGrowth(s, es);
    StretchedTTL(s.clock, ttl);
  }

  // ---- exact expiry of a clamping clock ----

  function Min(a: real, b: real): real {
    if a < b then a else b
  }

  /** A clamping clock whose epoch lies before its start, read after it: every one that `Build` makes, and every
      one that has been re-anchored. */
  ghost predicate Behind(s: State) {
    s.clock.clampToWall && s.clock.epoch <= s.clock.start <= s.wall
  }

  /** It runs at its speed until it meets the wall, and then with the wall. */
  lemma ClampedAdvance(s: State, span: real)
    requires Valid(s.clock) && Behind(s) && span >= 0.0
    ensures SimNow(Next(s, Advance(span))) == Min(SimNow(s) + At(s.clock.speed, span), s.wall + span)
  {
    var c := s.clock;
    RawGrowth(c, s.wall, s.wall + span);
    if CaughtUp(c, s.wall) {
      CaughtUpIsFast(s);
      FasterIsMore(1.0, c.speed, span);
      AtOne(span);
    }
  }

  lemma CaughtUpIsFast(s: State)
    requires Behind(s) && CaughtUp(s.clock, s.wall)
    ensures s.clock.speed >= 1.0
  {
    var span := s.wall - s.clock.start;
    if s.clock.speed < 1.0 {
      FasterIsMore(s.clock.speed, 1.0, span);
      AtOne(span);
    }
  }

  lemma NextStaysBehind(s: State, e: Event)
    requires Valid(s.clock) && Behind(s) && Forward([e])
    ensures Behind(Next(s, e))
  {
    assert e in [e];
    ClampHolds(s);
  }

  /** The wall time of a run weighted with the speed in force from event `i` on. */
  function WeightedFrom(s: State, es: seq<Event>, i: nat): real
    requires i <= |es|
  {
    Weighted(s, es, 0.0) - Weighted(s, es[..i], 0.0)
  }

  /** From the stamp, and from the wall at every point of the run since, the rest of the run carries simulated
      time past `deadline`. */
  ghost predicate Carried(s: State, es: seq<Event>, deadline: real) {
    && SimNow(s) + Weighted(s, es, 0.0) > deadline
    && forall i | 0 <= i <= |es| :: Run(s, es[..i]).wall + WeightedFrom(s, es, i) > deadline
  }

  lemma CarriedSnoc(s: State, es: seq<Event>, e: Event, gain: real, deadline: real)
    requires gain == Weighted(s, es + [e], 0.0) - Weighted(s, es, 0.0)
    ensures Carried(s, es + [e], deadline) <==> Carried(s, es, deadline - gain) && Run(s, es + [e]).wall > deadline
  {
    var all, n := es + [e], |es|;
    assert all[..n + 1] == all && all[..n] == es;
    forall i | 0 <= i <= n
      ensures all[..i] == es[..i] && WeightedFrom(s, all, i) == WeightedFrom(s, es, i) + gain
    {
    }
    assert WeightedFrom(s, all, n + 1) == 0.0;
    hide Weighted, WeightedFrom, Run;
    if Carried(s, es, deadline - gain) && Run(s, all).wall > deadline {
      forall i | 0 <= i <= n + 1
        ensures Run(s, all[..i]).wall + WeightedFrom(s, all, i) > deadline
      {
        if i <= n {
          assert Run(s, es[..i]).wall + WeightedFrom(s, es, i) > deadline - gain;
        }
      }
    }
    if Carried(s, all, deadline) {
      assert Run(s, all[..n + 1]).wall + WeightedFrom(s, all, n + 1) > deadline;
      forall i | 0 <= i <= n
        ensures Run(s, es[..i]).wall + WeightedFrom(s, es, i) > deadline - gain
      {
        assert Run(s, all[..i]).wall + WeightedFrom(s, all, i) > deadline;
      }
    }
  }

  /** Simulated time of a clamping clock is past a deadline exactly when the run carries it there from the stamp
      and from the wall at every point since: the clamp may have cost it any of these. */
  lemma {:induction false} ClampedPastIff(s: State, es: seq<Event>, deadline: real)
    requires Valid(s.clock) && Behind(s) && Forward(es)
    ensures SimNow(Run(s, es)) > deadline <==> Carried(s, es, deadline)
    ensures Behind(Run(s, es)) && Valid(Run(s, es).clock)
  {
    if es == [] {
      ClampHolds(s);
      assert es[..0] == [];
    } else {
      var n := |es| - 1;
      var e := es[n];
      var front := es[..n];
      assert e in es && front + [e] == es;
      var t := Run(s, front);
      var gain := if e.Advance? then At(Max(t.clock.speed, 0.0), e.span) else 0.0;
      ClampedPastIff(s, front, deadline - gain);
      NextStaysBehind(t, e);
      NextGrowth(t, e);
      ClampHolds(t);
      CarriedSnoc(s, front, e, gain, deadline);
      hide At, Now, Carried, Weighted;
      if e.Advance? {
        ClampedAdvance(t, e.span);
      }
    }
  }

  /** So a message on a clamping clock is expired exactly then. */
  lemma ClampedExpiryIff(s: State, es: seq<Event>, ttl: real)
    requires Valid(s.clock) && Behind(s) && Forward(es) && ttl > 0.0
    ensures Expired(Run(s, es), Stamp(s, ttl)) <==> Carried(s, es, SimNow(s) + At(Max(s.clock.speed, 1.0), ttl))
  {
    hide At, Run, Now, Carried;
    ClampedPastIff(s, es, SimNow(s) + At(Max(s.clock.speed, 1.0), ttl));
    StretchedTTL(s.clock, ttl);
  }

  /** At constant speed: the message's own span must have passed, and the wall must have covered the stretched
      TTL beyond its lead over simulated time when the message was stamped. */
  lemma ClampedConstantSpeed(s: State, span: real, ttl: real)
    requires Valid(s.clock) && Behind(s) && span >= 0.0 && ttl > 0.0
    ensures Expired(Run(s, [Advance(span)]), Stamp(s, ttl)) <==>
      && At(s.clock.speed, span) > At(Max(s.clock.speed, 1.0), ttl)
      && span + (s.wall - SimNow(s)) > At(Max(s.clock.speed, 1.0), ttl)
  {
    assert [Advance(span)][..0] == [] && Run(s, []) == s;
    assert Run(s, [Advance(span)]) == Next(s, Advance(span));
    StretchedTTL(s.clock, ttl);
    hide At, Now;
    ClampedAdvance(s, span);
  }

  // ---- clocks as they are built ----

  ghost predicate InOrder(w: Readings) {
    w.built <= w.first <= w.second
  }

  /** Every clock that `Build` makes is valid, and if it clamps its epoch is not after its start. */
  lemma BuiltClocksAreValid(epoch: Option<real>, anchor: Option<real>, speed: real, maxSpeed: real, w: Readings)
    requires InOrder(w)
    ensures
      var c := Build(epoch, anchor, speed, maxSpeed, w).0;
      Valid(c) && (c.clampToWall ==> c.epoch <= c.start)
  {
    if epoch.Some? && anchor.None? {
      var raw := Clock(epoch.value, w.built, OrOne(speed), OrOne(speed), 0.0, true);
      var cap := if maxSpeed <= 0.0 then DEFAULT_MAX_SPEED else maxSpeed;
      ReanchorDoesNotJump(raw, w.first, w.second, raw.requested, cap);
      NowIsMonotoneAndLipschitz(raw, w.first, w.first);
    }
  }

  /** The rate in force is the smaller of what is asked for (1 if that is not positive) and the cap (none if that
      is not positive), after a change of either; and a change keeps the other. */
  lemma SpeedInForce(c: Clock, speed: real, max: real, w1: real, w2: real)
    ensures
      var asked := if speed <= 0.0 then 1.0 else speed;
      var d := WithSpeed(c, speed, w1, w2);
      && d.requested == asked && d.maxSpeed == c.maxSpeed
      && d.speed == if 0.0 < c.maxSpeed < asked then c.maxSpeed else asked
    ensures
      var d := WithMaxSpeed(c, max, w1, w2);
      && d.requested == c.requested && d.maxSpeed == max
      && d.speed == if 0.0 < max < c.requested then max else c.requested
  {
  }

  /** A clock that has just been given its cap shows what it showed at the first reading. */
  lemma CappedClockShows(epoch: real, built: real, speed: real, clamp: bool, cap: real, w1: real, w2: real)
    requires speed > 0.0 && built <= w1 <= w2 && (clamp ==> epoch <= built)
    ensures
      var d := WithMaxSpeed(Clock(epoch, built, speed, speed, 0.0, clamp), cap, w1, w2);
      var shown := epoch + At(speed, w1 - built);
      && Now(d, w2) == (if clamp && shown > w1 then w1 else shown)
      && d.clampToWall == clamp && d.requested == speed && d.maxSpeed == cap
      && d.speed == if 0.0 < cap < speed then cap else speed
  {
    var c := Clock(epoch, built, speed, speed, 0.0, clamp);
    ReanchorDoesNotJump(c, w1, w2, speed, cap);
    hide At;
  }

  lemma AnchoredClockShows(epoch: real, anchor: real, speed: real, cap: real, clamp: bool)
    requires clamp ==> epoch <= anchor
    ensures
      var c := Anchored(epoch, anchor, speed, cap, clamp);
      var asked := if speed <= 0.0 then 1.0 else speed;
      && Now(c, anchor) == epoch && c.clampToWall == clamp && c.requested == asked && c.maxSpeed == cap
      && c.speed == if 0.0 < cap < asked then cap else asked
  {
    assert At(Anchored(epoch, anchor, speed, cap, clamp).speed, 0.0) == 0.0;
  }

  /** What a configuration builds. With an epoch and an anchor the clock shows the epoch at the anchor; with an
      epoch in the past and no anchor it shows, when built, the epoch and what has passed since the first reading,
      but never more than the wall; and otherwise the wall and what has passed. It clamps exactly in the
      fast-forward modes, and its speed is the smaller of what is asked for and the cap, 15 by default. */
  lemma BuiltClockShows(epoch: Option<real>, anchor: Option<real>, speed: real, maxSpeed: real, w: Readings)
    requires InOrder(w)
    ensures
      var (c, mode) := Build(epoch, anchor, speed, maxSpeed, w);
      var asked := if speed <= 0.0 then 1.0 else speed;
      var cap := if maxSpeed <= 0.0 then 15.0 else maxSpeed;
      var passed := At(asked, w.first - w.built);
      && c.requested == asked && c.maxSpeed == cap && c.speed == (if asked <= cap then asked else cap)
      && (mode.SyncedRunning? <==> epoch.Some? && anchor.Some? && epoch.value >= anchor.value)
      && (mode.SyncedFastForward? <==> epoch.Some? && anchor.Some? && epoch.value < anchor.value)
      && (mode.UnsyncedFastForward? <==> epoch.Some? && anchor.None? && epoch.value < w.built)
      && (c.clampToWall <==> mode.SyncedFastForward? || mode.UnsyncedFastForward?)
      && (mode.SyncedRunning? || mode.SyncedFastForward? ==> Now(c, anchor.value) == epoch.value)
      && (mode.UnsyncedFastForward? ==>
            Now(c, w.second) == if epoch.value + passed <= w.first then epoch.value + passed else w.first)
      && (mode.Running? ==> Now(c, w.second) == w.built + passed)
  {
    hide At, Now, WithMaxSpeed, Anchored;
    var asked, cap := OrOne(speed), if maxSpeed <= 0.0 then DEFAULT_MAX_SPEED else maxSpeed;
    CappedClockShows(w.built, w.built, asked, false, cap, w.first, w.second);
    if epoch.Some? {
      if anchor.Some? {
        AnchoredClockShows(epoch.value, anchor.value, speed, cap, epoch.value < anchor.value);
      } else if epoch.value < w.built {
        CappedClockShows(epoch.value, w.built, asked, true, cap, w.first, w.second);
      }
    }
  }

  /** Deadlines on any clock a configuration builds, read from its start on: a message is not expired within its
      TTL of wall time unless the clock is sped up; and over every run, sped up or not, it is expired
      exactly when the weighted wall time passes the stretched TTL, through the clamp if there is one. */
  lemma BuiltClockDeadlines(
    epoch: Option<real>, anchor: Option<real>, speed: real, maxSpeed: real, w: Readings,
    wall: real, es: seq<Event>, ttl: real)
    requires InOrder(w) && Forward(es) && ttl > 0.0
    requires Build(epoch, anchor, speed, maxSpeed, w).0.start <= wall
    ensures
      var s := State(Build(epoch, anchor, speed, maxSpeed, w).0, wall);
      var stretched := At(Max(s.clock.speed, 1.0), ttl);
      && (NoFaster(s, es) && WallSpent(es) <= ttl ==> !Expired(Run(s, es), Stamp(s, ttl)))
      && (Expired(Run(s, es), Stamp(s, ttl)) <==>
            if s.clock.clampToWall then Carried(s, es, SimNow(s) + stretched) else Weighted(s, es, 0.0) > stretched)
  {
    var s := State(Build(epoch, anchor, speed, maxSpeed, w).0, wall);
    BuiltClocksAreValid(epoch, anchor, speed, maxSpeed, w);
    hide Build, Run, At, Carried, Weighted, Stamp;
    if NoFaster(s, es) && WallSpent(es) <= ttl {
      NotExpiredEarly(s, es, ttl);
    }
    if s.clock.clampToWall {
      ClampedExpiryIff(s, es, ttl);
    } else {
      UnclampedExpiryIff(s, es, ttl);
    }
  }

  /** At a constant speed of at least 1 that is exactly `ttl` of wall time. */
  lemma ConstantSpeedExpiresExactly(s: State, span: real, ttl: real)
    requires Valid(s.clock) && !s.clock.clampToWall && s.clock.speed >= 1.0 && ttl > 0.0 && span >= 0.0
    ensures Expired(Run(s, [Advance(span)]), Stamp(s, ttl)) <==> span > ttl
  {
    var es := [Advance(span)];
    assert es[..0] == [] && Run(s, []) == s && Weighted(s, [], 0.0) == 0.0;
    assert Weighted(s, es, 0.0) == At(s.clock.speed, span);
    UnclampedExpiryIff(s, es, ttl);
    if span > ttl {
      assert (span - ttl) * s.clock.speed > 0.0;
    } else {
      LongerIsMore(s.clock.speed, span, ttl);
    }
  }

  /** A subject without expiry never expires, whatever the clock does. */
  lemma NoExpiryNeverExpires(s: State, es: seq<Event>)
    ensures !Expired(Run(s, es), Stamp(s, 0.0))
  {
  }

  /** Doubling the speed right after stamping expires the message within its wall budget. */
  lemma SpeedingUpExpiresEarly(wall: real, speed: real, ttl: real)
    requires speed >= 1.0 && ttl > 0.0
    ensures
      var s := State(Clock(wall, wall, speed, speed, 0.0, false), wall);
      var es := [SetSpeed(speed * 2.0, 0.0)] + [Advance(ttl * 0.75)];
      WallSpent(es) < ttl && Expired(Run(s, es), Stamp(s, ttl))
  {
    var s := State(Clock(wall, wall, speed, speed, 0.0, false), wall);
    var faster := SetSpeed(speed * 2.0, 0.0);
    var es := [faster] + [Advance(ttl * 0.75)];
    assert es[..1] == [faster] && [faster][..0] == [];
    assert WallSpent([faster]) == 0.0;
    assert Run(s, [faster]) == Next(s, faster);
    assert Weighted(s, [faster], 0.0) == 0.0;
    assert Weighted(s, es, 0.0) == At(speed * 2.0, ttl * 0.75);
    UnclampedExpiryIff(s, es, ttl);
    assert At(speed * 2.0, ttl * 0.75) == 1.5 * (ttl * speed);
    assert ttl * speed > 0.0;
  }
}
