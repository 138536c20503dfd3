/** Where each bin of a multi-bin order ends up: the source's walk by node against a walk by bin. */
module BinFlow {
  import opened Plans

  // ---- the walk by node ----

  /** The bin on the robot (0 is none), the bin standing at each node, and each bin's last drop. */
  datatype NodeView = NodeView(carrying: nat, at: map<string, nat>, dest: map<nat, string>)

  function NodeStep(v: NodeView, s: Step): NodeView {
    match s.action
    case Wait => v
    case Pickup =>
      if s.node in v.at then v.(carrying := v.at[s.node], at := v.at - {s.node}) else v
    case Dropoff =>
      if v.carrying != 0
      then NodeView(0, v.at[s.node := v.carrying], v.dest[v.carrying := s.node])
      else v
  }

  function NodeWalk(claimed: map<string, nat>, p: Plan): NodeView {
    if p == [] then NodeView(0, claimed, map[]) else NodeStep(NodeWalk(claimed, p[..|p| - 1]), p[|p| - 1])
  }

  method ResolvePerBinDestinations(p: Plan, claimed: map<string, nat>) returns (dest: map<nat, string>)
    ensures dest == NodeWalk(claimed, p).dest
  {
    var carrying, at := 0, claimed;
    dest := map[];
    for i := 0 to |p|
      invariant NodeView(carrying, at, dest) == NodeWalk(claimed, p[..i])
    {
      assert p[..i + 1][..i] == p[..i];
      var s := p[i];
      match s.action
      case Wait =>
      case Pickup =>
        if s.node in at {
          carrying := at[s.node];
          at := at - {s.node};
        }
      case Dropoff =>
        if carrying != 0 {
          dest := dest[carrying := s.node];
          at := at[s.node := carrying];
          carrying := 0;
        }
    }
    assert p[..|p|] == p;
  }

  // ---- the walk by bin ----

  datatype Place = At(node: string) | OnRobot

  /** What physically happens to one bin: a pickup at its node lifts it, a dropoff sets it down. */
  function Moved(place: Place, s: Step): Place {
    match s.action
    case Wait => place
    case Pickup => if place == At(s.node) then OnRobot else place
    case Dropoff => if place.OnRobot? then At(s.node) else place
  }

  function BinWalk(start: string, p: Plan): Place {
    if p == [] then At(start) else Moved(BinWalk(start, p[..|p| - 1]), p[|p| - 1])
  }

  /** Distinct non-zero bins, each claimed at its own node. */
  ghost predicate ValidClaims(claimed: map<string, nat>) {
    && (forall n | n in claimed :: claimed[n] != 0)
    && (forall m, n | m in claimed && n in claimed && claimed[m] == claimed[n] :: m == n)
  }

  /** The two views say the same: every claimed bin is in the one place the walk by bin puts it, and
      the view by node holds nothing else. */
  ghost predicate Agree(claimed: map<string, nat>, p: Plan) {
    var v := NodeWalk(claimed, p);
    && (forall n | n in claimed ::
          && (BinWalk(n, p).OnRobot? <==> v.carrying == claimed[n])
          && (forall m :: BinWalk(n, p) == At(m) <==> m in v.at && v.at[m] == claimed[n]))
    && (v.carrying != 0 ==> exists n | n in claimed :: v.carrying == claimed[n])
    && (forall m | m in v.at :: exists n | n in claimed :: v.at[m] == claimed[n])
  }

  /** Step `s` after `p`: it does not lift a bin while another is on the robot, and does not set one down
      where another stands. */
  ghost predicate Sound(claimed: map<string, nat>, p: Plan, s: Step) {
    forall a, b | a in claimed && b in claimed && a != b && BinWalk(a, p).OnRobot? ::
      !s.action.Wait? ==> BinWalk(b, p) != At(s.node)
  }

  /** The plan never picks while loaded and never drops onto an occupied node. */
  ghost predicate WellFormed(claimed: map<string, nat>, p: Plan) {
    forall i | 0 <= i < |p| :: Sound(claimed, p[..i], p[i])
  }

  lemma NoTwoTogether(claimed: map<string, nat>, p: Plan, a: string, b: string)
    requires ValidClaims(claimed) && Agree(claimed, p) && a in claimed && b in claimed && a != b
    ensures BinWalk(a, p) != BinWalk(b, p)
  {
    assert claimed[a] != claimed[b];
  }

  lemma SoundStepAgrees(claimed: map<string, nat>, p: Plan, s: Step)
    requires ValidClaims(claimed) && Agree(claimed, p) && Sound(claimed, p, s)
    ensures Agree(claimed, p + [s])
  {
    var q := p + [s];
    assert q[..|p|] == p;
    var v, w := NodeWalk(claimed, p), NodeWalk(claimed, q);
    forall n | n in claimed
      ensures BinWalk(n, q).OnRobot? <==> w.carrying == claimed[n]
      ensures forall m :: BinWalk(n, q) == At(m) <==> m in w.at && w.at[m] == claimed[n]
    {
      BinStepAgrees(claimed, p, s, n);
    }
  }

  /** Who is on the robot and who stands at a node, told by bin. */
  lemma ViewNames(claimed: map<string, nat>, p: Plan, n: string)
    requires ValidClaims(claimed) && Agree(claimed, p) && n in claimed
    ensures
      var v := NodeWalk(claimed, p);
      && (v.carrying != 0 && v.carrying != claimed[n] ==>
            exists a | a in claimed :: a != n && v.carrying == claimed[a] && BinWalk(a, p).OnRobot?)
      && (forall m | m in v.at && v.at[m] != claimed[n] ::
            exists b | b in claimed :: b != n && v.at[m] == claimed[b] && BinWalk(b, p) == At(m))
  {
    hide NodeWalk, BinWalk;
  }

  /** One bin across one step, given who else is where. */
  lemma BinStepAgrees(claimed: map<string, nat>, p: Plan, s: Step, n: string)
    requires ValidClaims(claimed) && Agree(claimed, p) && Sound(claimed, p, s) && n in claimed
    ensures
      var w := NodeStep(NodeWalk(claimed, p), s);
      var place := Moved(BinWalk(n, p), s);
      && (place.OnRobot? <==> w.carrying == claimed[n])
      && (forall m :: place == At(m) <==> m in w.at && w.at[m] == claimed[n])
  {
    hide NodeWalk, BinWalk;
    ViewNames(claimed, p, n);
    var v := NodeWalk(claimed, p);
    assert claimed[n] != 0;
    assert BinWalk(n, p).OnRobot? <==> v.carrying == claimed[n];
    assert forall m :: BinWalk(n, p) == At(m) <==> m in v.at && v.at[m] == claimed[n];
    match s.action
    case Wait =>
    case Pickup =>
    case Dropoff =>
  }

  lemma UnsoundStepDisagrees(claimed: map<string, nat>, p: Plan, s: Step)
    requires ValidClaims(claimed) && Agree(claimed, p) && !Sound(claimed, p, s)
    ensures !Agree(claimed, p + [s])
  {
    var q := p + [s];
    assert q[..|p|] == p;
    var a, b :| a in claimed && b in claimed && a != b && BinWalk(a, p).OnRobot?
             && !s.action.Wait? && BinWalk(b, p) == At(s.node);
    assert BinWalk(a, q) == Moved(BinWalk(a, p), s);
    assert BinWalk(b, q) == Moved(BinWalk(b, p), s);
    if Agree(claimed, q) {
      NoTwoTogether(claimed, q, a, b);
      assert false;
    }
  }

  lemma StartAgrees(claimed: map<string, nat>)
    requires ValidClaims(claimed)
    ensures Agree(claimed, [])
  {
    forall n, m | n in claimed && BinWalk(n, []) == At(m)
      ensures m in claimed && claimed[m] == claimed[n]
    {
    }
  }

  ghost predicate AgreeThroughout(claimed: map<string, nat>, p: Plan) {
    forall i | 0 <= i <= |p| :: Agree(claimed, p[..i])
  }

  lemma PrefixAgrees(claimed: map<string, nat>, p: Plan)
    requires p != []
    ensures AgreeThroughout(claimed, p) <==> AgreeThroughout(claimed, p[..|p| - 1]) && Agree(claimed, p)
  {
    hide Agree;
    var n := |p| - 1;
    assert p[..n + 1] == p;
    assert forall i | 0 <= i <= n :: p[..n][..i] == p[..i];
  }

  /** The walk by node follows the bins through every step if and only if the plan never picks while loaded
      and never drops onto an occupied node. */
  lemma {:induction false} AgreeThroughoutIff(claimed: map<string, nat>, p: Plan)
    requires ValidClaims(claimed)
    ensures AgreeThroughout(claimed, p) <==> WellFormed(claimed, p)
  {
    if p == [] {
      assert p[..0] == [];
      StartAgrees(claimed);
    } else {
      hide Agree, Sound, WellFormed;
      var n := |p| - 1;
      AgreeThroughoutIff(claimed, p[..n]);
      assert p[..n] + [p[n]] == p;
      PrefixWellFormed(claimed, p);
      PrefixAgrees(claimed, p);
      if AgreeThroughout(claimed, p[..n]) {
        assert p[..n][..n] == p[..n];
        assert Agree(claimed, p[..n]);
        if Sound(claimed, p[..n], p[n]) {
          SoundStepAgrees(claimed, p[..n], p[n]);
        } else {
          UnsoundStepDisagrees(claimed, p[..n], p[n]);
        }
      }
    }
  }

  lemma PrefixWellFormed(claimed: map<string, nat>, p: Plan)
    requires p != []
    ensures
      var n := |p| - 1;
      WellFormed(claimed, p) <==> WellFormed(claimed, p[..n]) && Sound(claimed, p[..n], p[n])
  {
    var n := |p| - 1;
    forall i | 0 <= i < n
      ensures p[..n][..i] == p[..i] && p[..n][i] == p[i]
    {
    }
    if WellFormed(claimed, p) {
      forall i | 0 <= i < n
        ensures Sound(claimed, p[..n][..i], p[..n][i])
      {
        assert Sound(claimed, p[..i], p[i]);
      }
    }
    if WellFormed(claimed, p[..n]) && Sound(claimed, p[..n], p[n]) {
      forall i | 0 <= i < |p|
        ensures Sound(claimed, p[..i], p[i])
      {
        if i < n {
          assert Sound(claimed, p[..n][..i], p[..n][i]);
        }
      }
    }
  }

  // ---- the recorded destination ----

  /** The walk by bin, remembering the last place the bin was set down. */
  ghost predicate DestTrue(claimed: map<string, nat>, p: Plan, n: string)
    requires n in claimed
  {
    var dest := NodeWalk(claimed, p).dest;
    match BinWalk(n, p)
    case At(m) => if claimed[n] in dest then dest[claimed[n]] == m else m == n
    case OnRobot => true
  }

  lemma WellFormedAgrees(claimed: map<string, nat>, p: Plan)
    requires ValidClaims(claimed) && WellFormed(claimed, p)
    ensures Agree(claimed, p)
  {
    hide Agree, WellFormed;
    AgreeThroughoutIff(claimed, p);
    assert p[..|p|] == p;
  }

  lemma DestStep(claimed: map<string, nat>, p: Plan, s: Step, n: string)
    requires ValidClaims(claimed) && n in claimed && Agree(claimed, p) && DestTrue(claimed, p, n)
    ensures DestTrue(claimed, p + [s], n)
  {
    var q := p + [s];
    assert q[..|p|] == p;
    assert BinWalk(n, q) == Moved(BinWalk(n, p), s);
    assert NodeWalk(claimed, q) == NodeStep(NodeWalk(claimed, p), s);
    hide NodeWalk, BinWalk;
    assert BinWalk(n, p).OnRobot? <==> NodeWalk(claimed, p).carrying == claimed[n];
  }

  /** For a well-formed plan every bin that ends on a node ends where its destination says, and a bin with
      no destination is where it was claimed. */
  lemma {:induction false} DestinationsAreWhereBinsEnd(claimed: map<string, nat>, p: Plan, n: string)
    requires ValidClaims(claimed) && WellFormed(claimed, p) && n in claimed
    ensures DestTrue(claimed, p, n)
  {
    if p != [] {
      hide *;
      var m := |p| - 1;
      PrefixWellFormed(claimed, p);
      DestinationsAreWhereBinsEnd(claimed, p[..m], n);
      WellFormedAgrees(claimed, p[..m]);
      DestStep(claimed, p[..m], p[m], n);
      assert p[..m] + [p[m]] == p;
    }
  }
}
