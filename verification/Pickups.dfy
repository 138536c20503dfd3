/** The pickups a complex plan must source, and which of them re-grab a bin the plan itself parked. */
module Pickups {
  import opened Plans

  datatype Need = Need(index: nat, node: string, empty: bool, relay: bool)

  /** The lane gate's question: does the plan drop at `node` before step `i`? */
  predicate DropsAtBefore(p: Plan, node: string, i: nat) {
    exists j | 0 <= j < i && j < |p| :: p[j].action.Dropoff? && p[j].node == node
  }

  /** Every pickup in step order, with its relay flag put as the gate's question. */
  function NeedsOf(p: Plan): (ns: seq<Need>)
    ensures forall k | 0 <= k < |ns| :: ns[k].index < |p|
    ensures forall j, k | 0 <= j < k < |ns| :: ns[j].index < ns[k].index
  {
    if p == [] then []
    else
      var n := |p| - 1;
      var front := NeedsOf(p[..n]);
      if p[n].action.Pickup?
      then front + [Need(n, p[n].node, p[n].empty, p[n].node != "" && DropsAtBefore(p, p[n].node, n))]
      else front
  }

  /** The planner's walk answers by a growing set of drop nodes; it agrees with the gate's backward
      look at every pickup. */
  method ComplexPickups(p: Plan) returns (needs: seq<Need>)
    ensures needs == NeedsOf(p)
  {
    var dropped: set<string> := {};
    needs := [];
    for i := 0 to |p|
      invariant forall node | node != "" :: node in dropped <==> DropsAtBefore(p, node, i)
      invariant "" !in dropped
      invariant needs == NeedsOf(p[..i])
    {
      var s := p[i];
      assert p[..i + 1][..i] == p[..i];
      match s.action
      case Dropoff =>
        if s.node != "" {
          dropped := dropped + {s.node};
        }
      case Pickup =>
        assert DropsAtBefore(p[..i + 1], s.node, i) == DropsAtBefore(p, s.node, i) by {
          DropsInPrefix(p, s.node, i, i + 1);
        }
        needs := needs + [Need(i, s.node, s.empty, s.node != "" && s.node in dropped)];
      case Wait =>
    }
    assert p[..|p|] == p;
  }

  lemma DropsInPrefix(p: Plan, node: string, i: nat, m: nat)
    requires i <= m <= |p|
    ensures DropsAtBefore(p[..m], node, i) == DropsAtBefore(p, node, i)
  {
    if DropsAtBefore(p, node, i) {
      var j :| 0 <= j < i && j < |p| && p[j].action.Dropoff? && p[j].node == node;
      assert p[..m][j] == p[j];
    }
  }

  /** What the list means, step by step: a need for each pickup and no other, flagged a relay exactly
      when the gate would find an earlier drop at its node. */
  lemma {:induction false} NeedsAreThePickups(p: Plan, i: nat)
    requires i < |p|
    ensures p[i].action.Pickup? <==> exists n | n in NeedsOf(p) :: n.index == i
    ensures forall n | n in NeedsOf(p) && n.index == i ::
      n.node == p[i].node && n.empty == p[i].empty
      && (n.relay <==> p[i].node != "" && exists j | 0 <= j < i :: p[j].action == Dropoff && p[j].node == p[i].node)
  {
    var m := |p| - 1;
    var front := NeedsOf(p[..m]);
    if i < m {
      NeedsAreThePickups(p[..m], i);
      DropsInPrefix(p, p[i].node, i, m);
      forall n | n in front ensures n in NeedsOf(p) {}
      forall n | n in NeedsOf(p) && n.index == i ensures n in front {}
    } else if p[m].action.Pickup? {
      var last := NeedsOf(p)[|front|];
      assert last in NeedsOf(p) && last.index == i;
    }
  }
}
