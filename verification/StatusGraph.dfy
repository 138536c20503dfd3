/** The order state machine as an arbitrary transition table, and the mirror that follows it while losing
    messages. */
module StatusGraph {

  type Status = string
  type Table = map<Status, seq<Status>>

  predicate Edge(t: Table, a: Status, b: Status) {
    a in t && b in t[a]
  }

  predicate Terminal(t: Table, s: Status) {
    s !in t
  }

  /** A walk along edges. */
  ghost predicate Path(t: Table, p: seq<Status>) {
    p != [] && forall i | 0 <= i < |p| - 1 :: Edge(t, p[i], p[i + 1])
  }

  ghost predicate Reachable(t: Table, a: Status, b: Status) {
    exists p: seq<Status> :: Path(t, p) && p[0] == a && p[|p| - 1] == b
  }

  ghost predicate ForwardJump(t: Table, a: Status, b: Status) {
    a != b && !Edge(t, a, b) && Reachable(t, a, b)
  }

  lemma ReachSelf(t: Table, a: Status)
    ensures Reachable(t, a, a)
  {
    assert Path(t, [a]);
  }

  lemma ReachStep(t: Table, a: Status, b: Status, c: Status)
    requires Reachable(t, a, b) && Edge(t, b, c)
    ensures Reachable(t, a, c)
  {
    var p: seq<Status> :| Path(t, p) && p[0] == a && p[|p| - 1] == b;
    var q := p + [c];
    forall i | 0 <= i < |q| - 1
      ensures Edge(t, q[i], q[i + 1])
    {
    }
    assert Path(t, q) && q[0] == a && q[|q| - 1] == c;
  }

  /** A set that contains `a`, is closed under edges and misses `b` proves `b` unreachable. */
  lemma ClosedSetBlocks(t: Table, seen: set<Status>, a: Status, b: Status)
    requires a in seen && b !in seen
    requires forall x, y | x in seen && Edge(t, x, y) :: y in seen
    ensures !Reachable(t, a, b)
  {
    forall p: seq<Status> | Path(t, p) && p[0] == a
      ensures p[|p| - 1] in seen
    {
      PathStays(t, seen, p);
    }
  }

  lemma {:induction false} PathStays(t: Table, seen: set<Status>, p: seq<Status>)
    requires Path(t, p) && p[0] in seen
    requires forall x, y | x in seen && Edge(t, x, y) :: y in seen
    ensures p[|p| - 1] in seen
  {
    if |p| > 1 {
      var n := |p| - 1;
      forall i | 0 <= i < n - 1
        ensures Edge(t, p[..n][i], p[..n][i + 1])
      {
        assert Edge(t, p[i], p[i + 1]);
      }
      PathStays(t, seen, p[..n]);
      assert Edge(t, p[n - 1], p[n - 1 + 1]);
    }
  }

  /** Every status the table mentions. */
  function Mentioned(t: Table): set<Status> {
    t.Keys + set a, b | a in t.Keys && b in t[a] :: b
  }

  /** What the breadth-first search keeps: everything seen is reachable, the target is not among it, and
      what has left the queue has all its successors seen. */
  ghost predicate Searching(t: Table, a: Status, b: Status, seen: set<Status>, queue: seq<Status>) {
    && a in seen && b !in seen && seen <= Mentioned(t) + {a}
    && (forall x | x in queue :: x in seen)
    && (forall x | x in seen :: Reachable(t, a, x))
    && (forall x, y | x in seen && x !in queue && Edge(t, x, y) :: y in seen)
  }

  /** The search terminates on every table, and says yes exactly for a distinct target that is reachable
      but not in one step. */
  method IsForwardJump(t: Table, a: Status, b: Status) returns (jump: bool)
    ensures jump <==> ForwardJump(t, a, b)
  {
    if a == b || Edge(t, a, b) {
      return false;
    }
    var seen, queue := {a}, [a];
    ReachSelf(t, a);
    ghost var all := Mentioned(t) + {a};
    while queue != []
      invariant Searching(t, a, b, seen, queue)
      decreases all - seen, |queue|
    {
      var cur := queue[0];
      var rest := queue[1..];
      var found;
      assert queue == [cur] + rest;
      found, seen, queue := Expand(t, a, b, cur, seen, rest);
      if found {
        return true;
      }
    }
    ClosedSetBlocks(t, seen, a, b);
    return false;
  }

  /** One status taken off the queue: its unseen successors go on it, unless the target is among them. */
  method Expand(t: Table, a: Status, b: Status, cur: Status, seen0: set<Status>, queue0: seq<Status>)
    returns (found: bool, seen: set<Status>, queue: seq<Status>)
    requires Searching(t, a, b, seen0, [cur] + queue0)
    ensures found ==> Reachable(t, a, b)
    ensures !found ==> Searching(t, a, b, seen, queue)
    ensures seen0 <= seen
    ensures seen == seen0 ==> queue == queue0
  {
    seen, queue := seen0, queue0;
    assert cur in [cur] + queue0;
    if cur in t {
      for i := 0 to |t[cur]|
        invariant seen0 <= seen <= Mentioned(t) + {a} && b !in seen
        invariant forall x | x in queue :: x in seen
        invariant forall x | x in seen :: Reachable(t, a, x)
        invariant forall x, y | x in seen && x != cur && x !in queue && Edge(t, x, y) :: y in seen
        invariant forall j | 0 <= j < i :: t[cur][j] in seen
        invariant seen == seen0 ==> queue == queue0
      {
        var next := t[cur][i];
        assert Edge(t, cur, next);
        ReachStep(t, a, cur, next);
        if next == b {
          return true, seen, queue;
        }
        if next !in seen {
          seen, queue := seen + {next}, queue + [next];
        }
      }
    }
    return false, seen, queue;
  }

  // ---- the mirror ----

  /** What the mirror makes of a status it is told: a legal step is taken; its own status, or anything while
      it is terminal, changes nothing; a forward jump is caught up; anything else is refused. */
  ghost function Mirrored(t: Table, s: Status, told: Status): Status {
    if Edge(t, s, told) || ForwardJump(t, s, told) then told else s
  }

  class EdgeRow {
    var status: Status

    constructor (s: Status)
      ensures status == s
    {
      status := s;
    }

    method MirrorTransition(t: Table, told: Status) returns (accepted: bool)
      modifies this
      ensures status == Mirrored(t, old(status), told)
      ensures accepted <==> status == told || Terminal(t, old(status))
    {
      if Edge(t, status, told) {
        status := told;
        return true;
      }
      if status == told || Terminal(t, status) {
        NothingLeavesTerminal(t, status, told);
        return true;
      }
      var jump := IsForwardJump(t, status, told);
      if jump {
        status := told;
      }
      return jump;
    }
  }

  lemma NothingLeavesTerminal(t: Table, s: Status, told: Status)
    ensures Terminal(t, s) ==> Mirrored(t, s, told) == s
  {
    if Terminal(t, s) && s != told {
      ClosedSetBlocks(t, {s}, s, told);
    }
  }

  ghost function MirrorRun(t: Table, s: Status, told: seq<Status>): Status {
    if told == [] then s else Mirrored(t, MirrorRun(t, s, told[..|told| - 1]), told[|told| - 1])
  }

  /** Whatever it is told, a mirror that is terminal stays, and any mirror is only ever at a status that was
      reachable from where it started. */
  lemma {:induction false} MirrorIsReachable(t: Table, s: Status, told: seq<Status>)
    ensures Reachable(t, s, MirrorRun(t, s, told))
    ensures Terminal(t, s) ==> MirrorRun(t, s, told) == s
  {
    if told == [] {
      ReachSelf(t, s);
    } else {
      var n := |told| - 1;
      MirrorIsReachable(t, s, told[..n]);
      var m := MirrorRun(t, s, told[..n]);
      if Edge(t, m, told[n]) {
        ReachStep(t, s, m, told[n]);
      } else if ForwardJump(t, m, told[n]) {
        ReachJoin(t, s, m, told[n]);
      }
      NothingLeavesTerminal(t, m, told[n]);
    }
  }

  lemma ReachJoin(t: Table, a: Status, b: Status, c: Status)
    requires Reachable(t, a, b) && Reachable(t, b, c)
    ensures Reachable(t, a, c)
  {
    var p: seq<Status> :| Path(t, p) && p[0] == a && p[|p| - 1] == b;
    var q: seq<Status> :| Path(t, q) && q[0] == b && q[|q| - 1] == c;
    var r := p + q[1..];
    forall i | 0 <= i < |r| - 1
      ensures Edge(t, r[i], r[i + 1])
    {
      if i < |p| - 1 {
        assert Edge(t, p[i], p[i + 1]);
      } else {
        var j := i - (|p| - 1);
        assert r[i] == q[j] && r[i + 1] == q[j + 1];
        assert Edge(t, q[j], q[j + 1]);
      }
    }
    assert Path(t, r) && r[0] == a && r[|r| - 1] == c;
  }

  lemma {:induction false} RunReaches(t: Table, run: seq<Status>, i: nat, j: nat)
    requires Path(t, run) && i <= j < |run|
    ensures Reachable(t, run[i], run[j])
    decreases j
  {
    if i == j {
      ReachSelf(t, run[i]);
    } else {
      RunReaches(t, run, i, j - 1);
      assert Edge(t, run[j - 1], run[j - 1 + 1]);
      ReachStep(t, run[i], run[j - 1], run[j]);
    }
  }

  /** The statuses of a run at the given positions. */
  function At(run: seq<Status>, picks: seq<nat>): (told: seq<Status>)
    requires forall i | 0 <= i < |picks| :: picks[i] < |run|
    ensures |told| == |picks| && forall i | 0 <= i < |picks| :: told[i] == run[picks[i]]
  {
    seq(|picks|, i requires 0 <= i < |picks| => run[picks[i]])
  }

  ghost predicate Increasing(picks: seq<nat>) {
    forall i, j | 0 <= i < j < |picks| :: picks[i] < picks[j]
  }

  /** A mirror that starts where a Core run starts and is told any of its statuses, in order but with any
      of them lost, accepts every one and ends at the last it was told. */
  lemma {:induction false} LossyMirrorConverges(t: Table, run: seq<Status>, picks: seq<nat>)
    requires Path(t, run) && Increasing(picks) && forall i | 0 <= i < |picks| :: picks[i] < |run|
    ensures MirrorRun(t, run[0], At(run, picks)) == if picks == [] then run[0] else run[picks[|picks| - 1]]
  {
    var told := At(run, picks);
    if picks != [] {
      var n := |picks| - 1;
      LossyMirrorConverges(t, run, picks[..n]);
      assert At(run, picks[..n]) == told[..n];
      var at := if n == 0 then 0 else picks[n - 1];
      RunReaches(t, run, at, picks[n]);
    }
  }
}
