/** Search states, edges and the paths they form (utils/graph.ts).

    A state is the pair (nodeId, canWalk) the planner searches over; an edge
    is one move out of a state, with its search weight and its kind. A path
    is a sequence of edges read from a start state. */
module Paths {

  datatype State = State(node: string, canWalk: bool)

  datatype Mode = Walk | Teleport

  datatype Edge = Edge(target: State, weight: real, mode: Mode)

  /** An entry of the `prev` map: the state a state was reached from, and how. */
  datatype Pred = Pred(from: State, mode: Mode)

  /** stateKey: the string under which a state is stored in `dist`, `prev`
      and `visited`. */
  function StateKey(s: State): (k: string)
    ensures |k| > |s.node| && k[..|s.node|] == s.node && k[|s.node|] == ':'
    ensures s.canWalk <==> k[|s.node| + 1..] == "true"
    ensures !s.canWalk <==> k[|s.node| + 1..] == "false"
  {
    s.node + ":" + (if s.canWalk then "true" else "false")
  }

  /** Distinct states never share a key, so maps keyed by State model the
      string-keyed maps of the source exactly. */
  lemma StateKeyInjective(s: State, t: State)
    ensures StateKey(s) == StateKey(t) <==> s == t
  {
    var ks, kt := StateKey(s), StateKey(t);
    if s.canWalk != t.canWalk {
      // One key ends in ":true", the other in "false": five characters from
      // the end they hold ':' and 'f'.
      var (tk, fk) := if s.canWalk then (ks, kt) else (kt, ks);
      var (tn, fn) := if s.canWalk then (s.node, t.node) else (t.node, s.node);
      assert tk == tn + ":true" && tk[|tk| - 5] == ':';
      assert fk == fn + ":false" && fk[|fk| - 5] == 'f';
      assert ks != kt;
    } else if ks == kt {
      var suffix := if s.canWalk then ":true" else ":false";
      assert ks == s.node + suffix && kt == t.node + suffix;
      assert s.node == ks[..|s.node|] == kt[..|t.node|] == t.node;
    }
  }

  /** The state a path is in before its i-th edge (after all of them when
      i == |p|). */
  function StateAt(s0: State, p: seq<Edge>, i: int): State
    requires 0 <= i <= |p|
  {
    if i == 0 then s0 else p[i - 1].target
  }

  function Last(s0: State, p: seq<Edge>): State
  {
    StateAt(s0, p, |p|)
  }

  /** Every edge of `p` is a move the successor function offers from the
      state the path is in. */
  ghost predicate IsPath(succ: State -> seq<Edge>, s0: State, p: seq<Edge>)
  {
    forall i {:trigger StateAt(s0, p, i)} :: 0 <= i < |p| ==> p[i] in succ(StateAt(s0, p, i))
  }

  /** Two moves, the second from where the first lands, make a path. */
  lemma TwoStepPath(succ: State -> seq<Edge>, s0: State, e0: Edge, e1: Edge)
    requires e0 in succ(s0) && e1 in succ(e0.target)
    ensures IsPath(succ, s0, [e0, e1]) && Last(s0, [e0, e1]) == e1.target
  {
    assert StateAt(s0, [e0, e1], 0) == s0 && StateAt(s0, [e0, e1], 1) == e0.target;
  }

  /** The search cost of a path: the sum of its edge weights. */
  function Cost(p: seq<Edge>): real
  {
    if |p| == 0 then 0.0 else Cost(p[..|p| - 1]) + p[|p| - 1].weight
  }

  ghost predicate NonNegativeWeights(p: seq<Edge>)
  {
    forall i :: 0 <= i < |p| ==> p[i].weight >= 0.0
  }

  /** Following `prev` back from the end of `p` retraces `p` edge by edge
      and stops at the start state, which has no predecessor. */
  ghost predicate ChainFollows(prev: map<State, Pred>, s0: State, p: seq<Edge>)
  {
    && s0 !in prev
    && forall i {:trigger StateAt(s0, p, i)} :: 0 <= i < |p| ==>
         p[i].target in prev && prev[p[i].target] == Pred(StateAt(s0, p, i), p[i].mode)
  }

  lemma PathExtend(succ: State -> seq<Edge>, s0: State, p: seq<Edge>, e: Edge)
    requires IsPath(succ, s0, p) && e in succ(Last(s0, p))
    ensures IsPath(succ, s0, p + [e])
    ensures Last(s0, p + [e]) == e.target
    ensures Cost(p + [e]) == Cost(p) + e.weight
    ensures forall i :: 0 <= i <= |p| ==> StateAt(s0, p + [e], i) == StateAt(s0, p, i)
  {
    var q := p + [e];
    assert q[..|q| - 1] == p;
    forall i | 0 <= i < |q| ensures q[i] in succ(StateAt(s0, q, i)) {
      if i < |p| {
        assert q[i] == p[i];
        assert StateAt(s0, q, i) == StateAt(s0, p, i);
      }
    }
  }

  /** Extending a prefix by one edge adds that edge's weight. */
  lemma CostStep(p: seq<Edge>, k: nat)
    requires k < |p|
    ensures Cost(p[..k + 1]) == Cost(p[..k]) + p[k].weight
  {
    assert p[..k + 1][..k] == p[..k];
  }

  /** With no negative weight, a prefix never costs more than the path. */
  lemma {:induction false} CostPrefixAtMost(p: seq<Edge>, k: nat)
    requires NonNegativeWeights(p) && k <= |p|
    ensures Cost(p[..k]) <= Cost(p)
    decreases |p| - k
  {
    if k < |p| {
      CostStep(p, k);
      CostPrefixAtMost(p, k + 1);
      assert p[..|p|] == p;
    } else {
      assert p[..k] == p;
    }
  }

  /** The prev chain is updated at a state the path does not pass through. */
  lemma ChainFollowsUpdate(prev: map<State, Pred>, s0: State, p: seq<Edge>, v: State, pr: Pred)
    requires ChainFollows(prev, s0, p)
    requires v != s0
    requires forall i :: 0 <= i < |p| ==> p[i].target != v
    ensures ChainFollows(prev[v := pr], s0, p)
  {
    forall i | 0 <= i < |p|
      ensures p[i].target in prev[v := pr] && prev[v := pr][p[i].target] == Pred(StateAt(s0, p, i), p[i].mode)
    {
      var si := StateAt(s0, p, i);
      assert p[i].target in prev && prev[p[i].target] == Pred(si, p[i].mode);
    }
  }
}
