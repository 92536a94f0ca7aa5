/** Cycles in finite graphs, and a measure that drops along the edges of the part without cycles. */
module Acyclicity {
  import opened Reachability
  import opened Cardinality

  ghost predicate OnCycle(g: Graph, n: string) {
    exists v :: v in Successors(g, n) && Reaches(g, v, n)
  }

  /** No cycle can be reached from `a`. */
  ghost predicate CycleFree(g: Graph, a: string) {
    forall n :: Reaches(g, a, n) ==> !OnCycle(g, n)
  }

  ghost predicate IsBelow(g: Graph, n: string, m: string) {
    exists v :: v in Successors(g, n) && Reaches(g, v, m)
  }

  /** What `n` reaches in one step or more. */
  ghost function Below(g: Graph, n: string): set<string> {
    set k, m | k in g && m in g[k] && IsBelow(g, n, m) :: m
  }

  ghost function Depth(g: Graph, n: string): nat {
    |Below(g, n)|
  }

  lemma DepthDrops(g: Graph, n: string, m: string)
    requires m in Successors(g, n) && !OnCycle(g, m)
    ensures Depth(g, m) < Depth(g, n)
  {
    forall x | x in Below(g, m) ensures x in Below(g, n) {
      var v :| v in Successors(g, m) && Reaches(g, v, x);
      ReachesVia(g, m, v, x);
      assert IsBelow(g, n, x);
    }
    ReachesSelf(g, m);
    assert IsBelow(g, n, m) && n in g && m in g[n];
    assert m in Below(g, n) && m !in Below(g, m);
    SubsetSize(Below(g, m), Below(g, n) - {m});
  }

  lemma CycleFreeBelow(g: Graph, a: string, b: string)
    requires CycleFree(g, a) && b in Successors(g, a)
    ensures CycleFree(g, b) && !OnCycle(g, b)
  {
    forall n | Reaches(g, b, n) ensures !OnCycle(g, n) {
      ReachesVia(g, a, b, n);
    }
    ReachesSelf(g, b);
  }

  lemma CycleFreeAbove(g: Graph, a: string)
    requires forall b :: b in Successors(g, a) ==> CycleFree(g, b)
    ensures CycleFree(g, a)
  {
    forall n | Reaches(g, a, n) ensures !OnCycle(g, n) {
      if n != a {
        var b := ReachesThroughSuccessor(g, a, n);
        assert CycleFree(g, b);
      }
    }
  }

  /** The rest of a cycle is on the cycle. */
  lemma CycleGoesOn(g: Graph, n: string) returns (v: string)
    requires OnCycle(g, n)
    ensures v in Successors(g, n) && OnCycle(g, v)
  {
    v :| v in Successors(g, n) && Reaches(g, v, n);
    if v != n {
      var w := ReachesThroughSuccessor(g, v, n);
      ReachesStep(g, w, n, v);
    }
  }
}
