/**
  Finite directed graphs over names and what can be reached in them: the declarative side of every
  schema traversal in this project.
*/
module Reachability {
  import opened Sequences

  type Graph = map<string, set<string>>

  function Successors(g: Graph, n: string): set<string> {
    if n in g then g[n] else {}
  }

  /** A graph with the order of successors forgotten. */
  function AsGraph(lists: map<string, seq<string>>): Graph {
    map n | n in lists :: ToSet(lists[n])
  }

  ghost predicate IsPath(g: Graph, path: seq<string>) {
    && path != []
    && forall i :: 0 < i < |path| ==> path[i] in Successors(g, path[i - 1])
  }

  /** A path is a shorter path and one step more. */
  lemma PathSnoc(g: Graph, path: seq<string>)
    requires |path| > 1
    ensures var n := |path| - 1; IsPath(g, path) <==> IsPath(g, path[..n]) && path[n] in Successors(g, path[n - 1])
  {
    var n := |path| - 1;
    assert forall i :: 0 <= i < n ==> path[..n][i] == path[i];
  }

  ghost predicate Reaches(g: Graph, a: string, b: string) {
    exists path :: IsPath(g, path) && path[0] == a && path[|path| - 1] == b
  }

  ghost predicate ReachesFrom(g: Graph, roots: set<string>, b: string) {
    exists a :: a in roots && Reaches(g, a, b)
  }

  ghost predicate Closed(g: Graph, s: set<string>) {
    forall a, b :: a in s && b in Successors(g, a) ==> b in s
  }

  lemma ReachesSelf(g: Graph, a: string)
    ensures Reaches(g, a, a)
  {
    assert IsPath(g, [a]);
  }

  lemma ReachesStep(g: Graph, a: string, b: string, c: string)
    requires Reaches(g, a, b) && c in Successors(g, b)
    ensures Reaches(g, a, c)
  {
    var path :| IsPath(g, path) && path[0] == a && path[|path| - 1] == b;
    assert IsPath(g, path + [c]);
    assert (path + [c])[|path|] == c;
  }

  lemma {:induction false} ReachesTransitive(g: Graph, a: string, b: string, c: string)
    requires Reaches(g, a, b) && Reaches(g, b, c)
    ensures Reaches(g, a, c)
  {
    var path :| IsPath(g, path) && path[0] == b && path[|path| - 1] == c;
    AlongPath(g, a, path);
  }

  lemma {:induction false} AlongPath(g: Graph, a: string, path: seq<string>)
    requires IsPath(g, path) && Reaches(g, a, path[0])
    ensures Reaches(g, a, path[|path| - 1])
  {
    var n := |path| - 1;
    if n > 0 {
      AlongPath(g, a, path[..n]);
      ReachesStep(g, a, path[n - 1], path[n]);
    }
  }

  lemma ReachesVia(g: Graph, a: string, b: string, c: string)
    requires b in Successors(g, a) && Reaches(g, b, c)
    ensures Reaches(g, a, c)
  {
    ReachesSelf(g, a);
    ReachesStep(g, a, a, b);
    ReachesTransitive(g, a, b, c);
  }

  /** A path of at least one step starts with one of the successors. */
  lemma ReachesThroughSuccessor(g: Graph, a: string, c: string) returns (b: string)
    requires Reaches(g, a, c) && a != c
    ensures b in Successors(g, a) && Reaches(g, b, c)
  {
    var path :| IsPath(g, path) && path[0] == a && path[|path| - 1] == c;
    b := path[1];
    assert IsPath(g, path[1..]);
  }

  /** A closed set holds everything reachable from its members. */
  lemma ClosedHoldsReach(g: Graph, s: set<string>, a: string, b: string)
    requires Closed(g, s) && a in s && Reaches(g, a, b)
    ensures b in s
  {
    var path :| IsPath(g, path) && path[0] == a && path[|path| - 1] == b;
    ClosedHoldsPath(g, s, path);
  }

  lemma {:induction false} ClosedHoldsPath(g: Graph, s: set<string>, path: seq<string>)
    requires Closed(g, s) && IsPath(g, path) && path[0] in s
    ensures path[|path| - 1] in s
  {
    var n := |path| - 1;
    if n > 0 {
      ClosedHoldsPath(g, s, path[..n]);
    }
  }

  /** More edges reach no less. */
  lemma ReachesInLarger(g: Graph, h: Graph, a: string, b: string)
    requires Reaches(g, a, b) && forall n :: Successors(g, n) <= Successors(h, n)
    ensures Reaches(h, a, b)
  {
    var path :| IsPath(g, path) && path[0] == a && path[|path| - 1] == b;
    assert IsPath(h, path);
  }

  /** Two graphs that agree on all that one of them reaches have the same reach. */
  lemma SameReach(g: Graph, h: Graph, a: string, b: string)
    requires forall n :: Reaches(g, a, n) ==> Successors(g, n) == Successors(h, n)
    ensures Reaches(g, a, b) <==> Reaches(h, a, b)
  {
    if Reaches(g, a, b) {
      var path :| IsPath(g, path) && path[0] == a && path[|path| - 1] == b;
      PathInOther(g, h, a, path);
    }
    if Reaches(h, a, b) {
      var path :| IsPath(h, path) && path[0] == a && path[|path| - 1] == b;
      PathFromOther(g, h, a, path);
    }
  }

  lemma {:induction false} PathInOther(g: Graph, h: Graph, a: string, path: seq<string>)
    requires forall n :: Reaches(g, a, n) ==> Successors(g, n) == Successors(h, n)
    requires IsPath(g, path) && path[0] == a
    ensures Reaches(h, a, path[|path| - 1])
  {
    var n := |path| - 1;
    if n == 0 {
      ReachesSelf(h, a);
    } else {
      PathInOther(g, h, a, path[..n]);
      assert Reaches(g, a, path[n - 1]) by {
        assert IsPath(g, path[..n]) && path[..n][n - 1] == path[n - 1];
      }
      ReachesStep(h, a, path[n - 1], path[n]);
    }
  }

  lemma {:induction false} PathFromOther(g: Graph, h: Graph, a: string, path: seq<string>)
    requires forall n :: Reaches(g, a, n) ==> Successors(g, n) == Successors(h, n)
    requires IsPath(h, path) && path[0] == a
    ensures Reaches(g, a, path[|path| - 1])
  {
    var n := |path| - 1;
    if n == 0 {
      ReachesSelf(g, a);
    } else {
      PathFromOther(g, h, a, path[..n]);
      ReachesStep(g, a, path[n - 1], path[n]);
    }
  }
}
