/**
  Which types a type is connected to through union members and fields, and from that the input and
  output types of a configuration. Field targets are skipped once they are known; union members are
  entered without looking, so the traversal ends exactly when it enters no union that lies on a cycle of
  unions (section 3.8 of the GraphQL specification, October 2021, allows no union inside a union at all).
*/
module Connections {
  import opened Options
  import opened SchemaConfig
  import opened Reachability
  import opened Cardinality
  import opened Acyclicity

  function Declared(cfg: Config): set<string> {
    cfg.unions.Keys + cfg.types.Keys + cfg.enums
  }

  /** A name is looked up as a union first, then as a type. */
  function Connected(cfg: Config, name: string): set<string> {
    if name in cfg.unions then set m | m in cfg.unions[name] && m in Declared(cfg)
    else if name in cfg.types then
      set f | f in cfg.types[name].fields && !cfg.IsScalar(f.typeName) && f.typeName in Declared(cfg) :: f.typeName
    else {}
  }

  function ConnectionGraph(cfg: Config): Graph {
    map n | n in Declared(cfg) :: Connected(cfg, n)
  }

  // ---------------------------------------------------------------------------------------------
  // When the traversal ends

  /** Unions directly inside unions. */
  function UnionGraph(cfg: Config): Graph {
    map u | u in cfg.unions :: set m | m in cfg.unions[u] && m in cfg.unions
  }

  /** What is entered from `name` when `types` are known from the start. */
  function Entered(cfg: Config, name: string, types: set<string>): set<string> {
    if name in cfg.unions then Connected(cfg, name) else Connected(cfg, name) - types
  }

  function EntryGraph(cfg: Config, types: set<string>): Graph {
    map n | n in Declared(cfg) :: Entered(cfg, n, types)
  }

  /** No union that is entered from `name` lies on a cycle of unions. */
  ghost predicate Ends(cfg: Config, name: string, types: set<string>) {
    forall u :: Reaches(EntryGraph(cfg, types), name, u) ==> !OnCycle(UnionGraph(cfg), u)
  }

  /** The names a call looks at, in order: union members, or the targets of fields that are followed. */
  function Targets(cfg: Config, name: string): seq<string> {
    if name in cfg.unions then cfg.unions[name]
    else if name in cfg.types then
      var fields := cfg.types[name].fields;
      seq(|fields|, i requires 0 <= i < |fields| => fields[i].typeName)
    else []
  }

  /** Whether a call for `name` goes on to `target` when `known` are the types known by then. */
  predicate Follows(cfg: Config, name: string, target: string, known: set<string>) {
    name in cfg.unions || (target !in known && !cfg.IsScalar(target))
  }

  /** The traversal with a bound on the depth of calls; `None` when the bound does not suffice. */
  function Visit(cfg: Config, name: string, types: set<string>, depth: nat): Option<set<string>>
    decreases depth, 0
  {
    if depth == 0 then None
    else if name !in Declared(cfg) then Some(types)
    else VisitTargets(cfg, name, |Targets(cfg, name)|, types + {name}, depth - 1)
  }

  /** The same for the first `n` names that a call looks at, one after the other. */
  function VisitTargets(cfg: Config, name: string, n: nat, types: set<string>, depth: nat): Option<set<string>>
    requires n <= |Targets(cfg, name)|
    decreases depth, n
  {
    if n == 0 then Some(types)
    else
      match VisitTargets(cfg, name, n - 1, types, depth)
      case None => None
      case Some(known) =>
        var target := Targets(cfg, name)[n - 1];
        if Follows(cfg, name, target, known) then Visit(cfg, target, known, depth) else Some(known)
  }

  lemma {:induction false} VisitDeeper(cfg: Config, name: string, types: set<string>, depth: nat, more: nat)
    requires Visit(cfg, name, types, depth).Some? && depth <= more
    ensures Visit(cfg, name, types, more) == Visit(cfg, name, types, depth)
    decreases depth, 0
  {
    if name in Declared(cfg) {
      VisitTargetsDeeper(cfg, name, |Targets(cfg, name)|, types + {name}, depth - 1, more - 1);
    }
  }

  lemma {:induction false} VisitTargetsDeeper(cfg: Config, name: string, n: nat, types: set<string>,
                                              depth: nat, more: nat)
    requires n <= |Targets(cfg, name)| && VisitTargets(cfg, name, n, types, depth).Some? && depth <= more
    ensures VisitTargets(cfg, name, n, types, more) == VisitTargets(cfg, name, n, types, depth)
    decreases depth, n
  {
    if n > 0 {
      VisitTargetsDeeper(cfg, name, n - 1, types, depth, more);
      var known := VisitTargets(cfg, name, n - 1, types, depth).value;
      var target := Targets(cfg, name)[n - 1];
      if Follows(cfg, name, target, known) {
        VisitDeeper(cfg, target, known, depth, more);
      }
    }
  }

  // ---------------------------------------------------------------------------------------------
  // What the traversal finds

  /** What one call adds: reachable names only, and all successors of whatever is new. */
  ghost predicate Explored(cfg: Config, name: string, before: set<string>, after: set<string>) {
    var g := ConnectionGraph(cfg);
    && before <= after
    && (name in Declared(cfg) ==> name in after)
    && (forall x :: x in after - before ==> x in Declared(cfg) && Reaches(g, name, x))
    && Successors(g, name) <= after
    && (forall x :: x in after - before ==> Successors(g, x) <= after)
  }

  /** The same half way through a call, when only some successors of `name` itself are dealt with. */
  ghost predicate Exploring(cfg: Config, name: string, before: set<string>, now: set<string>) {
    var g := ConnectionGraph(cfg);
    && name in Declared(cfg)
    && before + {name} <= now
    && (forall x :: x in now - before ==> x in Declared(cfg) && Reaches(g, name, x))
    && (forall x :: x in now - before - {name} ==> Successors(g, x) <= now)
  }

  lemma UndeclaredAddsNothing(cfg: Config, name: string, before: set<string>, after: set<string>)
    requires name !in Declared(cfg) && Explored(cfg, name, before, after)
    ensures after == before
  {
    var g := ConnectionGraph(cfg);
    forall x | x in after ensures x in before {
      if x !in before {
        var b := ReachesThroughSuccessor(g, name, x);
      }
    }
  }

  lemma ExploringOn(cfg: Config, name: string, next: string, before: set<string>, now: set<string>, after: set<string>)
    requires Exploring(cfg, name, before, now)
    requires next in Declared(cfg) ==> next in Connected(cfg, name)
    requires Explored(cfg, next, now, after)
    ensures Exploring(cfg, name, before, after)
    ensures next in Declared(cfg) ==> next in after
  {
    var g := ConnectionGraph(cfg);
    if next !in Declared(cfg) {
      UndeclaredAddsNothing(cfg, next, now, after);
    }
    forall x | x in after - before ensures x in Declared(cfg) && Reaches(g, name, x) {
      if x !in now {
        ReachesVia(g, name, next, x);
      }
    }
    forall x | x in after - before - {name} ensures Successors(g, x) <= after {
      if x in now {
        assert x in now - before - {name};
      }
    }
  }

  /** Of the first `n` names a call looks at, all that are connected have been found. */
  ghost predicate Covered(cfg: Config, name: string, n: nat, now: set<string>) {
    n <= |Targets(cfg, name)| &&
    forall j :: 0 <= j < n && Targets(cfg, name)[j] in Connected(cfg, name) ==> Targets(cfg, name)[j] in now
  }

  lemma CoveredOn(cfg: Config, name: string, n: nat, now: set<string>, after: set<string>)
    requires Covered(cfg, name, n, now) && now <= after && n < |Targets(cfg, name)|
    requires Targets(cfg, name)[n] in Connected(cfg, name) ==> Targets(cfg, name)[n] in after
    ensures Covered(cfg, name, n + 1, after)
  {
  }

  lemma TargetsCover(cfg: Config, name: string, c: string)
    requires c in Connected(cfg, name)
    ensures exists j :: 0 <= j < |Targets(cfg, name)| && Targets(cfg, name)[j] == c
  {
    if name in cfg.unions {
      var i :| 0 <= i < |cfg.unions[name]| && cfg.unions[name][i] == c;
      assert Targets(cfg, name)[i] == c;
    } else {
      var fields := cfg.types[name].fields;
      var i :| 0 <= i < |fields| && fields[i].typeName == c;
      assert Targets(cfg, name)[i] == c;
    }
  }

  lemma TargetConnected(cfg: Config, name: string, k: nat)
    requires k < |Targets(cfg, name)|
    ensures var t := Targets(cfg, name)[k];
            t in Declared(cfg) && (name in cfg.unions || !cfg.IsScalar(t)) <==> t in Connected(cfg, name)
  {
    if name !in cfg.unions {
      assert cfg.types[name].fields[k].typeName == Targets(cfg, name)[k];
    }
  }

  lemma ExploringDone(cfg: Config, name: string, before: set<string>, now: set<string>)
    requires Exploring(cfg, name, before, now) && Covered(cfg, name, |Targets(cfg, name)|, now)
    ensures Explored(cfg, name, before, now)
  {
    forall c | c in Connected(cfg, name) ensures c in now {
      TargetsCover(cfg, name, c);
    }
    forall x | x in now - before ensures Successors(ConnectionGraph(cfg), x) <= now {
      if x != name {
        assert x in now - before - {name};
      }
    }
  }

  lemma ExploringStarts(cfg: Config, name: string, before: set<string>)
    ensures name in Declared(cfg) ==> Exploring(cfg, name, before, before + {name})
    ensures name !in Declared(cfg) ==> Explored(cfg, name, before, before)
  {
    ReachesSelf(ConnectionGraph(cfg), name);
  }

  lemma {:induction false} VisitExplores(cfg: Config, name: string, types: set<string>, depth: nat)
    requires Visit(cfg, name, types, depth).Some?
    ensures Explored(cfg, name, types, Visit(cfg, name, types, depth).value)
    decreases depth, 0
  {
    ExploringStarts(cfg, name, types);
    if name in Declared(cfg) {
      var n := |Targets(cfg, name)|;
      VisitTargetsExplore(cfg, name, n, types, depth - 1);
      ExploringDone(cfg, name, types, VisitTargets(cfg, name, n, types + {name}, depth - 1).value);
    }
  }

  lemma {:induction false} VisitTargetsExplore(cfg: Config, name: string, n: nat, types: set<string>, depth: nat)
    requires n <= |Targets(cfg, name)| && name in Declared(cfg)
    requires VisitTargets(cfg, name, n, types + {name}, depth).Some?
    ensures Exploring(cfg, name, types, VisitTargets(cfg, name, n, types + {name}, depth).value)
    ensures Covered(cfg, name, n, VisitTargets(cfg, name, n, types + {name}, depth).value)
    decreases depth, n
  {
    if n == 0 {
      ExploringStarts(cfg, name, types);
    } else {
      VisitTargetsExplore(cfg, name, n - 1, types, depth);
      var known := VisitTargets(cfg, name, n - 1, types + {name}, depth).value;
      var after := VisitTargets(cfg, name, n, types + {name}, depth).value;
      var target := Targets(cfg, name)[n - 1];
      TargetConnected(cfg, name, n - 1);
      if Follows(cfg, name, target, known) {
        VisitExplores(cfg, target, known, depth);
        ExploringOn(cfg, name, target, types, known, after);
      }
      CoveredOn(cfg, name, n - 1, known, after);
    }
  }

  // ---------------------------------------------------------------------------------------------
  // It ends exactly without reachable cycles of unions

  /** How much of the schema a call has not seen yet. */
  ghost function Unseen(cfg: Config, name: string, types: set<string>): nat {
    |Declared(cfg) - (types + {name})|
  }

  ghost function Kind(cfg: Config, name: string): nat {
    if name in cfg.unions then 2 + Depth(UnionGraph(cfg), name) else if name in cfg.types then 1 else 0
  }

  lemma UnseenShrinks(cfg: Config, name: string, types: set<string>, next: string, more: set<string>)
    requires types + {name} <= more
    ensures Unseen(cfg, next, more) <= Unseen(cfg, name, types)
    ensures next in Declared(cfg) && next !in more ==> Unseen(cfg, next, more) < Unseen(cfg, name, types)
  {
    var small, large := Declared(cfg) - (more + {next}), Declared(cfg) - (types + {name});
    SubsetSize(small, large);
    assert next in Declared(cfg) && next !in more ==> next in large && next !in small;
  }

  lemma MemberKindShrinks(cfg: Config, name: string, member: string)
    requires name in cfg.unions && member in cfg.unions[name] && !OnCycle(UnionGraph(cfg), member)
    ensures Kind(cfg, member) < Kind(cfg, name)
  {
    if member in cfg.unions {
      DepthDrops(UnionGraph(cfg), name, member);
    }
  }

  /** The more is known, the less is entered. */
  lemma EndsOn(cfg: Config, name: string, types: set<string>, next: string, more: set<string>)
    requires Ends(cfg, name, types) && types <= more && next in Successors(EntryGraph(cfg, types), name)
    ensures Ends(cfg, next, more) && !OnCycle(UnionGraph(cfg), next)
  {
    forall u | Reaches(EntryGraph(cfg, more), next, u) ensures !OnCycle(UnionGraph(cfg), u) {
      ReachesInLarger(EntryGraph(cfg, more), EntryGraph(cfg, types), next, u);
      ReachesVia(EntryGraph(cfg, types), name, next, u);
    }
    ReachesSelf(EntryGraph(cfg, more), next);
  }

  lemma VisitGrows(cfg: Config, name: string, types: set<string>, depth: nat)
    requires Visit(cfg, name, types, depth).Some?
    ensures types <= Visit(cfg, name, types, depth).value
  {
    VisitExplores(cfg, name, types, depth);
  }

  /** What a call goes on to is smaller: it is new, or a union member of less depth. */
  lemma TargetIsSmaller(cfg: Config, name: string, types: set<string>, known: set<string>, k: nat)
    requires Ends(cfg, name, types) && types + {name} <= known && k < |Targets(cfg, name)|
    requires Follows(cfg, name, Targets(cfg, name)[k], known) && Targets(cfg, name)[k] in Declared(cfg)
    ensures var target := Targets(cfg, name)[k];
            && Ends(cfg, target, known)
            && (Unseen(cfg, target, known) < Unseen(cfg, name, types) ||
                (Unseen(cfg, target, known) == Unseen(cfg, name, types) && Kind(cfg, target) < Kind(cfg, name)))
  {
    var target := Targets(cfg, name)[k];
    TargetConnected(cfg, name, k);
    assert target in Successors(EntryGraph(cfg, types), name);
    hide EntryGraph, OnCycle, UnionGraph;
    EndsOn(cfg, name, types, target, known);
    UnseenShrinks(cfg, name, types, target, known);
    if name in cfg.unions { MemberKindShrinks(cfg, name, target); }
  }

  /** A bound for one more of the names that a call looks at. */
  lemma OneMoreTarget(cfg: Config, name: string, types: set<string>, k: nat, d: nat, next: nat) returns (deeper: nat)
    requires k < |Targets(cfg, name)| && VisitTargets(cfg, name, k, types, d).Some?
    requires var known := VisitTargets(cfg, name, k, types, d).value; var target := Targets(cfg, name)[k];
             types <= known && (Follows(cfg, name, target, known) ==> Visit(cfg, target, known, next).Some?)
    ensures VisitTargets(cfg, name, k + 1, types, deeper).Some?
    ensures types <= VisitTargets(cfg, name, k + 1, types, deeper).value
  {
    var known, target := VisitTargets(cfg, name, k, types, d).value, Targets(cfg, name)[k];
    deeper := if d < next then next else d;
    VisitTargetsDeeper(cfg, name, k, types, d, deeper);
    if Follows(cfg, name, target, known) {
      VisitDeeper(cfg, target, known, next, deeper);
      VisitGrows(cfg, target, known, deeper);
    }
  }

  /** Without a reachable cycle of unions some bound suffices. */
  lemma {:induction false} EnoughDepth(cfg: Config, name: string, types: set<string>) returns (depth: nat)
    requires Ends(cfg, name, types)
    ensures Visit(cfg, name, types, depth).Some?
    decreases Unseen(cfg, name, types), Kind(cfg, name), |Targets(cfg, name)| + 1
  {
    depth := 1;
    if name in Declared(cfg) {
      var d := EnoughDepthFor(cfg, name, |Targets(cfg, name)|, types);
      depth := d + 1;
    }
  }

  lemma {:induction false} EnoughDepthFor(cfg: Config, name: string, n: nat, types: set<string>) returns (depth: nat)
    requires Ends(cfg, name, types) && n <= |Targets(cfg, name)|
    ensures VisitTargets(cfg, name, n, types + {name}, depth).Some?
    ensures types + {name} <= VisitTargets(cfg, name, n, types + {name}, depth).value
    decreases Unseen(cfg, name, types), Kind(cfg, name), n
  {
    hide Ends, Kind, Unseen, Targets;
    depth := 0;
    if n > 0 {
      depth := EnoughDepthFor(cfg, name, n - 1, types);
      var known := VisitTargets(cfg, name, n - 1, types + {name}, depth).value;
      var target := Targets(cfg, name)[n - 1];
      var next := 1;
      if Follows(cfg, name, target, known) && target in Declared(cfg) {
        TargetIsSmaller(cfg, name, types, known, n - 1);
        next := EnoughDepth(cfg, target, known);
      }
      depth := OneMoreTarget(cfg, name, types + {name}, n - 1, depth, next);
    }
  }

  lemma {:induction false} EndlessTarget(cfg: Config, name: string, n: nat, types: set<string>, depth: nat, k: nat)
    requires k < n <= |Targets(cfg, name)| && name in cfg.unions
    requires forall known :: Visit(cfg, Targets(cfg, name)[k], known, depth).None?
    ensures VisitTargets(cfg, name, n, types, depth).None?
  {
    if k < n - 1 {
      EndlessTarget(cfg, name, n - 1, types, depth, k);
    }
  }

  /** A call for a union on a cycle never returns, whatever is known. */
  lemma {:induction false} CycleNeverEnds(cfg: Config, u: string, types: set<string>, depth: nat)
    requires OnCycle(UnionGraph(cfg), u)
    ensures Visit(cfg, u, types, depth).None?
    decreases depth
  {
    if depth > 0 {
      var d := depth - 1;
      var v := CycleGoesOn(UnionGraph(cfg), u);
      var k :| 0 <= k < |cfg.unions[u]| && cfg.unions[u][k] == v;
      hide OnCycle, UnionGraph;
      forall known: set<string> ensures Visit(cfg, v, known, d).None? {
        CycleNeverEnds(cfg, v, known, d);
      }
      EndlessTarget(cfg, u, |Targets(cfg, u)|, types + {u}, d, k);
    }
  }

  /** A union that is a member of itself. */
  function SelfUnion(): Config {
    Config(RootSchema(None, None, None), map[], map["U" := ["U"]], {})
  }

  lemma SelfUnionNeverEnds(types: set<string>, depth: nat)
    ensures Visit(SelfUnion(), "U", types, depth).None?
  {
    var g := UnionGraph(SelfUnion());
    assert SelfUnion().unions["U"] == ["U"];
    assert "U" in Successors(g, "U");
    ReachesSelf(g, "U");
    assert OnCycle(g, "U");
    CycleNeverEnds(SelfUnion(), "U", types, depth);
  }

  /** Some call for `name` returns. */
  ghost predicate Returns(cfg: Config, name: string) {
    exists types, depth :: Visit(cfg, name, types, depth).Some?
  }

  /**
    Half way through a call that has entered `entered`: calls for all of them returned, nothing else was added,
    and all but `name` itself have what they enter among them.
  */
  ghost predicate Entering(cfg: Config, name: string, types: set<string>, known: set<string>, entered: set<string>) {
    && name in entered && known - types <= entered
    && (forall x :: x in entered && x != name ==>
          Returns(cfg, x) && Successors(EntryGraph(cfg, types), x) <= entered)
  }

  lemma EnteringOn(cfg: Config, name: string, types: set<string>, known: set<string>, entered: set<string>,
                   target: string, after: set<string>, more: set<string>)
    requires Entering(cfg, name, types, known, entered) && types <= known
    requires Entering(cfg, target, known, after, more) && Returns(cfg, target)
    requires Successors(EntryGraph(cfg, known), target) <= more
    ensures Entering(cfg, name, types, after, entered + more)
  {
    forall x, s | x in entered + more && x != name && s in Successors(EntryGraph(cfg, types), x)
      ensures s in entered + more
    {
      if x !in entered && s !in Successors(EntryGraph(cfg, known), x) {
        assert s in known - types;
      }
    }
  }

  /** A call that returns has entered everything that can be entered from its name. */
  lemma {:induction false} ReturnedEverything(cfg: Config, name: string, types: set<string>, depth: nat)
    returns (entered: set<string>)
    requires Visit(cfg, name, types, depth).Some?
    ensures Entering(cfg, name, types, Visit(cfg, name, types, depth).value, entered)
    ensures Returns(cfg, name) && Successors(EntryGraph(cfg, types), name) <= entered
    decreases depth, 0
  {
    entered := {name};
    if name in Declared(cfg) {
      entered := ReturnedTargets(cfg, name, |Targets(cfg, name)|, types, depth - 1);
      forall s | s in Entered(cfg, name, types) ensures s in entered {
        TargetsCover(cfg, name, s);
      }
    }
  }

  lemma {:induction false} ReturnedTargets(cfg: Config, name: string, n: nat, types: set<string>, depth: nat)
    returns (entered: set<string>)
    requires n <= |Targets(cfg, name)| && VisitTargets(cfg, name, n, types + {name}, depth).Some?
    ensures types <= VisitTargets(cfg, name, n, types + {name}, depth).value
    ensures Entering(cfg, name, types, VisitTargets(cfg, name, n, types + {name}, depth).value, entered)
    ensures forall j :: 0 <= j < n && Targets(cfg, name)[j] in Entered(cfg, name, types) ==>
              Targets(cfg, name)[j] in entered
    decreases depth, n
  {
    entered := {name};
    if n > 0 {
      entered := ReturnedTargets(cfg, name, n - 1, types, depth);
      var known := VisitTargets(cfg, name, n - 1, types + {name}, depth).value;
      var target := Targets(cfg, name)[n - 1];
      TargetConnected(cfg, name, n - 1);
      hide EntryGraph, Returns, Targets, Connected, Declared;
      if Follows(cfg, name, target, known) {
        var more := ReturnedEverything(cfg, target, known, depth);
        VisitGrows(cfg, target, known, depth);
        EnteringOn(cfg, name, types, known, entered, target, Visit(cfg, target, known, depth).value, more);
        entered := entered + more;
      }
    }
  }

  lemma {:induction false} SomeSoFar(cfg: Config, name: string, n: nat, types: set<string>, depth: nat, i: nat)
    requires i <= n <= |Targets(cfg, name)| && VisitTargets(cfg, name, n, types, depth).Some?
    ensures VisitTargets(cfg, name, i, types, depth).Some?
  {
    if i < n {
      SomeSoFar(cfg, name, n - 1, types, depth, i);
    }
  }

  /** Some bound on the depth suffices exactly when no union on a cycle of unions can be entered. */
  lemma EndsExactly(cfg: Config, name: string, types: set<string>)
    ensures (exists depth :: Visit(cfg, name, types, depth).Some?) <==> Ends(cfg, name, types)
  {
    if Ends(cfg, name, types) {
      var depth := EnoughDepth(cfg, name, types);
    }
    if depth :| Visit(cfg, name, types, depth).Some? {
      var entered := ReturnedEverything(cfg, name, types, depth);
      var g := EntryGraph(cfg, types);
      assert Closed(g, entered);
      forall u | Reaches(g, name, u) ensures !OnCycle(UnionGraph(cfg), u) {
        ClosedHoldsReach(g, entered, name, u);
        var known, d :| Visit(cfg, u, known, d).Some?;
        if OnCycle(UnionGraph(cfg), u) {
          CycleNeverEnds(cfg, u, known, d);
        }
      }
    }
  }

  // ---------------------------------------------------------------------------------------------
  // The operations

  /** The recursion; `depth` bounds it and does nothing else. */
  method Walk(cfg: Config, typeOf: string, types: set<string>, ghost depth: nat) returns (r: set<string>)
    requires Visit(cfg, typeOf, types, depth).Some?
    ensures r == Visit(cfg, typeOf, types, depth).value
    decreases depth
  {
    r := types;
    if typeOf in cfg.unions {
      r := r + {typeOf};
      var members := cfg.unions[typeOf];
      for i := 0 to |members|
        invariant VisitTargets(cfg, typeOf, i, types + {typeOf}, depth - 1) == Some(r)
      {
        SomeSoFar(cfg, typeOf, |members|, types + {typeOf}, depth - 1, i + 1);
        r := Walk(cfg, members[i], r, depth - 1);
      }
    } else if typeOf in cfg.types {
      r := r + {typeOf};
      var fields := cfg.types[typeOf].fields;
      for i := 0 to |fields|
        invariant VisitTargets(cfg, typeOf, i, types + {typeOf}, depth - 1) == Some(r)
      {
        SomeSoFar(cfg, typeOf, |fields|, types + {typeOf}, depth - 1, i + 1);
        if fields[i].typeName !in r && !cfg.IsScalar(fields[i].typeName) {
          r := Walk(cfg, fields[i].typeName, r, depth - 1);
        }
      }
    } else if typeOf in cfg.enums {
      r := r + {typeOf};
    }
  }

  method FindConnections(cfg: Config, typeOf: string, types: set<string>) returns (r: set<string>)
    requires Ends(cfg, typeOf, types)
    ensures Explored(cfg, typeOf, types, r)
  {
    ghost var depth := EnoughDepth(cfg, typeOf, types);
    VisitExplores(cfg, typeOf, types, depth);
    r := Walk(cfg, typeOf, types, depth);
  }

  /** The declared names connected to `name`, itself included. */
  ghost function ConnectedTo(cfg: Config, name: string): set<string> {
    set x | x in Declared(cfg) && name in Declared(cfg) && Reaches(ConnectionGraph(cfg), name, x)
  }

  /** From a closed set, one exploration adds exactly what is connected, and the result is closed again. */
  lemma ExploredFromClosed(cfg: Config, name: string, before: set<string>, after: set<string>)
    requires Explored(cfg, name, before, after)
    requires Closed(ConnectionGraph(cfg), before)
    ensures after == before + ConnectedTo(cfg, name)
    ensures Closed(ConnectionGraph(cfg), after)
  {
    var g := ConnectionGraph(cfg);
    if name !in Declared(cfg) {
      UndeclaredAddsNothing(cfg, name, before, after);
    } else {
      assert Closed(g, after) by {
        forall a, b | a in after && b in Successors(g, a) ensures b in after {
        }
      }
      forall x | x in ConnectedTo(cfg, name) ensures x in after {
        ClosedHoldsReach(g, after, name, x);
      }
    }
  }

  lemma EndsWithMore(cfg: Config, name: string, types: set<string>)
    requires Ends(cfg, name, {})
    ensures Ends(cfg, name, types)
  {
    forall u | Reaches(EntryGraph(cfg, types), name, u) ensures !OnCycle(UnionGraph(cfg), u) {
      ReachesInLarger(EntryGraph(cfg, types), EntryGraph(cfg, {}), name, u);
    }
  }

  /** One exploration after the other, from nothing, with a bound on the depth of calls. */
  function VisitAll(cfg: Config, names: seq<string>, depth: nat): Option<set<string>> {
    if names == [] then Some({})
    else
      match VisitAll(cfg, names[..|names| - 1], depth)
      case None => None
      case Some(known) => Visit(cfg, names[|names| - 1], known, depth)
  }

  lemma {:induction false} VisitAllDeeper(cfg: Config, names: seq<string>, depth: nat, more: nat)
    requires VisitAll(cfg, names, depth).Some? && depth <= more
    ensures VisitAll(cfg, names, more) == VisitAll(cfg, names, depth)
  {
    if names != [] {
      var n := |names| - 1;
      VisitAllDeeper(cfg, names[..n], depth, more);
      VisitDeeper(cfg, names[n], VisitAll(cfg, names[..n], depth).value, depth, more);
    }
  }

  lemma {:induction false} EnoughDepthForAll(cfg: Config, names: seq<string>) returns (depth: nat)
    requires forall n :: n in names ==> Ends(cfg, n, {})
    ensures VisitAll(cfg, names, depth).Some?
  {
    depth := 0;
    if names != [] {
      var n := |names| - 1;
      var before := EnoughDepthForAll(cfg, names[..n]);
      var known := VisitAll(cfg, names[..n], before).value;
      EndsWithMore(cfg, names[n], known);
      var last := EnoughDepth(cfg, names[n], known);
      depth := if before < last then last else before;
      VisitAllDeeper(cfg, names[..n], before, depth);
      VisitDeeper(cfg, names[n], known, last, depth);
    }
  }

  /** What is known may be left out of the question if it ends itself and is closed. */
  lemma EndsWithLess(cfg: Config, name: string, known: set<string>)
    requires Ends(cfg, name, known) && Closed(ConnectionGraph(cfg), known)
    requires forall x :: x in known ==> Ends(cfg, x, {})
    ensures Ends(cfg, name, {})
  {
    var g, full := EntryGraph(cfg, known), EntryGraph(cfg, {});
    var seen := known + {name} + set x | x in Declared(cfg) && Reaches(g, name, x);
    forall a, b | a in seen && b in Successors(full, a) ensures b in seen {
      assert b in Successors(ConnectionGraph(cfg), a);
      if a !in known && b !in known {
        ReachesSelf(g, name);
        ReachesStep(g, name, a, b);
      }
    }
    forall u | Reaches(full, name, u) ensures !OnCycle(UnionGraph(cfg), u) {
      ClosedHoldsReach(full, seen, name, u);
      ReachesSelf(full, u);
      ReachesSelf(g, u);
      assert u in known ==> Ends(cfg, u, {});
    }
  }

  lemma {:induction false} AllEnded(cfg: Config, names: seq<string>, depth: nat)
    requires VisitAll(cfg, names, depth).Some?
    ensures forall n :: n in names ==> Ends(cfg, n, {})
    ensures Closed(ConnectionGraph(cfg), VisitAll(cfg, names, depth).value)
    ensures forall x :: x in VisitAll(cfg, names, depth).value ==> Ends(cfg, x, {})
  {
    if names != [] {
      var n := |names| - 1;
      var last, known := names[n], VisitAll(cfg, names[..n], depth).value;
      AllEnded(cfg, names[..n], depth);
      assert Visit(cfg, last, known, depth).Some?;
      EndsExactly(cfg, last, known);
      EndsWithLess(cfg, last, known);
      VisitExplores(cfg, last, known, depth);
      ExploredFromClosed(cfg, last, known, Visit(cfg, last, known, depth).value);
      forall x | x in ConnectedTo(cfg, last) ensures Ends(cfg, x, {}) {
        EndsFurther(cfg, last, x);
      }
      assert names == names[..n] + [last];
    }
  }

  lemma EndsFurther(cfg: Config, name: string, x: string)
    requires Ends(cfg, name, {}) && Reaches(ConnectionGraph(cfg), name, x)
    ensures Ends(cfg, x, {})
  {
    ReachesInLarger(ConnectionGraph(cfg), EntryGraph(cfg, {}), name, x);
    forall u | Reaches(EntryGraph(cfg, {}), x, u) ensures !OnCycle(UnionGraph(cfg), u) {
      ReachesTransitive(EntryGraph(cfg, {}), name, x, u);
    }
  }

  /** The whole sequence ends exactly when each of its names does on its own, so the order makes no difference. */
  lemma AllEndExactly(cfg: Config, names: seq<string>)
    ensures (exists depth :: VisitAll(cfg, names, depth).Some?) <==> forall n :: n in names ==> Ends(cfg, n, {})
  {
    if forall n :: n in names ==> Ends(cfg, n, {}) {
      var depth := EnoughDepthForAll(cfg, names);
    }
    if depth :| VisitAll(cfg, names, depth).Some? {
      AllEnded(cfg, names, depth);
    }
  }

  // ---------------------------------------------------------------------------------------------
  // The same in the terms of the configuration alone

  predicate IsDeclared(cfg: Config, name: string) {
    name in cfg.unions || name in cfg.types || name in cfg.enums
  }

  /** A declared type without fields, or a predefined name that is not a declared type. */
  predicate HasNoFields(cfg: Config, name: string) {
    if name in cfg.types then cfg.types[name].fields == [] else name in PREDEFINED_SCALARS
  }

  /** A member of the union `a`, or the type of a field of the type `a`, scalars left out. */
  ghost predicate Connects(cfg: Config, a: string, b: string) {
    && IsDeclared(cfg, b)
    && if a in cfg.unions then b in cfg.unions[a]
       else a in cfg.types && !HasNoFields(cfg, b) && exists f :: f in cfg.types[a].fields && f.typeName == b
  }

  ghost predicate IsConnection(cfg: Config, path: seq<string>) {
    && path != [] && IsDeclared(cfg, path[0])
    && forall j :: 0 < j < |path| ==> Connects(cfg, path[j - 1], path[j])
  }

  lemma SuccessorsConnect(cfg: Config, a: string, b: string)
    ensures b in Successors(ConnectionGraph(cfg), a) <==> Connects(cfg, a, b)
  {
    if a !in cfg.unions && a in cfg.types {
      if f :| f in cfg.types[a].fields && f.typeName == b {
        assert IsDeclared(cfg, b) && !HasNoFields(cfg, b) ==> b in Connected(cfg, a);
      }
    }
  }

  lemma ConnectionsArePaths(cfg: Config, path: seq<string>)
    requires path != []
    ensures IsConnection(cfg, path) <==> path[0] in Declared(cfg) && IsPath(ConnectionGraph(cfg), path)
  {
    forall a, b ensures b in Successors(ConnectionGraph(cfg), a) <==> Connects(cfg, a, b) {
      SuccessorsConnect(cfg, a, b);
    }
    hide Connects, ConnectionGraph, Successors;
  }

  lemma {:induction false} PathStaysDeclared(cfg: Config, path: seq<string>)
    requires IsConnection(cfg, path)
    ensures IsDeclared(cfg, path[|path| - 1])
  {
    if |path| > 1 {
      assert Connects(cfg, path[|path| - 2], path[|path| - 1]);
    }
  }

  /** Connected is what a path of members and fields leads to. */
  lemma ConnectedMeaning(cfg: Config, name: string, x: string)
    ensures x in ConnectedTo(cfg, name) <==>
            exists path :: IsConnection(cfg, path) && path[0] == name && path[|path| - 1] == x
  {
    if x in ConnectedTo(cfg, name) {
      var path :| IsPath(ConnectionGraph(cfg), path) && path[0] == name && path[|path| - 1] == x;
      ConnectionsArePaths(cfg, path);
    }
    if path :| IsConnection(cfg, path) && path[0] == name && path[|path| - 1] == x {
      ConnectionsArePaths(cfg, path);
      PathStaysDeclared(cfg, path);
      assert Reaches(ConnectionGraph(cfg), name, x);
    }
  }

  /** Some field of some declared type takes an argument of type `a`. */
  ghost predicate IsArgument(cfg: Config, a: string) {
    exists n, f :: n in cfg.types && f in cfg.types[n].fields && a in f.args
  }

  /** Connected to the type of some argument that is not a scalar. */
  ghost predicate IsInput(cfg: Config, x: string) {
    exists path :: IsConnection(cfg, path) && path[|path| - 1] == x &&
                   IsArgument(cfg, path[0]) && !HasNoFields(cfg, path[0])
  }

  /** Connected to one of the operation roots. */
  ghost predicate IsOutput(cfg: Config, x: string) {
    exists path :: IsConnection(cfg, path) && path[|path| - 1] == x && IsRoot(cfg, path[0])
  }

  predicate IsRoot(cfg: Config, name: string) {
    || cfg.schema.query == Some(name)
    || cfg.schema.mutation == Some(name)
    || cfg.schema.subscription == Some(name)
  }

  /** The type names of all arguments, in some order. */
  function ArgumentTypes(cfg: Config): set<string> {
    set n, f, a | n in cfg.types && f in cfg.types[n].fields && a in f.args :: a
  }

  ghost function ConnectedToAny(cfg: Config, names: set<string>): set<string> {
    set x | x in Declared(cfg) && exists n :: n in names && x in ConnectedTo(cfg, n)
  }

  lemma ConnectedToOneMore(cfg: Config, names: set<string>, name: string)
    ensures ConnectedToAny(cfg, names + {name}) == ConnectedToAny(cfg, names) + ConnectedTo(cfg, name)
  {
  }

  lemma InputMeaning(cfg: Config, x: string)
    ensures x in ConnectedToAny(cfg, set a | a in ArgumentTypes(cfg) && !cfg.IsScalar(a)) <==> IsInput(cfg, x)
  {
    var names := set a | a in ArgumentTypes(cfg) && !cfg.IsScalar(a);
    forall a ensures a in names <==> IsArgument(cfg, a) && !HasNoFields(cfg, a) {
    }
    hide IsArgument, HasNoFields;
    if x in ConnectedToAny(cfg, names) {
      var a :| a in names && x in ConnectedTo(cfg, a);
      ConnectedMeaning(cfg, a, x);
    }
    if path :| IsConnection(cfg, path) && path[|path| - 1] == x && IsArgument(cfg, path[0]) &&
               !HasNoFields(cfg, path[0]) {
      ConnectedMeaning(cfg, path[0], x);
    }
  }

  lemma OutputMeaning(cfg: Config, x: string)
    ensures x in ConnectedToAny(cfg, set r | r in cfg.Roots()) <==> IsOutput(cfg, x)
  {
    var names := set r | r in cfg.Roots();
    forall r ensures r in names <==> IsRoot(cfg, r) {
      RootsMeaning(cfg, r);
    }
    hide IsRoot;
    if x in ConnectedToAny(cfg, names) {
      var r :| r in names && x in ConnectedTo(cfg, r);
      ConnectedMeaning(cfg, r, x);
    }
    if path :| IsConnection(cfg, path) && path[|path| - 1] == x && IsRoot(cfg, path[0]) {
      ConnectedMeaning(cfg, path[0], x);
    }
  }

  /** Folds over the arguments in an arbitrary order; the result does not depend on it. */
  method InputTypes(cfg: Config) returns (types: set<string>)
    requires forall a :: a in ArgumentTypes(cfg) && !cfg.IsScalar(a) ==> Ends(cfg, a, {})
    ensures types == ConnectedToAny(cfg, set a | a in ArgumentTypes(cfg) && !cfg.IsScalar(a))
    ensures forall x :: x in types <==> IsInput(cfg, x)
  {
    var all := set a | a in ArgumentTypes(cfg) && !cfg.IsScalar(a);
    var todo := all;
    types := {};
    while todo != {}
      invariant todo <= all
      invariant Closed(ConnectionGraph(cfg), types)
      invariant types == ConnectedToAny(cfg, all - todo)
      decreases todo
    {
      var a :| a in todo;
      EndsWithMore(cfg, a, types);
      var next := FindConnections(cfg, a, types);
      ExploredFromClosed(cfg, a, types, next);
      ConnectedToOneMore(cfg, all - todo, a);
      assert all - (todo - {a}) == (all - todo) + {a};
      types, todo := next, todo - {a};
    }
    assert all - {} == all;
    forall x ensures x in types <==> IsInput(cfg, x) {
      InputMeaning(cfg, x);
    }
  }

  method OutputTypes(cfg: Config) returns (types: set<string>)
    requires forall r :: r in cfg.Roots() ==> Ends(cfg, r, {})
    ensures types == ConnectedToAny(cfg, set r | r in cfg.Roots())
    ensures forall x :: x in types <==> IsOutput(cfg, x)
  {
    var roots := cfg.Roots();
    ghost var seen: set<string> := {};
    types := {};
    for i := 0 to |roots|
      invariant Closed(ConnectionGraph(cfg), types)
      invariant seen == set r | r in roots[..i]
      invariant types == ConnectedToAny(cfg, seen)
    {
      EndsWithMore(cfg, roots[i], types);
      var next := FindConnections(cfg, roots[i], types);
      ExploredFromClosed(cfg, roots[i], types, next);
      ConnectedToOneMore(cfg, seen, roots[i]);
      assert roots[..i + 1] == roots[..i] + [roots[i]];
      types, seen := next, seen + {roots[i]};
    }
    assert roots[..|roots|] == roots;
    forall x ensures x in types <==> IsOutput(cfg, x) {
      OutputMeaning(cfg, x);
    }
  }
}
