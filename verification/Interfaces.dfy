/**
  For every interface, the types that implement it through any number of interfaces and that nothing
  implements in turn. The computation shares one memo table between all interfaces. It needs an
  `implements` relation without cycles (section 3.7 of the GraphQL specification, October 2021).
*/
module Interfaces {
  import opened SchemaConfig
  import opened Options
  import opened Sequences
  import opened Reachability
  import opened Acyclicity

  function ImplementedNames(cfg: Config): set<string> {
    set t, i | t in cfg.types && i in cfg.types[t].implements :: i
  }

  /** From every implemented name to the types that list it. */
  function Implementers(cfg: Config): Graph {
    map i | i in ImplementedNames(cfg) :: set t | t in cfg.types && i in cfg.types[t].implements
  }

  /** What can be reached from `i` and is not itself implemented by anything. */
  ghost function Leaves(g: Graph, i: string): set<string> {
    set j, t | j in g && t in g[j] && Reaches(g, i, t) && t !in g :: t
  }

  /** One level of the recursion: members that nothing implements stay, the others become their leaves. */
  ghost function Merged(g: Graph, names: set<string>): set<string> {
    (names - g.Keys) + set j, t | j in names && j in g && t in Leaves(g, j) :: t
  }

  lemma LeavesAreMerged(g: Graph, i: string)
    requires i in g
    ensures Leaves(g, i) == Merged(g, g[i])
  {
    forall t | t in Leaves(g, i) ensures t in Merged(g, g[i]) {
      var j := ReachesThroughSuccessor(g, i, t);
      if j in g {
        assert t in Leaves(g, j);
      } else if j != t {
        var k := ReachesThroughSuccessor(g, j, t);
      }
    }
    forall t | t in Merged(g, g[i]) ensures t in Leaves(g, i) {
      if t in g[i] - g.Keys {
        ReachesSelf(g, t);
        ReachesVia(g, i, t, t);
      } else {
        var j :| j in g[i] && j in g && t in Leaves(g, j);
        ReachesVia(g, i, j, t);
      }
    }
  }

  lemma MembersAreSmaller(g: Graph, i: string)
    requires i in g && CycleFree(g, i)
    ensures forall t :: t in g[i] ==> CycleFree(g, t) && Depth(g, t) < Depth(g, i)
  {
    forall t | t in g[i] ensures CycleFree(g, t) && Depth(g, t) < Depth(g, i) {
      CycleFreeBelow(g, i, t);
      DepthDrops(g, i, t);
    }
  }

  // ---------------------------------------------------------------------------------------------
  // When the computation ends

  /**
    The names in the memo table after merging some names in order, with a bound on the depth of calls; `None`
    when the bound does not suffice. `members` lists what implements a name, in the order of the visits.
  */
  function Visit(members: map<string, seq<string>>, names: seq<string>, memo: set<string>, depth: nat):
    Option<set<string>>
    decreases depth, |names|
  {
    if names == [] then Some(memo)
    else
      var n := |names| - 1;
      match Visit(members, names[..n], memo, depth)
      case None => None
      case Some(known) =>
        if names[n] !in members || names[n] in known then Some(known)
        else if depth == 0 then None
        else
          match Visit(members, members[names[n]], known, depth - 1)
          case None => None
          case Some(more) => Some(more + {names[n]})
  }

  lemma {:induction false} VisitDeeper(members: map<string, seq<string>>, names: seq<string>, memo: set<string>,
                                       depth: nat, more: nat)
    requires Visit(members, names, memo, depth).Some? && depth <= more
    ensures Visit(members, names, memo, more) == Visit(members, names, memo, depth)
    decreases depth, |names|
  {
    if names != [] {
      var n := |names| - 1;
      VisitDeeper(members, names[..n], memo, depth, more);
      var known := Visit(members, names[..n], memo, depth).value;
      if names[n] in members && names[n] !in known {
        VisitDeeper(members, members[names[n]], known, depth - 1, more - 1);
      }
    }
  }

  /** Without cycles below the names some bound suffices. */
  lemma {:induction false} EnoughDepth(members: map<string, seq<string>>, names: seq<string>, memo: set<string>,
                                       bound: nat) returns (depth: nat)
    requires forall t :: t in names ==> CycleFree(AsGraph(members), t) && Depth(AsGraph(members), t) < bound
    ensures Visit(members, names, memo, depth).Some?
    decreases bound, |names|
  {
    depth := 0;
    if names != [] {
      var n := |names| - 1;
      var before := EnoughDepth(members, names[..n], memo, bound);
      var known := Visit(members, names[..n], memo, before).value;
      depth := before;
      if names[n] in members && names[n] !in known {
        assert names[n] in names;
        MembersAreSmaller(AsGraph(members), names[n]);
        var inner := EnoughDepth(members, members[names[n]], known, Depth(AsGraph(members), names[n]));
        depth := if before < inner + 1 then inner + 1 else before;
        VisitDeeper(members, names[..n], memo, before, depth);
        VisitDeeper(members, members[names[n]], known, inner, depth - 1);
      }
    }
  }

  /** What gets into the memo table has no cycle below it, and neither has any of the names. */
  lemma {:induction false} EndedWithoutCycles(members: map<string, seq<string>>, names: seq<string>,
                                              memo: set<string>, depth: nat)
    requires Visit(members, names, memo, depth).Some?
    requires forall t :: t in memo ==> CycleFree(AsGraph(members), t)
    ensures forall t :: t in names || t in Visit(members, names, memo, depth).value ==> CycleFree(AsGraph(members), t)
    decreases depth, |names|
  {
    if names != [] {
      var n := |names| - 1;
      EndedWithoutCycles(members, names[..n], memo, depth);
      var known := Visit(members, names[..n], memo, depth).value;
      if names[n] in members && names[n] !in known {
        EndedWithoutCycles(members, members[names[n]], known, depth - 1);
      }
      if names[n] !in known {
        CycleFreeAbove(AsGraph(members), names[n]);
      }
      assert names == names[..n] + [names[n]];
    }
  }

  /** From an empty memo table some bound suffices exactly when no cycle can be reached from the names. */
  lemma EndsExactly(members: map<string, seq<string>>, names: seq<string>)
    ensures (exists depth :: Visit(members, names, {}, depth).Some?) <==>
            forall t :: t in names ==> CycleFree(AsGraph(members), t)
  {
    if forall t :: t in names ==> CycleFree(AsGraph(members), t) {
      var bound := LargestDepth(AsGraph(members), names);
      var depth := EnoughDepth(members, names, {}, bound);
    }
    if depth :| Visit(members, names, {}, depth).Some? {
      EndedWithoutCycles(members, names, {}, depth);
    }
  }

  lemma {:induction false} LargestDepth(g: Graph, names: seq<string>) returns (bound: nat)
    ensures forall t :: t in names ==> Depth(g, t) < bound
  {
    bound := 0;
    if names != [] {
      var n := |names| - 1;
      bound := LargestDepth(g, names[..n]);
      bound := if bound <= Depth(g, names[n]) then Depth(g, names[n]) + 1 else bound;
      assert names == names[..n] + [names[n]];
    }
  }

  /** One interface after the other, with one memo table for all of them. */
  function VisitAll(members: map<string, seq<string>>, interfaces: seq<string>, depth: nat): Option<set<string>>
    requires forall i :: i in interfaces ==> i in members
  {
    if interfaces == [] then Some({})
    else
      var n := |interfaces| - 1;
      match VisitAll(members, interfaces[..n], depth)
      case None => None
      case Some(known) => Visit(members, members[interfaces[n]], known, depth)
  }

  lemma {:induction false} VisitAllDeeper(members: map<string, seq<string>>, interfaces: seq<string>,
                                          depth: nat, more: nat)
    requires forall i :: i in interfaces ==> i in members
    requires VisitAll(members, interfaces, depth).Some? && depth <= more
    ensures VisitAll(members, interfaces, more) == VisitAll(members, interfaces, depth)
  {
    if interfaces != [] {
      var n := |interfaces| - 1;
      VisitAllDeeper(members, interfaces[..n], depth, more);
      var known := VisitAll(members, interfaces[..n], depth).value;
      VisitDeeper(members, members[interfaces[n]], known, depth, more);
    }
  }

  lemma {:induction false} EnoughDepthForAll(members: map<string, seq<string>>, interfaces: seq<string>)
    returns (depth: nat)
    requires forall i :: i in interfaces ==> i in members && CycleFree(AsGraph(members), i)
    ensures VisitAll(members, interfaces, depth).Some?
  {
    depth := 0;
    if interfaces != [] {
      var n := |interfaces| - 1;
      var last := interfaces[n];
      var before := EnoughDepthForAll(members, interfaces[..n]);
      var known := VisitAll(members, interfaces[..n], before).value;
      MembersAreSmaller(AsGraph(members), last);
      var inner := EnoughDepth(members, members[last], known, Depth(AsGraph(members), last));
      depth := if before < inner then inner else before;
      VisitAllDeeper(members, interfaces[..n], before, depth);
      VisitDeeper(members, members[last], known, inner, depth);
    }
  }

  lemma {:induction false} AllEnded(members: map<string, seq<string>>, interfaces: seq<string>, depth: nat)
    requires forall i :: i in interfaces ==> i in members
    requires VisitAll(members, interfaces, depth).Some?
    ensures forall i :: i in interfaces || i in VisitAll(members, interfaces, depth).value ==>
              CycleFree(AsGraph(members), i)
  {
    if interfaces != [] {
      var n := |interfaces| - 1;
      var last, known := interfaces[n], VisitAll(members, interfaces[..n], depth).value;
      AllEnded(members, interfaces[..n], depth);
      EndedWithoutCycles(members, members[last], known, depth);
      CycleFreeAbove(AsGraph(members), last);
      assert interfaces == interfaces[..n] + [last];
    }
  }

  /** The whole map ends, whatever the order, exactly when no interface reaches a cycle. */
  lemma AllEndExactly(members: map<string, seq<string>>, interfaces: seq<string>)
    requires forall i :: i in interfaces ==> i in members
    ensures (exists depth :: VisitAll(members, interfaces, depth).Some?) <==>
            forall i :: i in interfaces ==> CycleFree(AsGraph(members), i)
  {
    if forall i :: i in interfaces ==> CycleFree(AsGraph(members), i) {
      var depth := EnoughDepthForAll(members, interfaces);
    }
    if depth :| VisitAll(members, interfaces, depth).Some? {
      AllEnded(members, interfaces, depth);
    }
  }

  lemma {:induction false} SomeSoFar(members: map<string, seq<string>>, names: seq<string>, memo: set<string>,
                                     depth: nat, n: nat)
    requires n <= |names| && Visit(members, names, memo, depth).Some?
    ensures Visit(members, names[..n], memo, depth).Some?
    decreases |names|
  {
    if n < |names| {
      SomeSoFar(members, names[..|names| - 1], memo, depth, n);
      assert names[..|names| - 1][..n] == names[..n];
    } else {
      WholePrefix(names);
    }
  }

  lemma {:induction false} AllSoFar(members: map<string, seq<string>>, interfaces: seq<string>, depth: nat, n: nat)
    requires forall i :: i in interfaces ==> i in members
    requires n <= |interfaces| && VisitAll(members, interfaces, depth).Some?
    ensures VisitAll(members, interfaces[..n], depth).Some?
    decreases |interfaces|
  {
    if n < |interfaces| {
      AllSoFar(members, interfaces[..|interfaces| - 1], depth, n);
      assert interfaces[..|interfaces| - 1][..n] == interfaces[..n];
    } else {
      WholePrefix(interfaces);
    }
  }

  /** A type that implements itself. */
  function SelfImplementing(): Config {
    Config(RootSchema(None, None, None), map["T" := Type([], ["T"])], map[], {})
  }

  lemma SelfImplementingNeverEnds(depth: nat)
    ensures Implementers(SelfImplementing()) == AsGraph(map["T" := ["T"]])
    ensures VisitAll(map["T" := ["T"]], ["T"], depth).None?
  {
    var members := map["T" := ["T"]];
    var g := AsGraph(members);
    var cfg := SelfImplementing();
    assert cfg.types["T"].implements == ["T"];
    assert "T" in cfg.types && "T" in cfg.types["T"].implements;
    assert ImplementedNames(cfg) == {"T"};
    assert g["T"] == {"T"};
    assert Implementers(cfg)["T"] == {"T"};
    assert "T" in Successors(g, "T");
    ReachesSelf(g, "T");
    assert OnCycle(g, "T") && !CycleFree(g, "T");
    AllEndExactly(members, ["T"]);
    assert "T" in ["T"];
  }

  // ---------------------------------------------------------------------------------------------
  // The computation

  /** Every entry of the memo table is final from the moment it is there. */
  ghost predicate Final(g: Graph, memo: map<string, set<string>>) {
    forall i :: i in memo ==> i in g && memo[i] == Leaves(g, i)
  }

  lemma MergedOneMore(g: Graph, names: seq<string>, n: nat)
    requires n < |names|
    ensures Merged(g, ToSet(names[..n + 1])) ==
            Merged(g, ToSet(names[..n])) + (if names[n] in g then Leaves(g, names[n]) else {names[n]})
  {
    PrefixGrows(names, n);
    assert ToSet(names[..n + 1]) == ToSet(names[..n]) + {names[n]};
  }

  /** What one more name adds to the visit. */
  lemma VisitOneMore(members: map<string, seq<string>>, names: seq<string>, memo: set<string>, depth: nat, n: nat)
    requires n < |names| && Visit(members, names[..n], memo, depth).Some?
    requires Visit(members, names[..n + 1], memo, depth).Some?
    ensures var known := Visit(members, names[..n], memo, depth).value;
            if names[n] !in members || names[n] in known then Visit(members, names[..n + 1], memo, depth) == Some(known)
            else
              && depth > 0 && Visit(members, members[names[n]], known, depth - 1).Some?
              && Visit(members, names[..n + 1], memo, depth) ==
                 Some(Visit(members, members[names[n]], known, depth - 1).value + {names[n]})
  {
    assert names[..n + 1][..n] == names[..n];
  }

  /**
    Merges what is below some names, in their order; the memo table gets the names that the bounded visit says.
    `depth` bounds the recursion and does nothing else.
  */
  method MergeInterfaceTypes(names: seq<string>, members: map<string, seq<string>>, memo: map<string, set<string>>,
                             ghost depth: nat)
    returns (merged: set<string>, memo': map<string, set<string>>)
    requires Final(AsGraph(members), memo) && Visit(members, names, memo.Keys, depth).Some?
    ensures merged == Merged(AsGraph(members), ToSet(names))
    ensures Final(AsGraph(members), memo') && memo'.Keys == Visit(members, names, memo.Keys, depth).value
    decreases depth, 1
  {
    merged, memo' := {}, memo;
    assert Merged(AsGraph(members), ToSet(names[..0])) == {};
    hide Leaves, Merged, Final;
    for i := 0 to |names|
      invariant merged == Merged(AsGraph(members), ToSet(names[..i]))
      invariant Final(AsGraph(members), memo')
      invariant Visit(members, names[..i], memo.Keys, depth) == Some(memo'.Keys)
    {
      MergedOneMore(AsGraph(members), names, i);
      SomeSoFar(members, names, memo.Keys, depth, i + 1);
      VisitOneMore(members, names, memo.Keys, depth, i);
      var types;
      types, memo' := TypesBelow(names[i], members, memo', depth);
      merged := merged + types;
    }
    WholePrefix(names);
  }

  /** What one name contributes: itself, its entry in the memo table, or a new entry. */
  method TypesBelow(name: string, members: map<string, seq<string>>, memo: map<string, set<string>>, ghost depth: nat)
    returns (types: set<string>, memo': map<string, set<string>>)
    requires Final(AsGraph(members), memo)
    requires name in members && name !in memo ==>
               depth > 0 && Visit(members, members[name], memo.Keys, depth - 1).Some?
    ensures types == if name in members then Leaves(AsGraph(members), name) else {name}
    ensures Final(AsGraph(members), memo')
    ensures memo'.Keys == if name in members && name !in memo
                          then Visit(members, members[name], memo.Keys, depth - 1).value + {name} else memo.Keys
    decreases depth, 0
  {
    memo' := memo;
    if name in members && name !in memo {
      LeavesAreMerged(AsGraph(members), name);
      types, memo' := MergeInterfaceTypes(members[name], members, memo, depth - 1);
      memo' := memo'[name := types];
    } else if name in members {
      types := memo[name];
    } else {
      types := {name};
    }
  }

  /** Type `t` names `i` in its `implements` clause, in whatever place. */
  ghost predicate Lists(cfg: Config, t: string, i: string) {
    t in cfg.types && i in cfg.types[t].implements
  }

  ghost predicate IsImplemented(cfg: Config, i: string) {
    exists t :: Lists(cfg, t, i)
  }

  /** The graph has an entry for every implemented name, with all types that list it. */
  lemma ImplementersMeaning(cfg: Config)
    ensures forall i :: i in Implementers(cfg) <==> IsImplemented(cfg, i)
    ensures forall i, t :: t in Successors(Implementers(cfg), i) <==> Lists(cfg, t, i)
  {
    forall i ensures i in Implementers(cfg) <==> IsImplemented(cfg, i) {
      if i in Implementers(cfg) {
        var t :| t in cfg.types && i in cfg.types[t].implements;
        assert Lists(cfg, t, i);
      }
      if t :| Lists(cfg, t, i) {
        assert i in ImplementedNames(cfg);
      }
    }
    forall i, t ensures t in Successors(Implementers(cfg), i) <==> Lists(cfg, t, i) {
      if Lists(cfg, t, i) {
        assert i in ImplementedNames(cfg);
      }
    }
  }

  /** Inverts the `implements` lists, one type and one interface at a time. */
  method BuildImplementers(cfg: Config) returns (g: Graph)
    ensures g == Implementers(cfg)
    ensures forall i :: i in g <==> IsImplemented(cfg, i)
    ensures forall i, t :: t in Successors(g, i) <==> Lists(cfg, t, i)
  {
    ImplementersMeaning(cfg);
    g := map[];
    var todo := cfg.types.Keys;
    while todo != {}
      invariant todo <= cfg.types.Keys
      invariant forall i :: i in g ==> g[i] != {}
      invariant forall i, t :: t in Successors(g, i) <==> Lists(cfg, t, i) && t !in todo
      decreases todo
    {
      var t :| t in todo;
      todo := todo - {t};
      var implements := cfg.types[t].implements;
      for n := 0 to |implements|
        invariant forall i :: i in g ==> g[i] != {}
        invariant forall i, u :: u in Successors(g, i) <==>
                    (Lists(cfg, u, i) && u !in todo && u != t) || (u == t && i in implements[..n])
      {
        var i := implements[n];
        assert implements[..n + 1] == implements[..n] + [i];
        assert forall x :: x in implements[..n + 1] <==> x in implements[..n] || x == i;
        ghost var before := g;
        g := g[i := Successors(g, i) + {t}];
        assert forall j :: Successors(g, j) == if j == i then Successors(before, i) + {t} else Successors(before, j);
      }
      assert implements[..|implements|] == implements;
    }
    forall i ensures i in g <==> i in Implementers(cfg) {
      if i in g {
        var t :| t in g[i];
        assert t in Successors(g, i);
      }
      if i in Implementers(cfg) {
        var t :| Lists(cfg, t, i);
        assert t in Successors(g, i);
      }
    }
    forall i | i in g ensures g[i] == Implementers(cfg)[i] {
      assert forall t :: t in g[i] <==> t in Successors(g, i) && t in Successors(Implementers(cfg), i);
      assert forall t :: t in Implementers(cfg)[i] <==> t in Successors(Implementers(cfg), i);
    }
  }

  /** The members of a set, in some order. */
  method Listed(names: set<string>) returns (list: seq<string>)
    ensures ToSet(list) == names
  {
    list := [];
    var todo := names;
    while todo != {}
      invariant todo <= names && ToSet(list) == names - todo
      decreases todo
    {
      var name :| name in todo;
      ToSetOfBoth(list, [name]);
      assert ToSet([name]) == {name};
      list, todo := list + [name], todo - {name};
    }
  }

  method ListedMembers(g: Graph) returns (members: map<string, seq<string>>)
    ensures AsGraph(members) == g
  {
    members := map[];
    var todo := g.Keys;
    while todo != {}
      invariant todo <= g.Keys && members.Keys == g.Keys - todo
      invariant forall i :: i in members ==> ToSet(members[i]) == g[i]
      decreases todo
    {
      var i :| i in todo;
      var list := Listed(g[i]);
      members, todo := members[i := list], todo - {i};
    }
  }

  lemma AllOneMore(members: map<string, seq<string>>, interfaces: seq<string>, depth: nat, n: nat)
    requires forall i :: i in interfaces ==> i in members
    requires n < |interfaces| && VisitAll(members, interfaces[..n], depth).Some?
    ensures VisitAll(members, interfaces[..n + 1], depth) ==
            Visit(members, members[interfaces[n]], VisitAll(members, interfaces[..n], depth).value, depth)
  {
    assert interfaces[..n + 1][..n] == interfaces[..n];
  }

  /** The loop over all interfaces with its memo table. */
  method MapAll(interfaces: seq<string>, members: map<string, seq<string>>, ghost depth: nat)
    returns (m: map<string, set<string>>)
    requires forall i :: i in interfaces ==> i in members
    requires VisitAll(members, interfaces, depth).Some?
    ensures m.Keys == ToSet(interfaces)
    ensures forall i :: i in m ==> i in members && m[i] == Leaves(AsGraph(members), i)
  {
    m := map[];
    var memo: map<string, set<string>> := map[];
    assert VisitAll(members, interfaces[..0], depth) == Some({}) && memo.Keys == {};
    assert ToSet(interfaces[..0]) == {};
    hide Leaves, Merged;
    for k := 0 to |interfaces|
      invariant m.Keys == ToSet(interfaces[..k])
      invariant forall i :: i in m ==> i in members && m[i] == Leaves(AsGraph(members), i)
      invariant Final(AsGraph(members), memo)
      invariant VisitAll(members, interfaces[..k], depth) == Some(memo.Keys)
    {
      var i := interfaces[k];
      AllSoFar(members, interfaces, depth, k + 1);
      AllOneMore(members, interfaces, depth, k);
      LeavesAreMerged(AsGraph(members), i);
      var merged;
      merged, memo := MergeInterfaceTypes(members[i], members, memo, depth);
      KeysWithOneMore(m, interfaces, k, merged);
      m := m[i := merged];
    }
    WholePrefix(interfaces);
  }

  lemma KeysWithOneMore(m: map<string, set<string>>, interfaces: seq<string>, k: nat, types: set<string>)
    requires k < |interfaces| && m.Keys == ToSet(interfaces[..k])
    ensures m[interfaces[k] := types].Keys == ToSet(interfaces[..k + 1])
  {
    PrefixGrows(interfaces, k);
    ToSetOfBoth(interfaces[..k], [interfaces[k]]);
  }

  lemma ReachedAsSuccessor(g: Graph, a: string, c: string)
    requires Reaches(g, a, c) && a != c
    ensures exists b :: b in g && c in g[b]
  {
    var path :| IsPath(g, path) && path[0] == a && path[|path| - 1] == c;
    assert c in Successors(g, path[|path| - 2]);
  }

  /** A chain of `implements` clauses: every name on the path is listed by the type behind it. */
  ghost predicate IsChain(cfg: Config, path: seq<string>) {
    |path| > 1 && forall j :: 0 < j < |path| ==> Lists(cfg, path[j], path[j - 1])
  }

  /** Type `t` implements `i` directly or through other interfaces. */
  ghost predicate ImplementsThrough(cfg: Config, i: string, t: string) {
    exists path :: IsChain(cfg, path) && path[0] == i && path[|path| - 1] == t
  }

  lemma ChainsArePaths(cfg: Config, path: seq<string>)
    requires |path| > 1
    ensures IsChain(cfg, path) <==> IsPath(Implementers(cfg), path)
  {
    ImplementersMeaning(cfg);
  }

  /** In the terms of the schema alone: a chain up to the interface, from a type that nothing implements. */
  lemma LeavesMeaning(cfg: Config, i: string, t: string)
    requires IsImplemented(cfg, i)
    ensures t in Leaves(Implementers(cfg), i) <==> ImplementsThrough(cfg, i, t) && !IsImplemented(cfg, t)
  {
    var g := Implementers(cfg);
    ImplementersMeaning(cfg);
    if t in Leaves(g, i) {
      var path :| IsPath(g, path) && path[0] == i && path[|path| - 1] == t;
      ChainsArePaths(cfg, path);
    }
    if ImplementsThrough(cfg, i, t) && !IsImplemented(cfg, t) {
      var path :| IsChain(cfg, path) && path[0] == i && path[|path| - 1] == t;
      ChainsArePaths(cfg, path);
      assert Reaches(g, i, t);
      ReachedAsSuccessor(g, i, t);
    }
  }

  method InterfacesTypesMap(cfg: Config) returns (m: map<string, set<string>>)
    requires forall i :: i in Implementers(cfg) ==> CycleFree(Implementers(cfg), i)
    ensures m == map i | i in Implementers(cfg) :: Leaves(Implementers(cfg), i)
    ensures forall i :: i in m <==> IsImplemented(cfg, i)
    ensures forall i, t :: i in m ==> (t in m[i] <==> ImplementsThrough(cfg, i, t) && !IsImplemented(cfg, t))
  {
    var g := BuildImplementers(cfg);
    var members := ListedMembers(g);
    var interfaces := Listed(members.Keys);
    assert forall i :: i in interfaces ==> i in ToSet(interfaces);
    hide CycleFree, Leaves;
    ghost var depth := EnoughDepthForAll(members, interfaces);
    m := MapAll(interfaces, members, depth);
    forall i, t | i in m ensures t in m[i] <==> ImplementsThrough(cfg, i, t) && !IsImplemented(cfg, t) {
      LeavesMeaning(cfg, i, t);
    }
  }
}
