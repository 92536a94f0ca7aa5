/** Removing from a blueprint all definitions that its operation roots cannot reach. */
module Compress {
  import opened Options
  import opened Reachability
  import opened Cardinality
  import opened Sequences

  datatype Argument = Argument(ofType: string)
  datatype Field = Field(ofType: string, args: seq<Argument>)

  datatype Definition =
    | Interface(name: string, fields: seq<Field>)
    | Object(name: string, fields: seq<Field>, implements: seq<string>)
    | InputObject(name: string, fields: seq<Field>)
    | Scalar(name: string)
    | Enum(name: string, values: seq<string>)
    | Union(name: string, types: seq<string>)

  datatype Blueprint = Blueprint(definitions: seq<Definition>, query: string, mutation: Option<string>)

  function FieldTypes(fields: seq<Field>): seq<string> {
    seq(|fields|, i requires 0 <= i < |fields| => fields[i].ofType)
  }

  function ArgTypes(args: seq<Argument>): seq<string> {
    seq(|args|, i requires 0 <= i < |args| => args[i].ofType)
  }

  function AllArgTypes(fields: seq<Field>): seq<string> {
    if fields == [] then []
    else AllArgTypes(fields[..|fields| - 1]) + ArgTypes(fields[|fields| - 1].args)
  }

  /** The objects that list `name` among the interfaces they implement, in definition order. */
  function ImplementersOf(defs: seq<Definition>, name: string): seq<string> {
    if defs == [] then []
    else
      var rest := ImplementersOf(defs[..|defs| - 1], name);
      var last := defs[|defs| - 1];
      if last.Object? && name in last.implements then rest + [last.name] else rest
  }

  /** What one definition depends on; an interface depends on the objects that implement it. */
  function Dependencies(defs: seq<Definition>, def: Definition): seq<string> {
    match def
    case Object(_, fields, implements) => FieldTypes(fields) + AllArgTypes(fields) + implements
    case Interface(name, fields) => FieldTypes(fields) + ImplementersOf(defs, name)
    case InputObject(_, fields) => FieldTypes(fields)
    case Enum(_, values) => values
    case Union(_, types) => types
    case Scalar(name) => [name]
  }

  ghost predicate TakesArgument(f: Field, name: string) {
    exists a :: a in f.args && a.ofType == name
  }

  /** What a definition needs, kind by kind: its position in any list makes no difference. */
  ghost predicate Needs(defs: seq<Definition>, def: Definition, name: string) {
    match def
    case Object(_, fields, implements) =>
      || (exists f :: f in fields && f.ofType == name)
      || (exists f :: f in fields && TakesArgument(f, name))
      || name in implements
    case Interface(interface, fields) =>
      || (exists f :: f in fields && f.ofType == name)
      || (exists o :: o in defs && o.Object? && interface in o.implements && o.name == name)
    case InputObject(_, fields) => exists f :: f in fields && f.ofType == name
    case Enum(_, values) => name in values
    case Union(_, types) => name in types
    case Scalar(scalar) => name == scalar
  }

  lemma FieldTypesMeaning(fields: seq<Field>, name: string)
    ensures name in FieldTypes(fields) <==> exists f :: f in fields && f.ofType == name
  {
    var types := FieldTypes(fields);
    if name in types {
      var i :| 0 <= i < |types| && types[i] == name;
      assert fields[i] in fields;
    }
    if f :| f in fields && f.ofType == name {
      var i :| 0 <= i < |fields| && fields[i] == f;
      assert types[i] == name;
    }
  }

  lemma ArgTypesMeaning(args: seq<Argument>, name: string)
    ensures name in ArgTypes(args) <==> exists a :: a in args && a.ofType == name
  {
    var types := ArgTypes(args);
    if name in types {
      var i :| 0 <= i < |types| && types[i] == name;
      assert args[i] in args;
    }
    if a :| a in args && a.ofType == name {
      var i :| 0 <= i < |args| && args[i] == a;
      assert types[i] == name;
    }
  }

  lemma {:induction false} AllArgTypesMeaning(fields: seq<Field>, name: string)
    ensures name in AllArgTypes(fields) <==> exists f :: f in fields && TakesArgument(f, name)
  {
    if fields != [] {
      var n := |fields| - 1;
      AllArgTypesMeaning(fields[..n], name);
      ArgTypesMeaning(fields[n].args, name);
      assert name in ArgTypes(fields[n].args) <==> TakesArgument(fields[n], name);
      hide TakesArgument, ArgTypes;
      assert fields == fields[..n] + [fields[n]];
    }
  }

  lemma {:induction false} ImplementersMeaning(defs: seq<Definition>, interface: string, name: string)
    ensures name in ImplementersOf(defs, interface) <==>
            exists o :: o in defs && o.Object? && interface in o.implements && o.name == name
  {
    if defs != [] {
      var n := |defs| - 1;
      ImplementersMeaning(defs[..n], interface, name);
      assert defs == defs[..n] + [defs[n]];
    }
  }

  /** The dependencies are what is needed, no more and no less. */
  lemma DependenciesMeaning(defs: seq<Definition>, def: Definition, name: string)
    ensures name in Dependencies(defs, def) <==> Needs(defs, def, name)
  {
    match def
    case Object(_, fields, implements) =>
      FieldTypesMeaning(fields, name);
      AllArgTypesMeaning(fields, name);
    case Interface(interface, fields) =>
      FieldTypesMeaning(fields, name);
      ImplementersMeaning(defs, interface, name);
    case InputObject(_, fields) => FieldTypesMeaning(fields, name);
    case _ =>
  }

  /** The last of several definitions of the same name wins, as an insert into a hash map does. */
  function GraphOf(all: seq<Definition>, defs: seq<Definition>): map<string, seq<string>> {
    if defs == [] then map[]
    else
      var last := defs[|defs| - 1];
      GraphOf(all, defs[..|defs| - 1])[last.name := Dependencies(all, last)]
  }

  method CollectDependencies(defs: seq<Definition>, def: Definition) returns (dependencies: seq<string>)
    ensures dependencies == Dependencies(defs, def)
    ensures forall name :: name in dependencies <==> Needs(defs, def, name)
  {
    forall name ensures name in Dependencies(defs, def) <==> Needs(defs, def, name) {
      DependenciesMeaning(defs, def, name);
    }
    hide Needs;
    match def {
      case Object(_, fields, implements) =>
        dependencies := FieldTypes(fields);
        for i := 0 to |fields|
          invariant dependencies == FieldTypes(fields) + AllArgTypes(fields[..i])
        {
          assert fields[..i + 1][..i] == fields[..i];
          dependencies := dependencies + ArgTypes(fields[i].args);
        }
        assert fields[..|fields|] == fields;
        dependencies := dependencies + implements;
      case Interface(name, fields) =>
        dependencies := FieldTypes(fields);
        for i := 0 to |defs|
          invariant dependencies == FieldTypes(fields) + ImplementersOf(defs[..i], name)
        {
          assert defs[..i + 1][..i] == defs[..i];
          if defs[i].Object? && name in defs[i].implements {
            dependencies := dependencies + [defs[i].name];
          }
        }
        assert defs[..|defs|] == defs;
      case InputObject(_, fields) => dependencies := FieldTypes(fields);
      case Enum(_, values) => dependencies := values;
      case Union(_, types) => dependencies := types;
      case Scalar(name) => dependencies := [name];
    }
  }

  method BuildDependencyGraph(bp: Blueprint) returns (graph: map<string, seq<string>>)
    ensures graph == GraphOf(bp.definitions, bp.definitions)
  {
    var defs := bp.definitions;
    graph := map[];
    for n := 0 to |defs|
      invariant graph == GraphOf(defs, defs[..n])
    {
      assert defs[..n + 1][..n] == defs[..n];
      var dependencies := CollectDependencies(defs, defs[n]);
      graph := graph[defs[n].name := dependencies];
    }
    assert defs[..|defs|] == defs;
  }

  function AllNames(g: Graph): set<string> {
    set n, d | n in g && d in g[n] :: d
  }

  /** What the roots reach, whether or not a definition of that name exists. */
  ghost function Referenced(g: Graph, roots: set<string>): set<string> {
    set x | x in roots + AllNames(g) && ReachesFrom(g, roots, x)
  }

  lemma ReferencedClosed(g: Graph, roots: set<string>)
    ensures roots <= Referenced(g, roots) && Closed(g, Referenced(g, roots))
  {
    forall r | r in roots ensures r in Referenced(g, roots) {
      ReachesSelf(g, r);
    }
    forall a, b | a in Referenced(g, roots) && b in Successors(g, a) ensures b in Referenced(g, roots) {
      var r :| r in roots && Reaches(g, r, a);
      ReachesStep(g, r, a, b);
    }
  }

  /** The referenced names are the least closed set that holds the roots. */
  lemma ReferencedLeast(g: Graph, roots: set<string>, names: set<string>)
    requires roots <= names && Closed(g, names)
    ensures Referenced(g, roots) <= names
  {
    forall x | x in Referenced(g, roots) ensures x in names {
      var r :| r in roots && Reaches(g, r, x);
      ClosedHoldsReach(g, names, r, x);
    }
  }

  /** Everything found lies in `goal`, and everything still missing waits on the stack. */
  ghost predicate Searching(g: Graph, goal: set<string>, roots: set<string>, found: set<string>, waiting: set<string>) {
    && found + waiting <= goal
    && roots <= found + waiting
    && forall a :: a in found ==> Successors(g, a) <= found + waiting
  }

  lemma SearchingFinds(g: Graph, goal: set<string>, roots: set<string>, found: set<string>, waiting: set<string>,
                       name: string)
    requires Searching(g, goal, roots, found, waiting + {name}) && Closed(g, goal)
    ensures name in found ==> Searching(g, goal, roots, found, waiting)
    ensures Searching(g, goal, roots, found + {name}, waiting + Successors(g, name))
  {
    assert name in goal;
    assert Successors(g, name) <= goal;
  }

  lemma SearchDone(g: Graph, roots: set<string>, found: set<string>)
    requires Searching(g, Referenced(g, roots), roots, found, {})
    ensures found == Referenced(g, roots)
  {
    assert Closed(g, found);
    ReferencedLeast(g, roots, found);
  }

  /** One round of the search: pop a name and, if it is new, push what it depends on. */
  lemma SearchStep(graph: map<string, seq<string>>, goal: set<string>, roots: set<string>, found: set<string>,
                   stack: seq<string>, name: string, rest: seq<string>)
    requires stack == rest + [name] && Closed(AsGraph(graph), goal)
    requires Searching(AsGraph(graph), goal, roots, found, ToSet(stack))
    ensures name in found ==> Searching(AsGraph(graph), goal, roots, found, ToSet(rest))
    ensures var more := if name in graph then graph[name] else [];
            Searching(AsGraph(graph), goal, roots, found + {name}, ToSet(rest + more))
    ensures name !in found ==> |goal - (found + {name})| < |goal - found|
  {
    ToSetOfBoth(rest, [name]);
    SearchingFinds(AsGraph(graph), goal, roots, found, ToSet(rest), name);
    ToSetOfBoth(rest, if name in graph then graph[name] else []);
    if name !in found {
      OneFewerLeft(goal, found, name);
    }
  }

  /** Depth-first search; every closed set `goal` that holds the roots bounds it from above. */
  method SearchFrom(graph: map<string, seq<string>>, root: seq<string>, ghost goal: set<string>)
    returns (found: set<string>)
    requires ToSet(root) <= goal && Closed(AsGraph(graph), goal)
    ensures Searching(AsGraph(graph), goal, ToSet(root), found, {})
  {
    var stack := root;
    found := {};
    while stack != []
      invariant Searching(AsGraph(graph), goal, ToSet(root), found, ToSet(stack))
      decreases |goal - found|, |stack|
    {
      var name, rest := stack[|stack| - 1], stack[..|stack| - 1];
      SearchStep(graph, goal, ToSet(root), found, stack, name, rest);
      stack := rest;
      if name !in found {
        found := found + {name};
        if name in graph {
          stack := PushAll(stack, graph[name]);
        } else {
          assert rest + [] == rest;
        }
      }
    }
  }

  method IdentifyReferencedTypes(graph: map<string, seq<string>>, root: seq<string>) returns (found: set<string>)
    ensures found == Referenced(AsGraph(graph), ToSet(root))
  {
    ReferencedClosed(AsGraph(graph), ToSet(root));
    found := SearchFrom(graph, root, Referenced(AsGraph(graph), ToSet(root)));
    SearchDone(AsGraph(graph), ToSet(root), found);
  }

  method PushAll(below: seq<string>, dependencies: seq<string>) returns (stack: seq<string>)
    ensures stack == below + dependencies
  {
    stack := below;
    for i := 0 to |dependencies|
      invariant stack == below + dependencies[..i]
    {
      assert dependencies[..i + 1] == dependencies[..i] + [dependencies[i]];
      stack := stack + [dependencies[i]];
    }
    assert dependencies[..|dependencies|] == dependencies;
  }

  /** The literal default roots, then the declared query and mutation types; no declared subscription type. */
  function RootTypes(bp: Blueprint): seq<string> {
    ["Query", "Mutation", "Subscription", bp.query, bp.mutation.GetOr("Mutation")]
  }

  function AlwaysKept(): set<string> {
    {"Query", "Mutation", "Subscription",
     "__Schema", "__Type", "__Field", "__InputValue", "__EnumValue", "__Directive", "__DirectiveLocation"}
  }

  function BlueprintGraph(bp: Blueprint): Graph {
    AsGraph(GraphOf(bp.definitions, bp.definitions))
  }

  ghost function ReachableNames(bp: Blueprint): set<string> {
    Referenced(BlueprintGraph(bp), ToSet(RootTypes(bp)))
  }

  /** The definitions with a name in `names`, in their old order. */
  function Filter(defs: seq<Definition>, names: set<string>): seq<Definition> {
    if defs == [] then []
    else
      var rest := Filter(defs[..|defs| - 1], names);
      var last := defs[|defs| - 1];
      if last.name in names then rest + [last] else rest
  }

  ghost function Compressed(bp: Blueprint): Blueprint {
    bp.(definitions := Filter(bp.definitions, ReachableNames(bp) + AlwaysKept()))
  }

  method FilterDefinitions(defs: seq<Definition>, names: set<string>) returns (definitions: seq<Definition>)
    ensures definitions == Filter(defs, names)
  {
    definitions := [];
    for i := 0 to |defs|
      invariant definitions == Filter(defs[..i], names)
    {
      assert defs[..i + 1][..i] == defs[..i];
      if defs[i].name in names {
        definitions := definitions + [defs[i]];
      }
    }
    assert defs[..|defs|] == defs;
  }

  method CompressBlueprint(bp: Blueprint) returns (r: Blueprint)
    ensures r == Compressed(bp) && r.query == bp.query && r.mutation == bp.mutation
  {
    var graph := BuildDependencyGraph(bp);
    var rootType := ["Query", "Mutation", "Subscription"];
    var definedQueryType := bp.query;
    var mutation := bp.mutation.GetOr("Mutation");
    rootType := rootType + [definedQueryType];
    rootType := rootType + [mutation];
    assert rootType == RootTypes(bp);
    var referenced := IdentifyReferencedTypes(graph, rootType);
    referenced := referenced + AlwaysKept();
    var definitions := FilterDefinitions(bp.definitions, referenced);
    r := bp.(definitions := definitions);
  }

  lemma {:induction false} FilterKeeps(defs: seq<Definition>, names: set<string>, def: Definition)
    ensures def in Filter(defs, names) <==> def in defs && def.name in names
  {
    if defs != [] {
      FilterKeeps(defs[..|defs| - 1], names, def);
      assert defs == defs[..|defs| - 1] + [defs[|defs| - 1]];
    }
  }

  /** A definition survives exactly when its name is reachable from the roots or always kept. */
  lemma CompressedKeeps(bp: Blueprint, def: Definition)
    ensures def in Compressed(bp).definitions <==>
            def in bp.definitions &&
            (def.name in AlwaysKept() || ReachesFrom(BlueprintGraph(bp), ToSet(RootTypes(bp)), def.name))
    ensures Compressed(bp).query == bp.query && Compressed(bp).mutation == bp.mutation
  {
    FilterKeeps(bp.definitions, ReachableNames(bp) + AlwaysKept(), def);
    var g, roots := BlueprintGraph(bp), ToSet(RootTypes(bp));
    if ReachesFrom(g, roots, def.name) {
      ReferencedClosed(g, roots);
      var r :| r in roots && Reaches(g, r, def.name);
      ClosedHoldsReach(g, Referenced(g, roots), r, def.name);
    }
  }

  /** The definition that the graph knows a name by: the last one. */
  ghost predicate IsLast(defs: seq<Definition>, i: nat) {
    i < |defs| && forall j :: i < j < |defs| ==> defs[j].name != defs[i].name
  }

  lemma {:induction false} GraphOfLast(all: seq<Definition>, defs: seq<Definition>, i: nat)
    requires IsLast(defs, i)
    ensures defs[i].name in GraphOf(all, defs)
    ensures GraphOf(all, defs)[defs[i].name] == Dependencies(all, defs[i])
  {
    hide Dependencies;
    var n := |defs| - 1;
    if i < n {
      assert forall j :: i < j < n ==> defs[..n][j] == defs[j];
      GraphOfLast(all, defs[..n], i);
      assert defs[n].name != defs[i].name;
    }
  }

  /**
    The reachable definitions that are kept are closed under dependencies: whatever such a definition
    needs and the blueprint defines is kept as well. Of several definitions of one name, the last counts.
  */
  lemma CompressedIsClosed(bp: Blueprint, i: nat, target: Definition)
    requires IsLast(bp.definitions, i) && bp.definitions[i].name in ReachableNames(bp)
    requires target in bp.definitions && target.name in Dependencies(bp.definitions, bp.definitions[i])
    ensures bp.definitions[i] in Compressed(bp).definitions
    ensures target in Compressed(bp).definitions
  {
    var names := ReachableNames(bp) + AlwaysKept();
    GraphOfLast(bp.definitions, bp.definitions, i);
    ReferencedClosed(BlueprintGraph(bp), ToSet(RootTypes(bp)));
    assert target.name in Successors(BlueprintGraph(bp), bp.definitions[i].name);
    FilterKeeps(bp.definitions, names, bp.definitions[i]);
    FilterKeeps(bp.definitions, names, target);
  }

  /** With distinct names every definition is the last of its name. */
  lemma DistinctNamesAreLast(defs: seq<Definition>, i: nat)
    requires i < |defs| && forall a, b :: 0 <= a < b < |defs| ==> defs[a].name != defs[b].name
    ensures IsLast(defs, i)
  {
  }

  /** With distinct names this holds of every reachable definition. */
  lemma CompressedIsClosedWhenDistinct(bp: Blueprint, def: Definition, target: Definition)
    requires forall a, b :: 0 <= a < b < |bp.definitions| ==> bp.definitions[a].name != bp.definitions[b].name
    requires def in bp.definitions && def.name in ReachableNames(bp)
    requires target in bp.definitions && target.name in Dependencies(bp.definitions, def)
    ensures def in Compressed(bp).definitions && target in Compressed(bp).definitions
  {
    var i :| 0 <= i < |bp.definitions| && bp.definitions[i] == def;
    DistinctNamesAreLast(bp.definitions, i);
    CompressedIsClosed(bp, i, target);
  }

  lemma {:induction false} ImplementersSurvive(defs: seq<Definition>, names: set<string>, name: string)
    requires ToSet(ImplementersOf(defs, name)) <= names
    ensures ImplementersOf(Filter(defs, names), name) == ImplementersOf(defs, name)
  {
    if defs != [] {
      var rest, last := defs[..|defs| - 1], defs[|defs| - 1];
      if last.Object? && name in last.implements {
        assert last.name in ImplementersOf(defs, name);
      }
      assert ToSet(ImplementersOf(rest, name)) <= ToSet(ImplementersOf(defs, name));
      ImplementersSurvive(rest, names, name);
      var kept := Filter(rest, names);
      if last.name in names {
        assert (kept + [last])[..|kept|] == kept;
      }
    }
  }

  lemma DependenciesSurvive(defs: seq<Definition>, names: set<string>, def: Definition)
    requires ToSet(Dependencies(defs, def)) <= names
    ensures Dependencies(Filter(defs, names), def) == Dependencies(defs, def)
  {
    if def.Interface? {
      var fields, implementers := FieldTypes(def.fields), ImplementersOf(defs, def.name);
      assert forall x :: x in implementers ==> x in fields + implementers;
      ImplementersSurvive(defs, names, def.name);
    }
  }

  /** Reachable names keep their entry in the dependency graph. */
  lemma {:induction false} GraphSurvives(all: seq<Definition>, defs: seq<Definition>, names: set<string>, n: string)
    requires n in names
    requires n in GraphOf(all, defs) ==> ToSet(GraphOf(all, defs)[n]) <= names
    ensures n in GraphOf(all, defs) <==> n in GraphOf(Filter(all, names), Filter(defs, names))
    ensures n in GraphOf(all, defs) ==>
              GraphOf(Filter(all, names), Filter(defs, names))[n] == GraphOf(all, defs)[n]
  {
    if defs != [] {
      var rest, last := defs[..|defs| - 1], defs[|defs| - 1];
      var kept := Filter(rest, names);
      if last.name in names {
        assert (kept + [last])[..|kept|] == kept;
      }
      if last.name == n {
        DependenciesSurvive(all, names, last);
      } else {
        GraphSurvives(all, rest, names, n);
      }
    }
  }

  lemma SameSuccessors(bp: Blueprint, n: string)
    requires n in ReachableNames(bp)
    ensures Successors(BlueprintGraph(Compressed(bp)), n) == Successors(BlueprintGraph(bp), n)
  {
    var graph := GraphOf(bp.definitions, bp.definitions);
    ReferencedClosed(BlueprintGraph(bp), ToSet(RootTypes(bp)));
    if n in graph {
      assert ToSet(graph[n]) == Successors(BlueprintGraph(bp), n);
    }
    GraphSurvives(bp.definitions, bp.definitions, ReachableNames(bp) + AlwaysKept(), n);
  }

  lemma NoMoreReferenced(g: Graph, h: Graph, roots: set<string>)
    requires forall n :: n in Referenced(g, roots) ==> Successors(h, n) == Successors(g, n)
    ensures Referenced(h, roots) <= Referenced(g, roots)
  {
    ReferencedClosed(g, roots);
    hide Referenced, Successors;
    ReferencedLeast(h, roots, Referenced(g, roots));
  }

  lemma SameReferenced(g: Graph, h: Graph, roots: set<string>)
    requires forall n :: n in Referenced(g, roots) ==> Successors(h, n) == Successors(g, n)
    ensures Referenced(h, roots) == Referenced(g, roots)
  {
    hide Referenced, Successors;
    NoMoreReferenced(g, h, roots);
    NoMoreReferenced(h, g, roots);
  }

  lemma SameReachableNames(bp: Blueprint)
    ensures ReachableNames(Compressed(bp)) == ReachableNames(bp)
  {
    var g, h, roots := BlueprintGraph(bp), BlueprintGraph(Compressed(bp)), ToSet(RootTypes(bp));
    forall n | n in Referenced(g, roots) ensures Successors(h, n) == Successors(g, n) {
      SameSuccessors(bp, n);
    }
    SameReferenced(g, h, roots);
  }

  lemma {:induction false} FilterTwice(defs: seq<Definition>, names: set<string>)
    ensures Filter(Filter(defs, names), names) == Filter(defs, names)
  {
    if defs != [] {
      var rest, last := defs[..|defs| - 1], defs[|defs| - 1];
      FilterTwice(rest, names);
      var kept := Filter(rest, names);
      if last.name in names {
        assert (kept + [last])[..|kept|] == kept;
      }
    }
  }

  /** Compressing twice is compressing once, also when definitions share a name. */
  lemma CompressIdempotent(bp: Blueprint)
    ensures Compressed(Compressed(bp)) == Compressed(bp)
  {
    SameReachableNames(bp);
    FilterTwice(bp.definitions, ReachableNames(bp) + AlwaysKept());
  }

  // ---------------------------------------------------------------------------------------------
  // What is kept, over the blueprint alone

  lemma {:induction false} LastOfName(all: seq<Definition>, defs: seq<Definition>, name: string) returns (i: nat)
    requires name in GraphOf(all, defs)
    ensures IsLast(defs, i) && defs[i].name == name
  {
    var n := |defs| - 1;
    if defs[n].name == name {
      i := n;
    } else {
      i := LastOfName(all, defs[..n], name);
      assert forall j :: i < j < n ==> defs[j] == defs[..n][j];
    }
  }

  /** The last definition called `a` needs `b`. */
  ghost predicate NeedsByName(defs: seq<Definition>, a: string, b: string) {
    exists i: nat :: IsLast(defs, i) && defs[i].name == a && Needs(defs, defs[i], b)
  }

  lemma SuccessorsAreNeeds(bp: Blueprint, a: string, b: string)
    ensures b in Successors(BlueprintGraph(bp), a) <==> NeedsByName(bp.definitions, a, b)
  {
    var defs := bp.definitions;
    if a in GraphOf(defs, defs) {
      var i := LastOfName(defs, defs, a);
      GraphOfLast(defs, defs, i);
      DependenciesMeaning(defs, defs[i], b);
      hide Needs, Dependencies, GraphOf;
      assert forall k: nat :: IsLast(defs, k) && defs[k].name == a ==> k == i;
    } else if i: nat :| IsLast(defs, i) && defs[i].name == a {
      GraphOfLast(defs, defs, i);
    }
  }

  /** The names from which everything else is reached: the three defaults and the declared query and mutation. */
  predicate IsRoot(bp: Blueprint, name: string) {
    name == "Query" || name == "Mutation" || name == "Subscription" || name == bp.query || bp.mutation == Some(name)
  }

  /** A chain of definitions from a root, each needing the next. */
  ghost predicate IsNeedPath(bp: Blueprint, path: seq<string>) {
    && path != [] && IsRoot(bp, path[0])
    && forall j :: 0 < j < |path| ==> NeedsByName(bp.definitions, path[j - 1], path[j])
  }

  ghost predicate IsNeeded(bp: Blueprint, name: string) {
    exists path :: IsNeedPath(bp, path) && path[|path| - 1] == name
  }

  lemma RootsMeaning(bp: Blueprint, name: string)
    ensures name in ToSet(RootTypes(bp)) <==> IsRoot(bp, name)
  {
    var roots := RootTypes(bp);
    assert forall x :: x in roots <==>
        x == roots[0] || x == roots[1] || x == roots[2] || x == roots[3] || x == roots[4];
  }

  lemma NeededIsReachable(bp: Blueprint, name: string)
    ensures IsNeeded(bp, name) <==> ReachesFrom(BlueprintGraph(bp), ToSet(RootTypes(bp)), name)
  {
    var g, roots := BlueprintGraph(bp), ToSet(RootTypes(bp));
    forall a, b ensures b in Successors(g, a) <==> NeedsByName(bp.definitions, a, b) {
      SuccessorsAreNeeds(bp, a, b);
    }
    forall x ensures x in roots <==> IsRoot(bp, x) {
      RootsMeaning(bp, x);
    }
    hide BlueprintGraph, RootTypes, NeedsByName, IsRoot;
    if IsNeeded(bp, name) {
      var path :| IsNeedPath(bp, path) && path[|path| - 1] == name;
      assert IsPath(g, path) && path[0] in roots;
    }
    if ReachesFrom(g, roots, name) {
      var r :| r in roots && Reaches(g, r, name);
      var path :| IsPath(g, path) && path[0] == r && path[|path| - 1] == name;
      assert IsNeedPath(bp, path);
    }
  }

  lemma RootsAreNeeded(bp: Blueprint, name: string)
    ensures IsRoot(bp, name) ==> IsNeeded(bp, name)
  {
    if IsRoot(bp, name) {
      assert IsNeedPath(bp, [name]);
    }
  }

  predicate IsIntrospection(name: string) {
    || name == "__Schema" || name == "__Type" || name == "__Field" || name == "__InputValue"
    || name == "__EnumValue" || name == "__Directive" || name == "__DirectiveLocation"
  }

  lemma AlwaysKeptMeaning(name: string)
    ensures name in AlwaysKept() <==>
            IsIntrospection(name) || name == "Query" || name == "Mutation" || name == "Subscription"
  {
  }

  /** Kept is exactly what a root needs, step by step, and what has one of the fixed introspection names. */
  lemma KeptMeaning(bp: Blueprint, def: Definition)
    ensures def in Compressed(bp).definitions <==>
            def in bp.definitions && (IsNeeded(bp, def.name) || IsIntrospection(def.name))
  {
    CompressedKeeps(bp, def);
    NeededIsReachable(bp, def.name);
    RootsAreNeeded(bp, def.name);
    AlwaysKeptMeaning(def.name);
    hide Compressed, AlwaysKept, IsIntrospection, IsNeeded, ReachesFrom;
  }

  /** Keeping is done definition by definition, so order and repetitions stay as they were. */
  lemma {:induction false} FilterInOrder(a: seq<Definition>, b: seq<Definition>, names: set<string>, def: Definition)
    ensures Filter(a + b, names) == Filter(a, names) + Filter(b, names)
    ensures Filter([def], names) == if def.name in names then [def] else []
  {
    assert [def][..0] == [];
    if b == [] {
      assert a + b == a;
    } else {
      var n := |b| - 1;
      assert (a + b)[..|a + b| - 1] == a + b[..n];
      FilterInOrder(a, b[..n], names, def);
      Regroup(Filter(a, names), Filter(b[..n], names), [b[n]]);
    }
  }
}
