/**
  Tree shaking: which type names an operation can use, and the configuration without all others.
*/
module UsedTypes {
  import opened Options
  import opened SchemaConfig
  import opened Reachability
  import opened Cardinality
  import opened Sequences

  function Nameable(cfg: Config): set<string> {
    cfg.unions.Keys + cfg.types.Keys
  }

  /** Everything a field mentions: its argument types, then its own type. */
  function FieldReferences(fields: seq<Field>): seq<string> {
    if fields == [] then []
    else
      var last := fields[|fields| - 1];
      FieldReferences(fields[..|fields| - 1]) + last.args + [last.typeName]
  }

  function TypeReferences(ty: Type): seq<string> {
    FieldReferences(ty.fields) + ty.implements
  }

  /** What the definition found under `name` refers to; a union hides a type of the same name. */
  function References(cfg: Config, name: string): seq<string> {
    if name in cfg.unions then cfg.unions[name]
    else if name in cfg.types then TypeReferences(cfg.types[name])
    else []
  }

  function Referenced(cfg: Config, name: string): set<string> {
    set r | r in References(cfg, name) && r in Nameable(cfg)
  }

  function ReferenceGraph(cfg: Config): Graph {
    map n | n in Nameable(cfg) :: Referenced(cfg, n)
  }

  /** The declared names that some operation root reaches. */
  ghost function UsedNames(cfg: Config): set<string> {
    set x | x in Nameable(cfg) && IsUsed(cfg, x)
  }

  ghost predicate IsUsed(cfg: Config, x: string) {
    exists r :: r in cfg.Roots() && r in Nameable(cfg) && Reaches(ReferenceGraph(cfg), r, x)
  }

  /** A set that holds the declared roots and all that its members refer to. */
  ghost predicate Sufficient(cfg: Config, names: set<string>) {
    && (forall r :: r in cfg.Roots() && r in Nameable(cfg) ==> r in names)
    && Closed(ReferenceGraph(cfg), names)
  }

  /** The used names are the least sufficient set. */
  lemma UsedNamesLeast(cfg: Config)
    ensures Sufficient(cfg, UsedNames(cfg))
    ensures forall names :: Sufficient(cfg, names) ==> UsedNames(cfg) <= names
  {
    var g := ReferenceGraph(cfg);
    forall r | r in cfg.Roots() && r in Nameable(cfg) ensures r in UsedNames(cfg) {
      ReachesSelf(g, r);
    }
    forall a, b | a in UsedNames(cfg) && b in Successors(g, a) ensures b in UsedNames(cfg) {
      var r :| r in cfg.Roots() && r in Nameable(cfg) && Reaches(g, r, a);
      ReachesStep(g, r, a, b);
    }
    forall names, x | Sufficient(cfg, names) && x in UsedNames(cfg) ensures x in names {
      var r :| r in cfg.Roots() && r in Nameable(cfg) && Reaches(g, r, x);
      ClosedHoldsReach(g, names, r, x);
    }
  }

  lemma UsedNamesClosed(cfg: Config, name: string, target: string)
    requires name in UsedNames(cfg) && target in References(cfg, name) && target in Nameable(cfg)
    ensures target in UsedNames(cfg)
  {
    UsedNamesLeast(cfg);
    assert target in Successors(ReferenceGraph(cfg), name);
  }

  /** A type or union that is declared. */
  predicate IsNameable(cfg: Config, name: string) {
    name in cfg.types || name in cfg.unions
  }

  /** The definition found under `a` mentions `b`: as a member, a field's type, an argument's type or an interface. */
  ghost predicate Mentions(cfg: Config, a: string, b: string) {
    if a in cfg.unions then b in cfg.unions[a]
    else
      && a in cfg.types
      && (|| (exists f :: f in cfg.types[a].fields && (b == f.typeName || b in f.args))
          || b in cfg.types[a].implements)
  }

  lemma {:induction false} FieldReferencesMeaning(fields: seq<Field>, b: string)
    ensures b in FieldReferences(fields) <==> exists f :: f in fields && (b == f.typeName || b in f.args)
  {
    if fields != [] {
      var n := |fields| - 1;
      FieldReferencesMeaning(fields[..n], b);
      assert fields == fields[..n] + [fields[n]];
    }
  }

  lemma ReferencesMeaning(cfg: Config, a: string, b: string)
    ensures b in References(cfg, a) <==> Mentions(cfg, a, b)
  {
    if a !in cfg.unions && a in cfg.types {
      FieldReferencesMeaning(cfg.types[a].fields, b);
    }
  }

  /** A path from a declared operation root through declared names, each mentioned by the one before it. */
  ghost predicate IsUsePath(cfg: Config, path: seq<string>) {
    && path != []
    && (|| cfg.schema.query == Some(path[0])
        || cfg.schema.mutation == Some(path[0])
        || cfg.schema.subscription == Some(path[0]))
    && IsNameable(cfg, path[0])
    && forall j :: 0 < j < |path| ==> IsNameable(cfg, path[j]) && Mentions(cfg, path[j - 1], path[j])
  }

  lemma SuccessorsAreMentions(cfg: Config, a: string, b: string)
    requires IsNameable(cfg, a)
    ensures b in Successors(ReferenceGraph(cfg), a) <==> IsNameable(cfg, b) && Mentions(cfg, a, b)
  {
    ReferencesMeaning(cfg, a, b);
  }

  lemma UsePathSnoc(cfg: Config, path: seq<string>)
    requires |path| > 1
    ensures var n := |path| - 1;
            IsUsePath(cfg, path) <==>
            IsUsePath(cfg, path[..n]) && IsNameable(cfg, path[n]) && Mentions(cfg, path[n - 1], path[n])
  {
    hide Mentions, IsNameable;
    var n := |path| - 1;
    assert forall i :: 0 <= i < n ==> path[..n][i] == path[i];
  }

  lemma {:induction false} UsePathsArePaths(cfg: Config, path: seq<string>)
    requires path != []
    ensures IsUsePath(cfg, path) <==>
            path[0] in cfg.Roots() && path[0] in Nameable(cfg) && IsPath(ReferenceGraph(cfg), path)
    ensures IsUsePath(cfg, path) ==> IsNameable(cfg, path[|path| - 1])
  {
    RootsMeaning(cfg, path[0]);
    var n := |path| - 1;
    if n > 0 {
      UsePathsArePaths(cfg, path[..n]);
      PathSnoc(ReferenceGraph(cfg), path);
      UsePathSnoc(cfg, path);
      if IsNameable(cfg, path[n - 1]) {
        SuccessorsAreMentions(cfg, path[n - 1], path[n]);
      }
    }
  }

  /** In the terms of the configuration alone. */
  lemma UsedMeaning(cfg: Config, x: string)
    ensures x in UsedNames(cfg) <==> exists path :: IsUsePath(cfg, path) && path[|path| - 1] == x
  {
    var g := ReferenceGraph(cfg);
    if x in UsedNames(cfg) {
      var r :| r in cfg.Roots() && r in Nameable(cfg) && Reaches(g, r, x);
      var path :| IsPath(g, path) && path[0] == r && path[|path| - 1] == x;
      UsePathsArePaths(cfg, path);
    }
    if path :| IsUsePath(cfg, path) && path[|path| - 1] == x {
      UsePathsArePaths(cfg, path);
      assert Reaches(g, path[0], x);
      assert IsNameable(cfg, path[|path| - 1]);
    }
  }

  /** What the work list guarantees: all found names are used, and what is missing is still waiting. */
  ghost predicate Searching(cfg: Config, found: set<string>, waiting: set<string>) {
    && found <= UsedNames(cfg)
    && waiting * Nameable(cfg) <= UsedNames(cfg)
    && (set r | r in cfg.Roots()) * Nameable(cfg) <= found + waiting
    && (forall a :: a in found ==> Successors(ReferenceGraph(cfg), a) <= found + waiting)
  }

  lemma SearchingSkips(cfg: Config, found: set<string>, waiting: set<string>, name: string)
    requires Searching(cfg, found, waiting + {name})
    requires name in found || name !in Nameable(cfg)
    ensures Searching(cfg, found, waiting)
  {
    forall a | a in found ensures Successors(ReferenceGraph(cfg), a) <= found + waiting {
      assert Successors(ReferenceGraph(cfg), a) <= Nameable(cfg);
    }
  }

  lemma SearchingFinds(cfg: Config, found: set<string>, waiting: set<string>, name: string)
    requires Searching(cfg, found, waiting + {name})
    requires name in Nameable(cfg)
    ensures Searching(cfg, found + {name}, waiting + ToSet(References(cfg, name)))
  {
    var more := waiting + ToSet(References(cfg, name));
    forall s | s in more * Nameable(cfg) ensures s in UsedNames(cfg) {
      if s !in waiting {
        UsedNamesClosed(cfg, name, s);
      }
    }
    forall a | a in found + {name}
      ensures Successors(ReferenceGraph(cfg), a) <= found + {name} + more
    {
    }
  }

  lemma SearchDone(cfg: Config, found: set<string>)
    requires Searching(cfg, found, {})
    ensures found == UsedNames(cfg)
  {
    assert Sufficient(cfg, found);
    UsedNamesLeast(cfg);
  }

  method GetAllUsedTypeNames(cfg: Config) returns (found: set<string>)
    ensures found == UsedNames(cfg)
    ensures forall x :: x in found <==> exists path :: IsUsePath(cfg, path) && path[|path| - 1] == x
  {
    found := {};
    var stack: seq<string> := [];
    if cfg.schema.query.Some? {
      stack := stack + [cfg.schema.query.value];
    }
    if cfg.schema.mutation.Some? {
      stack := stack + [cfg.schema.mutation.value];
    }
    if cfg.schema.subscription.Some? {
      stack := stack + [cfg.schema.subscription.value];
    }
    assert stack == cfg.Roots();
    StartSearching(cfg);
    hide Searching, UsedNames, ToSet, TypeReferences;
    while stack != []
      invariant Searching(cfg, found, ToSet(stack))
      decreases |Nameable(cfg) - found|, |stack|
    {
      var name := stack[|stack| - 1];
      PoppedElement(stack);
      stack := stack[..|stack| - 1];
      ghost var waiting := ToSet(stack);
      if name in found {
        SearchingSkips(cfg, found, waiting, name);
        continue;
      }
      if name in cfg.unions || name in cfg.types {
        SearchingFinds(cfg, found, waiting, name);
        OneFewerLeft(Nameable(cfg), found, name);
      } else {
        SearchingSkips(cfg, found, waiting, name);
      }
      if name in cfg.unions {
        found := found + {name};
        ToSetOfBoth(stack, cfg.unions[name]);
        stack := stack + cfg.unions[name];
      } else if name in cfg.types {
        found := found + {name};
        ToSetOfBoth(stack, TypeReferences(cfg.types[name]));
        stack := PushTypeReferences(cfg.types[name], stack);
      }
    }
    assert ToSet<string>([]) == {};
    SearchDone(cfg, found);
    forall x ensures x in found <==> exists path :: IsUsePath(cfg, path) && path[|path| - 1] == x {
      UsedMeaning(cfg, x);
    }
  }

  /** Pushes all that a type mentions, field by field, and then the interfaces it implements. */
  method PushTypeReferences(typ: Type, below: seq<string>) returns (stack: seq<string>)
    ensures stack == below + TypeReferences(typ)
  {
    stack := below;
    for i := 0 to |typ.fields|
      invariant stack == below + FieldReferences(typ.fields[..i])
    {
      assert typ.fields[..i + 1][..i] == typ.fields[..i];
      stack := stack + typ.fields[i].args;
      stack := stack + [typ.fields[i].typeName];
    }
    assert typ.fields[..|typ.fields|] == typ.fields;
    stack := stack + typ.implements;
  }

  lemma PoppedElement(stack: seq<string>)
    requires stack != []
    ensures ToSet(stack) == ToSet(stack[..|stack| - 1]) + {stack[|stack| - 1]}
  {
    assert stack == stack[..|stack| - 1] + [stack[|stack| - 1]];
  }

  lemma StartSearching(cfg: Config)
    ensures Searching(cfg, {}, ToSet(cfg.Roots()))
  {
    UsedNamesLeast(cfg);
  }

  method UnusedTypes(cfg: Config) returns (unused: set<string>)
    ensures unused == Nameable(cfg) - UsedNames(cfg)
  {
    var used := GetAllUsedTypeNames(cfg);
    unused := cfg.types.Keys + cfg.unions.Keys - used;
  }

  function Without(cfg: Config, names: set<string>): Config {
    cfg.(types := cfg.types - names, unions := cfg.unions - names)
  }

  method RemoveTypes(cfg: Config, names: set<string>) returns (r: Config)
    ensures r == Without(cfg, names)
  {
    r := cfg;
    var todo := names;
    while todo != {}
      invariant todo <= names
      invariant r == Without(cfg, names - todo)
      decreases todo
    {
      var n :| n in todo;
      todo := todo - {n};
      assert names - todo == (names - (todo + {n})) + {n};
      r := r.(types := r.types - {n});
      r := r.(unions := r.unions - {n});
    }
    assert names - {} == names;
  }

  ghost function Shaken(cfg: Config): Config {
    Without(cfg, Nameable(cfg) - UsedNames(cfg))
  }

  method TreeShake(cfg: Config) returns (r: Config)
    ensures r == Shaken(cfg)
  {
    var unused := UnusedTypes(cfg);
    r := RemoveTypes(cfg, unused);
  }

  /** Shaking keeps exactly the used names, with unchanged definitions. */
  lemma ShakenKeepsUsed(cfg: Config)
    ensures Nameable(Shaken(cfg)) == UsedNames(cfg)
    ensures forall n :: n in Nameable(Shaken(cfg)) ==> References(Shaken(cfg), n) == References(cfg, n)
    ensures forall n :: n in Shaken(cfg).types ==> n in cfg.types && Shaken(cfg).types[n] == cfg.types[n]
  {
  }

  /** No reference from a kept name breaks: what was declared before is declared afterwards. */
  lemma ShakenKeepsReferences(cfg: Config, name: string, target: string)
    requires name in Nameable(Shaken(cfg)) && target in References(Shaken(cfg), name)
    ensures target in Nameable(cfg) ==> target in Nameable(Shaken(cfg))
  {
    ShakenKeepsUsed(cfg);
    UsedNamesLeast(cfg);
    if target in Nameable(cfg) {
      assert target in Successors(ReferenceGraph(cfg), name);
    }
  }

  /** A kept type definition keeps its references too, unless a union of the same name hides it. */
  lemma ShakenKeepsTypeReferences(cfg: Config, name: string, target: string)
    requires name in Shaken(cfg).types && target in TypeReferences(Shaken(cfg).types[name])
    ensures name !in cfg.unions && target in Nameable(cfg) ==> target in Nameable(Shaken(cfg))
  {
    if name !in cfg.unions {
      assert References(Shaken(cfg), name) == TypeReferences(Shaken(cfg).types[name]);
      ShakenKeepsReferences(cfg, name, target);
    }
  }

  /** Exactly which references of a kept type definition survive: hidden or not, those to used names. */
  lemma TypeReferenceSurvives(cfg: Config, name: string, target: string)
    requires name in Shaken(cfg).types && target in TypeReferences(Shaken(cfg).types[name]) && target in Nameable(cfg)
    ensures target in Nameable(Shaken(cfg)) <==> name !in cfg.unions || IsUsed(cfg, target)
  {
    ShakenKeepsUsed(cfg);
    if name !in cfg.unions {
      ShakenKeepsTypeReferences(cfg, name, target);
    }
  }

  /** Some reference of a kept type definition was declared and is not declared any more. */
  ghost predicate LosesReference(cfg: Config, name: string, target: string) {
    && name in Shaken(cfg).types && target in TypeReferences(Shaken(cfg).types[name])
    && target in Nameable(cfg) && target !in Nameable(Shaken(cfg))
  }

  /** A used union hides a type of the same name that refers to something declared and unused. */
  ghost predicate HidesReference(cfg: Config, name: string, target: string) {
    && name in cfg.unions && name in cfg.types && IsUsed(cfg, name)
    && target in TypeReferences(cfg.types[name]) && target in Nameable(cfg) && !IsUsed(cfg, target)
  }

  /** Shaking breaks a reference of a kept type exactly when a used union hides one that nothing else uses. */
  lemma ShakingIsSafeExactly(cfg: Config)
    ensures (forall name, target :: !LosesReference(cfg, name, target)) <==>
            (forall name, target :: !HidesReference(cfg, name, target))
  {
    ShakenKeepsUsed(cfg);
    forall name, target ensures LosesReference(cfg, name, target) <==> HidesReference(cfg, name, target) {
      if LosesReference(cfg, name, target) || HidesReference(cfg, name, target) {
        TypeReferenceSurvives(cfg, name, target);
      }
    }
  }

  /** A union that shares its name with a type: the type stays, its field type goes. */
  function HidingConfig(): Config {
    Config(RootSchema(Some("Q"), None, None),
           map["Q" := Type([Field("A", [])], []), "A" := Type([], [])],
           map["Q" := []], {})
  }

  lemma HidingBreaksReference()
    ensures "Q" in Shaken(HidingConfig()).types && "A" in Nameable(HidingConfig())
    ensures "A" in TypeReferences(Shaken(HidingConfig()).types["Q"])
    ensures "A" !in Nameable(Shaken(HidingConfig()))
    ensures LosesReference(HidingConfig(), "Q", "A")
  {
    var cfg := HidingConfig();
    assert cfg.Roots() == ["Q"];
    OnlyRootUsed(cfg, "Q");
    ShakenKeepsUsed(cfg);
    var fields := cfg.types["Q"].fields;
    assert fields[..0] == [];
    assert FieldReferences(fields) == ["A"];
    assert "A" != "Q";
  }

  lemma NothingFromRoot(cfg: Config, root: string)
    requires cfg.Roots() == [root] && root in Nameable(cfg) && References(cfg, root) == []
    ensures root in cfg.Roots() && Sufficient(cfg, {root})
  {
    assert Successors(ReferenceGraph(cfg), root) == {};
  }

  lemma OnlyRootUsed(cfg: Config, root: string)
    requires cfg.Roots() == [root] && root in Nameable(cfg) && References(cfg, root) == []
    ensures UsedNames(cfg) == {root}
  {
    NothingFromRoot(cfg, root);
    UsedNamesLeast(cfg);
    hide UsedNames, Nameable, References;
  }

  /** On used names the reference graph before and after shaking is the same. */
  lemma SameEdgesWhenUsed(cfg: Config, a: string)
    requires a in UsedNames(cfg)
    ensures Successors(ReferenceGraph(cfg), a) == Successors(ReferenceGraph(Shaken(cfg)), a)
  {
    ShakenKeepsUsed(cfg);
    forall b | b in Referenced(cfg, a) ensures b in Referenced(Shaken(cfg), a) {
      ShakenKeepsReferences(cfg, a, b);
    }
  }

  lemma SameReachFromRoot(cfg: Config, r: string, x: string)
    requires r in cfg.Roots() && r in Nameable(cfg)
    ensures Reaches(ReferenceGraph(Shaken(cfg)), r, x) <==> Reaches(ReferenceGraph(cfg), r, x)
  {
    var g, h := ReferenceGraph(cfg), ReferenceGraph(Shaken(cfg));
    UsedNamesLeast(cfg);
    forall n | Reaches(g, r, n) ensures Successors(g, n) == Successors(h, n) {
      ClosedHoldsReach(g, UsedNames(cfg), r, n);
      SameEdgesWhenUsed(cfg, n);
    }
    SameReach(g, h, r, x);
  }

  lemma SameUse(cfg: Config, x: string)
    ensures IsUsed(Shaken(cfg), x) <==> IsUsed(cfg, x)
  {
    ShakenKeepsUsed(cfg);
    UsedNamesLeast(cfg);
    assert Shaken(cfg).Roots() == cfg.Roots();
    hide Shaken, UsedNames, ReferenceGraph, Reaches;
    forall r | r in cfg.Roots() && r in Nameable(cfg)
      ensures r in Nameable(Shaken(cfg))
      ensures Reaches(ReferenceGraph(Shaken(cfg)), r, x) <==> Reaches(ReferenceGraph(cfg), r, x)
    {
      SameReachFromRoot(cfg, r, x);
    }
  }

  lemma SameUsedNames(cfg: Config)
    ensures UsedNames(Shaken(cfg)) == UsedNames(cfg)
  {
    ShakenKeepsUsed(cfg);
    forall x ensures x in UsedNames(Shaken(cfg)) <==> x in UsedNames(cfg) {
      SameUse(cfg, x);
    }
  }

  /** Shaking changes nothing about what is used, so a second shake removes nothing. */
  lemma ShakenIsStable(cfg: Config)
    ensures UsedNames(Shaken(cfg)) == UsedNames(cfg)
    ensures Nameable(Shaken(cfg)) - UsedNames(Shaken(cfg)) == {}
    ensures Shaken(Shaken(cfg)) == Shaken(cfg)
  {
    hide UsedNames;
    var small := Shaken(cfg);
    SameUsedNames(cfg);
    assert Nameable(small) - UsedNames(small) == {} by {
      ShakenKeepsUsed(cfg);
    }
    assert small.types - {} == small.types && small.unions - {} == small.unions;
  }
}
