/**
  The check that every field a client can reach is backed by a resolver, directly or through an
  enclosing field. Schemas may be cyclic, so the traversal carries a set of visited types and answers
  success for a type it has seen, even when that type is still in progress or has already failed.
*/
module ResolverCheck {
  import opened Options
  import opened Validation
  import opened Reachability
  import opened Cardinality
  import opened Sequences

  datatype Field = Field(name: string, hasResolver: bool, typeName: string)

  datatype Type = Type(fields: seq<Field>) {
    /** A type without fields counts as a scalar. */
    predicate Scalar() {
      fields == []
    }
  }

  type Types = map<string, Type>

  datatype RootSchema = RootSchema(query: Option<string>, mutation: Option<string>, subscription: Option<string>)

  datatype Error =
    | NoResolverFoundInSchema
    | QueryRootIsMissing
    | QueryTypeNotDefined
    | MutationTypeNotDefined
    | SubscriptionTypeNotDefined

  /** Edges to the declared types of fields that have no resolver of their own. */
  function ResolverlessGraph(types: Types): Graph {
    map n | n in types :: set f | f in types[n].fields && !f.hasResolver && f.typeName in types :: f.typeName
  }

  /** No resolver, and a type nobody declares: such a field can never produce a value. */
  predicate Unresolvable(types: Types, f: Field) {
    !f.hasResolver && f.typeName !in types
  }

  /** Some unresolvable field can be reached from `root` through fields without resolvers. */
  ghost predicate Defective(types: Types, root: string) {
    exists n, f :: Reaches(ResolverlessGraph(types), root, n) && n in types &&
                   f in types[n].fields && Unresolvable(types, f)
  }

  /** A field that the check must report, seen from the field itself. */
  ghost predicate FieldDefective(types: Types, f: Field) {
    !f.hasResolver && (f.typeName in types ==> Defective(types, f.typeName))
  }

  // ---------------------------------------------------------------------------------------------
  // What a check does, seen from the types it has not visited

  /** The edges among types that have not been visited. */
  function UnvisitedGraph(types: Types, visited: set<string>): Graph {
    map n | n in types && n !in visited :: ResolverlessGraph(types)[n] - visited
  }

  /** The types that a check of `name` visits: what can be reached past the visited ones, without scalars. */
  ghost function Opened(types: Types, visited: set<string>, name: string): set<string> {
    set n | n in types && n !in visited && name !in visited && !types[n].Scalar() &&
            Reaches(UnvisitedGraph(types, visited), name, n)
  }

  /** Some field of one of these types can never produce a value. */
  ghost predicate HasHopeless(types: Types, names: set<string>) {
    exists n, f :: n in names && n in types && f in types[n].fields && Unresolvable(types, f)
  }

  ghost predicate AnyHopeless(types: Types, fields: seq<Field>) {
    exists f :: f in fields && Unresolvable(types, f)
  }

  ghost function OpenedBy(types: Types, visited: set<string>, f: Field): set<string> {
    if f.hasResolver || f.typeName !in types then {} else Opened(types, visited, f.typeName)
  }

  /** The check of a field fails when it reaches something hopeless past the types visited by then. */
  ghost predicate Fails(types: Types, visited: set<string>, f: Field) {
    !f.hasResolver && (f.typeName in types ==> HasHopeless(types, Opened(types, visited, f.typeName)))
  }

  /** The visited types after checking some fields in order. */
  ghost function VisitedAfter(types: Types, visited: set<string>, fields: seq<Field>): set<string> {
    if fields == [] then visited
    else
      var before := VisitedAfter(types, visited, fields[..|fields| - 1]);
      before + OpenedBy(types, before, fields[|fields| - 1])
  }

  /** The causes that checking some fields in order reports: one for each field that fails when its turn comes. */
  ghost function CausesOf(types: Types, visited: set<string>, fields: seq<Field>, path: seq<string>):
    seq<Cause<Error>>
  {
    if fields == [] then []
    else
      var front, last := fields[..|fields| - 1], fields[|fields| - 1];
      CausesOf(types, visited, front, path) +
      if Fails(types, VisitedAfter(types, visited, front), last)
      then [Cause(NoResolverFoundInSchema, path + [last.name])] else []
  }

  /** The outcome of checking a type. */
  ghost function TypeOutcome(types: Types, visited: set<string>, name: string): Valid<(), Error>
    requires name in types
  {
    var causes := if name in visited then [] else CausesOf(types, visited + {name}, types[name].fields, [name]);
    if causes == [] then Ok(()) else Err(causes)
  }

  ghost function FieldOutcome(types: Types, visited: set<string>, f: Field): Valid<(), Error> {
    if Fails(types, visited, f) then Err([Cause(NoResolverFoundInSchema, [f.name])]) else Ok(())
  }

  lemma {:induction false} VisitedGrows(types: Types, visited: set<string>, fields: seq<Field>)
    ensures visited <= VisitedAfter(types, visited, fields)
  {
    if fields != [] {
      VisitedGrows(types, visited, fields[..|fields| - 1]);
    }
  }

  lemma LessVisitedReachesMore(types: Types, visited: set<string>, more: set<string>, a: string, b: string)
    requires visited <= more && Reaches(UnvisitedGraph(types, more), a, b)
    ensures Reaches(UnvisitedGraph(types, visited), a, b)
  {
    ReachesInLarger(UnvisitedGraph(types, more), UnvisitedGraph(types, visited), a, b);
  }

  /** What the fields of a type open, one after the other, is opened by the type. */
  lemma {:induction false} FieldsOpenNoMore(types: Types, visited: set<string>, name: string, fields: seq<Field>)
    requires name in types && name !in visited && !types[name].Scalar()
    requires forall f :: f in fields ==> f in types[name].fields
    ensures VisitedAfter(types, visited + {name}, fields) <= visited + Opened(types, visited, name)
  {
    var g := UnvisitedGraph(types, visited);
    if fields == [] {
      ReachesSelf(g, name);
    } else {
      var front, last := fields[..|fields| - 1], fields[|fields| - 1];
      FieldsOpenNoMore(types, visited, name, front);
      VisitedGrows(types, visited + {name}, front);
      var before := VisitedAfter(types, visited + {name}, front);
      forall n | n in OpenedBy(types, before, last) ensures n in Opened(types, visited, name) {
        LessVisitedReachesMore(types, visited, before, last.typeName, n);
        assert last.typeName in Successors(g, name);
        ReachesVia(g, name, last.typeName, n);
      }
    }
  }

  /** Everything opened so far has its successors visited, and so have the fields themselves. */
  ghost predicate OpenedUp(types: Types, start: set<string>, fields: seq<Field>, visited: set<string>) {
    && (forall f :: f in fields && !f.hasResolver && f.typeName in types && !types[f.typeName].Scalar() ==>
          f.typeName in visited)
    && (forall a, b :: a in visited - start && b in Successors(ResolverlessGraph(types), a) && !types[b].Scalar() ==>
          b in visited)
  }

  lemma OneFieldOpensUp(types: Types, visited: set<string>, f: Field)
    ensures OpenedUp(types, visited, [f], visited + OpenedBy(types, visited, f))
  {
    if !f.hasResolver && f.typeName in types && f.typeName !in visited {
      var g, t := UnvisitedGraph(types, visited), f.typeName;
      ReachesSelf(g, t);
      forall a, b | a in Opened(types, visited, t) && b in Successors(ResolverlessGraph(types), a) &&
                    !types[b].Scalar() && b !in visited
        ensures b in Opened(types, visited, t)
      {
        ReachesStep(g, t, a, b);
      }
    }
  }

  lemma {:induction false} FieldsOpenUp(types: Types, start: set<string>, fields: seq<Field>)
    ensures OpenedUp(types, start, fields, VisitedAfter(types, start, fields))
  {
    if fields != [] {
      var n := |fields| - 1;
      var before := VisitedAfter(types, start, fields[..n]);
      FieldsOpenUp(types, start, fields[..n]);
      OneFieldOpensUp(types, before, fields[n]);
      PrefixGrows(fields, n);
      WholePrefix(fields);
      assert fields[n] in [fields[n]];
    }
  }

  /** A type opens itself and what its fields open, one after the other: nothing is missed behind visited types. */
  lemma OpenedUnfolds(types: Types, visited: set<string>, name: string)
    requires name in types && name !in visited && !types[name].Scalar()
    ensures VisitedAfter(types, visited + {name}, types[name].fields) == visited + Opened(types, visited, name)
  {
    var g, after := UnvisitedGraph(types, visited), VisitedAfter(types, visited + {name}, types[name].fields);
    FieldsOpenNoMore(types, visited, name, types[name].fields);
    VisitedGrows(types, visited + {name}, types[name].fields);
    FieldsOpenUp(types, visited + {name}, types[name].fields);
    var safe := after + set n | n in types && types[n].Scalar();
    forall a, b | a in safe && b in Successors(g, a) ensures b in safe {
      if a == name {
        var f :| f in types[name].fields && !f.hasResolver && f.typeName in types && f.typeName == b;
      } else {
        assert b in Successors(ResolverlessGraph(types), a);
      }
    }
    forall n | n in Opened(types, visited, name) ensures n in after {
      ClosedHoldsReach(g, safe, name, n);
    }
  }

  /** Something is reported exactly when a field is hopeless or opens a type with a hopeless field. */
  lemma {:induction false} ReportsExactly(types: Types, start: set<string>, fields: seq<Field>, path: seq<string>)
    ensures CausesOf(types, start, fields, path) != [] <==>
            AnyHopeless(types, fields) || HasHopeless(types, VisitedAfter(types, start, fields) - start)
  {
    if fields != [] {
      var n := |fields| - 1;
      var before := VisitedAfter(types, start, fields[..n]);
      ReportsExactly(types, start, fields[..n], path);
      VisitedGrows(types, start, fields[..n]);
      assert AnyHopeless(types, fields) <==> AnyHopeless(types, fields[..n]) || Unresolvable(types, fields[n]) by {
        assert fields == fields[..n] + [fields[n]];
      }
      HopelessInEither(types, before - start, OpenedBy(types, before, fields[n]));
      assert (before + OpenedBy(types, before, fields[n])) - start ==
             (before - start) + OpenedBy(types, before, fields[n]);
    }
  }

  lemma HopelessInEither(types: Types, a: set<string>, b: set<string>)
    ensures HasHopeless(types, a + b) <==> HasHopeless(types, a) || HasHopeless(types, b)
  {
  }

  /** The check of a type fails exactly when it opens a type with a hopeless field. */
  lemma TypeFailsExactly(types: Types, visited: set<string>, name: string)
    requires name in types
    ensures TypeOutcome(types, visited, name).Err? <==> HasHopeless(types, Opened(types, visited, name))
    ensures types[name].Scalar() || name in visited ==> Opened(types, visited, name) == {}
  {
    if types[name].Scalar() {
      ScalarOpensNothing(types, visited, name);
    } else if name !in visited {
      var start, fields := visited + {name}, types[name].fields;
      OpenedUnfolds(types, visited, name);
      ReportsExactly(types, start, fields, [name]);
      VisitedGrows(types, start, fields);
      assert Opened(types, visited, name) == {name} + (VisitedAfter(types, start, fields) - start);
      HopelessInEither(types, {name}, VisitedAfter(types, start, fields) - start);
    }
  }

  lemma ScalarOpensNothing(types: Types, visited: set<string>, name: string)
    requires name in types && types[name].Scalar()
    ensures Opened(types, visited, name) == {}
  {
    var g := UnvisitedGraph(types, visited);
    assert Successors(g, name) == {};
    forall n | n in Opened(types, visited, name) ensures n == name {
      ClosedHoldsReach(g, {name}, name, n);
    }
  }

  /** Putting the name of the type in front is the same as reporting under it. */
  lemma {:induction false} TracedCauses(types: Types, visited: set<string>, fields: seq<Field>, name: string)
    ensures |CausesOf(types, visited, fields, [])| == |CausesOf(types, visited, fields, [name])|
    ensures forall i :: 0 <= i < |CausesOf(types, visited, fields, [])| ==>
              CausesOf(types, visited, fields, [name])[i] ==
              CausesOf(types, visited, fields, [])[i].(trace := [name] + CausesOf(types, visited, fields, [])[i].trace)
  {
    if fields != [] {
      TracedCauses(types, visited, fields[..|fields| - 1], name);
      var f := fields[|fields| - 1];
      assert [name] + ([] + [f.name]) == [name] + [f.name];
    }
  }

  lemma TracedOutcome<A>(types: Types, visited: set<string>, name: string, r: Valid<A, Error>)
    requires name in types && name !in visited && r.Honest()
    requires r.Causes() == CausesOf(types, visited + {name}, types[name].fields, [])
    ensures r.Trace(name).Causes() == TypeOutcome(types, visited, name).Causes()
    ensures r.Ok? <==> TypeOutcome(types, visited, name).Ok?
  {
    TracedCauses(types, visited + {name}, types[name].fields, name);
  }

  // ---------------------------------------------------------------------------------------------
  // What the reported causes say

  lemma FailingIsDefective(types: Types, visited: set<string>, f: Field)
    requires Fails(types, visited, f)
    ensures FieldDefective(types, f)
  {
    if f.typeName in types {
      var n, f' :| n in Opened(types, visited, f.typeName) && f' in types[n].fields && Unresolvable(types, f');
      ReachesInLarger(UnvisitedGraph(types, visited), ResolverlessGraph(types), f.typeName, n);
    }
  }

  /** Every cause names a field, under `path`, that really is defective. */
  lemma {:induction false} CausesAreDefects(types: Types, visited: set<string>, fields: seq<Field>, path: seq<string>,
                                            c: Cause<Error>) returns (f: Field)
    requires c in CausesOf(types, visited, fields, path)
    ensures f in fields && FieldDefective(types, f) && c == Cause(NoResolverFoundInSchema, path + [f.name])
  {
    var front, last := fields[..|fields| - 1], fields[|fields| - 1];
    if c in CausesOf(types, visited, front, path) {
      f := CausesAreDefects(types, visited, front, path, c);
    } else {
      f := last;
      FailingIsDefective(types, VisitedAfter(types, visited, front), last);
    }
  }

  /** A field that can by itself never produce a value is always among the causes. */
  lemma {:induction false} HopelessIsReported(types: Types, visited: set<string>, fields: seq<Field>, path: seq<string>,
                                              f: Field)
    requires f in fields && Unresolvable(types, f)
    ensures Cause(NoResolverFoundInSchema, path + [f.name]) in CausesOf(types, visited, fields, path)
  {
    if f != fields[|fields| - 1] {
      HopelessIsReported(types, visited, fields[..|fields| - 1], path, f);
    }
  }

  // ---------------------------------------------------------------------------------------------
  // The check

  /** The set of visited type names that one check shares between all its calls. */
  class Visited {
    var names: set<string>

    constructor ()
      ensures names == {}
    {
      names := {};
    }
  }

  lemma SameByCauses(x: Valid<(), Error>, y: Valid<(), Error>)
    requires x.Causes() == y.Causes() && (x.Ok? <==> y.Ok?)
    ensures x == y
  {
    if x.Ok? {
      assert x.value == () == y.value;
    }
  }

  lemma NoTurnYet(types: Types, start: set<string>, fields: seq<Field>)
    ensures VisitedAfter(types, start, fields[..0]) == start && CausesOf(types, start, fields[..0], []) == []
  {
  }

  /** What the turn of one more field adds. */
  lemma FieldTurn(types: Types, start: set<string>, fields: seq<Field>, i: nat)
    requires i < |fields|
    ensures var visited := VisitedAfter(types, start, fields[..i]);
            && VisitedAfter(types, start, fields[..i + 1]) == visited + OpenedBy(types, visited, fields[i])
            && CausesOf(types, start, fields[..i + 1], []) ==
               CausesOf(types, start, fields[..i], []) + FieldOutcome(types, visited, fields[i]).Causes()
  {
    assert fields[..i + 1][..i] == fields[..i];
    assert [] + [fields[i].name] == [fields[i].name];
  }

  method ValidateTypeHasResolvers(name: string, ty: Type, types: Types, visited: Visited) returns (r: Valid<(), Error>)
    requires name in types && types[name] == ty
    modifies visited
    ensures visited.names == old(visited.names) + Opened(types, old(visited.names), name)
    ensures r == TypeOutcome(types, old(visited.names), name)
    decreases |types.Keys - visited.names|, 0
  {
    TypeFailsExactly(types, visited.names, name);
    if ty.Scalar() || name in visited.names {
      return Ok(());
    }
    OpenedUnfolds(types, visited.names, name);
    visited.names := visited.names + {name};
    ghost var before := visited.names;
    OneFewerLeft(types.Keys, old(visited.names), name);

    var collected: Collected<(), Error> := Collected([], []);
    NoTurnYet(types, before, ty.fields);
    hide Fails, Opened, HasHopeless, CausesOf, VisitedAfter, TypeOutcome, OpenedBy, FieldOutcome;
    for i := 0 to |ty.fields|
      invariant visited.names == VisitedAfter(types, before, ty.fields[..i])
      invariant collected.errors == CausesOf(types, before, ty.fields[..i], [])
    {
      VisitedGrows(types, before, ty.fields[..i]);
      SubsetSize(types.Keys - visited.names, types.Keys - before);
      FieldTurn(types, before, ty.fields, i);
      var res := ValidateFieldHasResolver(ty.fields[i].name, ty.fields[i], types, visited);
      AddsCauses(collected, res);
      collected := collected.Add(res);
    }
    WholePrefix(ty.fields);
    var finished := collected.Finish();
    var traced := finished.Trace(name);
    r := traced.Map(values => ());
    TracedOutcome(types, old(visited.names), name, finished);
    SameByCauses(r, TypeOutcome(types, old(visited.names), name));
  }

  method ValidateFieldHasResolver(name: string, field: Field, types: Types, visited: Visited)
    returns (r: Valid<(), Error>)
    requires name == field.name
    modifies visited
    ensures visited.names == old(visited.names) + OpenedBy(types, old(visited.names), field)
    ensures r == FieldOutcome(types, old(visited.names), field)
    decreases |types.Keys - visited.names|, 1
  {
    var unresolved := false;
    if !field.hasResolver {
      var typeName := field.typeName;
      if typeName in types {
        TypeFailsExactly(types, visited.names, typeName);
        var res := ValidateTypeHasResolvers(typeName, types[typeName], types, visited);
        unresolved := !res.Ok?;
      } else {
        unresolved := true;
      }
    }
    var failure: Valid<(), Error> := Fail(NoResolverFoundInSchema);
    r := failure.When(unresolved).Trace(name);
    assert [name] + [] == [name];
    assert unresolved ==> r.causes == [Cause(NoResolverFoundInSchema, [name])];
  }

  lemma DefectiveMeansHopeless(types: Types, root: string)
    requires root in types
    ensures Defective(types, root) <==> HasHopeless(types, Opened(types, {}, root))
  {
    var g, h := UnvisitedGraph(types, {}), ResolverlessGraph(types);
    assert forall n :: Successors(g, n) == Successors(h, n);
    forall n ensures Reaches(g, root, n) <==> Reaches(h, root, n) {
      SameReach(g, h, root, n);
    }
  }

  /** A field of type `a` without a resolver has the declared type `b`. */
  ghost predicate LeadsTo(types: Types, a: string, b: string) {
    a in types && b in types && exists f :: f in types[a].fields && !f.hasResolver && f.typeName == b
  }

  /** Types connected by fields without resolvers. */
  ghost predicate IsBarePath(types: Types, path: seq<string>) {
    path != [] && path[0] in types && forall j :: 0 < j < |path| ==> LeadsTo(types, path[j - 1], path[j])
  }

  /** The last type of the path has a field that no resolver backs and whose type nobody declares. */
  ghost predicate EndsHopeless(types: Types, path: seq<string>) {
    path != [] && path[|path| - 1] in types &&
    exists f :: f in types[path[|path| - 1]].fields && !f.hasResolver && f.typeName !in types
  }

  lemma BarePathsArePaths(types: Types, path: seq<string>)
    requires path != [] && path[0] in types
    ensures IsBarePath(types, path) <==> IsPath(ResolverlessGraph(types), path)
  {
    assert forall a, b :: b in Successors(ResolverlessGraph(types), a) <==> LeadsTo(types, a, b);
    hide LeadsTo, ResolverlessGraph;
  }

  /** Defective, in the terms of the schema alone. */
  lemma DefectiveMeaning(types: Types, root: string)
    requires root in types
    ensures Defective(types, root) <==>
            exists path :: IsBarePath(types, path) && path[0] == root && EndsHopeless(types, path)
  {
    var g := ResolverlessGraph(types);
    if Defective(types, root) {
      var n, f :| Reaches(g, root, n) && n in types && f in types[n].fields && Unresolvable(types, f);
      var path :| IsPath(g, path) && path[0] == root && path[|path| - 1] == n;
      BarePathsArePaths(types, path);
      assert EndsHopeless(types, path);
    }
    if path :| IsBarePath(types, path) && path[0] == root && EndsHopeless(types, path) {
      BarePathsArePaths(types, path);
      var n := path[|path| - 1];
      var f :| f in types[n].fields && !f.hasResolver && f.typeName !in types;
      assert Reaches(g, root, n) && Unresolvable(types, f);
    }
  }

  /** One check from an empty visited set: exact, on cyclic schemas too. */
  method ValidateRootType(root: string, types: Types) returns (r: Valid<(), Error>)
    requires root in types
    ensures r.Ok? <==> !Defective(types, root)
    ensures r.Err? <==> exists path :: IsBarePath(types, path) && path[0] == root && EndsHopeless(types, path)
    ensures r == TypeOutcome(types, {}, root)
  {
    var visited := new Visited();
    r := ValidateTypeHasResolvers(root, types[root], types, visited);
    TypeFailsExactly(types, {}, root);
    DefectiveMeansHopeless(types, root);
    DefectiveMeaning(types, root);
  }

  /** An operation root that is named must be declared and sound. */
  ghost predicate RootSound(types: Types, root: Option<string>) {
    root.Some? ==> root.value in types && !Defective(types, root.value)
  }

  /** The outcome of checking one root: one cause for an undeclared root, and the defects of a declared one. */
  ghost predicate RootChecked(types: Types, root: Option<string>, undeclared: Error, r: Valid<(), Error>) {
    && (r.Ok? <==> RootSound(types, root))
    && r.Honest()
    && (root.Some? ==>
         r == if root.value in types then TypeOutcome(types, {}, root.value)
              else Err([Cause(undeclared, [root.value])]))
  }

  /** The outcome for the query root, which has to be named. */
  ghost predicate QueryChecked(schema: RootSchema, types: Types, r: Valid<(), Error>) {
    if schema.query.None? then r == Fail(QueryRootIsMissing)
    else RootChecked(types, schema.query, QueryTypeNotDefined, r)
  }

  method ValidateQuery(schema: RootSchema, types: Types) returns (r: Valid<(), Error>)
    ensures QueryChecked(schema, types, r)
  {
    if schema.query.None? {
      return Fail(QueryRootIsMissing);
    }
    if schema.query.value !in types {
      return FailAt(QueryTypeNotDefined, schema.query.value);
    }
    r := ValidateRootType(schema.query.value, types);
  }

  method ValidateOptionalRoot(root: Option<string>, types: Types, undeclared: Error) returns (r: Valid<(), Error>)
    ensures RootChecked(types, root, undeclared, r)
  {
    if root.None? {
      return Ok(());
    }
    if root.value !in types {
      return FailAt(undeclared, root.value);
    }
    r := ValidateRootType(root.value, types);
  }

  /** The causes of the three checks, the missing query root a second time, and the directive, in this order. */
  ghost predicate SchemaCauses<D>(schema: RootSchema, types: Types, directive: Valid<D, Error>,
                                  causes: seq<Cause<Error>>) {
    exists query, mutation, subscription ::
      && QueryChecked(schema, types, query)
      && RootChecked(types, schema.mutation, MutationTypeNotDefined, mutation)
      && RootChecked(types, schema.subscription, SubscriptionTypeNotDefined, subscription)
      && causes == query.Causes() + mutation.Causes() + subscription.Causes() +
                   (if schema.query.None? then [Cause(QueryRootIsMissing, [])] else []) + directive.Causes()
  }

  /** What an optional root adds: nothing when it is missing, one cause when it is undeclared, else its defects. */
  lemma RootCausesMeaning(types: Types, root: Option<string>, undeclared: Error, r: Valid<(), Error>)
    requires RootChecked(types, root, undeclared, r)
    ensures root.None? ==> r.Causes() == []
    ensures root.Some? && root.value !in types ==> r.Causes() == [Cause(undeclared, [root.value])]
    ensures root.Some? && root.value in types ==>
              && (r.Causes() == [] <==> !Defective(types, root.value))
              && r.Causes() == TypeOutcome(types, {}, root.value).Causes()
  {
  }

  /** The causes of a schema part by part: query, mutation, subscription, the query root again, the directive. */
  lemma CausesInTurn<D>(schema: RootSchema, types: Types, directive: Valid<D, Error>, causes: seq<Cause<Error>>)
    returns (query: seq<Cause<Error>>, mutation: seq<Cause<Error>>, subscription: seq<Cause<Error>>)
    requires SchemaCauses(schema, types, directive, causes)
    ensures schema.query.None? ==>
              && query == [Cause(QueryRootIsMissing, [])]
              && causes == query + mutation + subscription + query + directive.Causes()
    ensures schema.query.Some? ==> causes == query + mutation + subscription + directive.Causes()
    ensures var roots, parts, undeclared :=
              [schema.query, schema.mutation, schema.subscription], [query, mutation, subscription],
              [QueryTypeNotDefined, MutationTypeNotDefined, SubscriptionTypeNotDefined];
            forall k :: 0 <= k < 3 ==>
              && (roots[k].None? && k > 0 ==> parts[k] == [])
              && (roots[k].Some? && roots[k].value !in types ==> parts[k] == [Cause(undeclared[k], [roots[k].value])])
              && (roots[k].Some? && roots[k].value in types ==>
                    parts[k] == TypeOutcome(types, {}, roots[k].value).Causes())
  {
    var q, m, s :|
      && QueryChecked(schema, types, q)
      && RootChecked(types, schema.mutation, MutationTypeNotDefined, m)
      && RootChecked(types, schema.subscription, SubscriptionTypeNotDefined, s)
      && causes == q.Causes() + m.Causes() + s.Causes() +
                   (if schema.query.None? then [Cause(QueryRootIsMissing, [])] else []) + directive.Causes();
    query, mutation, subscription := q.Causes(), m.Causes(), s.Causes();
    if schema.query.Some? {
      RootCausesMeaning(types, schema.query, QueryTypeNotDefined, q);
      assert query + mutation + subscription + [] == query + mutation + subscription;
    }
    RootCausesMeaning(types, schema.mutation, MutationTypeNotDefined, m);
    RootCausesMeaning(types, schema.subscription, SubscriptionTypeNotDefined, s);
    hide RootChecked, QueryChecked, TypeOutcome;
  }

  method ToSchema<D>(schema: RootSchema, types: Types, directive: Valid<D, Error>)
    returns (r: Valid<(string, D), Error>)
    ensures r.Ok? <==> && schema.query.Some?
                       && RootSound(types, schema.query)
                       && RootSound(types, schema.mutation)
                       && RootSound(types, schema.subscription)
                       && directive.Ok?
    ensures r.Ok? ==> r.value == (schema.query.value, directive.value)
    ensures SchemaCauses(schema, types, directive, r.Causes())
  {
    var query := ValidateQuery(schema, types);
    var mutation := ValidateOptionalRoot(schema.mutation, types, MutationTypeNotDefined);
    var subscription := ValidateOptionalRoot(schema.subscription, types, SubscriptionTypeNotDefined);
    assert QueryChecked(schema, types, query);
    hide RootChecked, QueryChecked;
    var root: Valid<string, Error> :=
      if schema.query.Some? then Ok(schema.query.value) else Fail(QueryRootIsMissing);
    r := query.And(mutation).And(subscription).And(root).Zip(directive);
    AndAccumulates(query, mutation);
    AndAccumulates(query.And(mutation), subscription);
    AndAccumulates(query.And(mutation).And(subscription), root);
    ZipAccumulates(query.And(mutation).And(subscription).And(root), directive);
  }
}
