/**
  The error-accumulating result: a success value, or the list of everything that went wrong.
  `Zip`, `And` and `Fold` never lose a cause; `AndThen` stops at the first failure.
*/
module Validation {
  import opened Sequences

  /** One error with the path of names under which it was found, outermost name first. */
  datatype Cause<+E> = Cause(message: E, trace: seq<string>)

  datatype Valid<+A, +E> = Ok(value: A) | Err(causes: seq<Cause<E>>) {

    /** A failure that carries at least one cause; `FromIter` needs this of every failure it collects. */
    predicate Honest() {
      Err? ==> causes != []
    }

    /** The causes of a failure; none for a success. */
    function Causes(): seq<Cause<E>> {
      if Err? then causes else []
    }

    function Map<B>(f: A -> B): Valid<B, E> {
      match this
      case Ok(a) => Ok(f(a))
      case Err(e) => Err(e)
    }

    function Zip<B>(other: Valid<B, E>): Valid<(A, B), E> {
      match this
      case Ok(a) => (match other case Ok(b) => Ok((a, b)) case Err(e) => Err(e))
      case Err(e) => (match other case Ok(_) => Err(e) case Err(e') => Err(e + e'))
    }

    function And<B>(other: Valid<B, E>): Valid<B, E> {
      Zip(other).Map((p: (A, B)) => p.1)
    }

    function Fold<B>(ok: A -> Valid<B, E>, err: () -> Valid<B, E>): Valid<B, E> {
      match this
      case Ok(a) => ok(a)
      case Err(e) => Valid<B, E>.Err(e).And(err())
    }

    function AndThen<B>(f: A -> Valid<B, E>): Valid<B, E> {
      match this
      case Ok(a) => f(a)
      case Err(e) => Err(e)
    }

    /** Puts `name` in front of the path of every cause. */
    function Trace(name: string): Valid<A, E> {
      match this
      case Ok(a) => Ok(a)
      case Err(e) => Err(seq(|e|, i requires 0 <= i < |e| => e[i].(trace := [name] + e[i].trace)))
    }

    /** Keeps the outcome when `condition` holds and succeeds otherwise. */
    function When(condition: bool): Valid<(), E> {
      if condition then Map(a => ()) else Ok(())
    }
  }

  function Fail<A, E>(message: E): Valid<A, E> {
    Err([Cause(message, [])])
  }

  /** A single failure found under `name`. */
  function FailAt<A, E>(message: E, name: string): (r: Valid<A, E>)
    ensures r == Err([Cause(message, [name])])
  {
    var failure: Valid<A, E> := Fail(message);
    var r := failure.Trace(name);
    assert [name] + [] == [name];
    assert r.causes == [Cause(message, [name])];
    r
  }

  /** Neither combination loses a cause, and the causes of the first come first. */
  lemma ZipAccumulates<A, B, E>(x: Valid<A, E>, y: Valid<B, E>)
    ensures x.Zip(y).Causes() == x.Causes() + y.Causes()
    ensures x.Zip(y).Ok? <==> x.Ok? && y.Ok?
  {
  }

  lemma AndAccumulates<A, B, E>(x: Valid<A, E>, y: Valid<B, E>)
    ensures x.And(y).Causes() == x.Causes() + y.Causes()
    ensures x.And(y).Ok? <==> x.Ok? && y.Ok?
    ensures x.And(y).Ok? ==> x.And(y).value == y.value
  {
  }

  /** All causes of a list of outcomes, in order. */
  function AllCauses<A, E>(results: seq<Valid<A, E>>): seq<Cause<E>> {
    if results == [] then [] else AllCauses(results[..|results| - 1]) + results[|results| - 1].Causes()
  }

  /** All success values of a list of outcomes, in order. */
  function Successes<A, E>(results: seq<Valid<A, E>>): seq<A> {
    if results == [] then []
    else
      var rest := Successes(results[..|results| - 1]);
      var last := results[|results| - 1];
      if last.Ok? then rest + [last.value] else rest
  }

  predicate AllOk<A, E>(results: seq<Valid<A, E>>) {
    forall k :: 0 <= k < |results| ==> results[k].Ok?
  }

  /** What a collecting loop has so far: all values, and all causes. */
  datatype Collected<+A, +E> = Collected(values: seq<A>, errors: seq<Cause<E>>) {

    function Add(result: Valid<A, E>): Collected<A, E> {
      match result
      case Ok(a) => Collected(values + [a], errors)
      case Err(e) => Collected(values, errors + e)
    }

    function Finish(): Valid<seq<A>, E> {
      if errors == [] then Ok(values) else Err(errors)
    }

    ghost predicate Of(results: seq<Valid<A, E>>) {
      values == Successes(results) && errors == AllCauses(results)
    }
  }

  lemma AddsCauses<A, E>(c: Collected<A, E>, result: Valid<A, E>)
    ensures c.Add(result).errors == c.errors + result.Causes()
  {
  }

  lemma AddKeepsCollected<A, E>(c: Collected<A, E>, results: seq<Valid<A, E>>, result: Valid<A, E>)
    requires c.Of(results)
    ensures c.Add(result).Of(results + [result])
  {
    assert (results + [result])[..|results|] == results;
  }

  /** The outcomes of calling `f` on all items in order, and the state that `f` leaves behind. */
  function Outcomes<A, B, E, S>(items: seq<A>, f: (A, S) -> (Valid<B, E>, S), state: S): (r: (seq<Valid<B, E>>, S))
    ensures |r.0| == |items|
  {
    if items == [] then ([], state)
    else
      var before := Outcomes(items[..|items| - 1], f, state);
      var last := f(items[|items| - 1], before.1);
      (before.0 + [last.0], last.1)
  }

  /** The states between the calls: each call gets the state that the one before it left behind. */
  ghost predicate IsThread<A, B, E, S>(items: seq<A>, f: (A, S) -> (Valid<B, E>, S), states: seq<S>,
                                       results: seq<Valid<B, E>>)
  {
    && |states| == |items| + 1 && |results| == |items|
    && forall i :: 0 <= i < |items| ==> (results[i], states[i + 1]) == f(items[i], states[i])
  }

  lemma {:induction false} OutcomesAreThreaded<A, B, E, S>(items: seq<A>, f: (A, S) -> (Valid<B, E>, S), state: S)
    returns (states: seq<S>)
    ensures IsThread(items, f, states, Outcomes(items, f, state).0)
    ensures states[0] == state && states[|items|] == Outcomes(items, f, state).1
  {
    states := [state];
    if items != [] {
      var n := |items| - 1;
      var before := OutcomesAreThreaded(items[..n], f, state);
      states := before + [Outcomes(items, f, state).1];
      var results := Outcomes(items, f, state).0;
      forall i | 0 <= i < |items| ensures (results[i], states[i + 1]) == f(items[i], states[i]) {
        if i < n {
          assert (Outcomes(items[..n], f, state).0[i], before[i + 1]) == f(items[..n][i], before[i]);
        }
      }
    }
  }

  /** Values and causes of a list are those of its parts, in order; a single outcome has what it carries. */
  lemma {:induction false} CollectedInTurn<A, E>(a: seq<Valid<A, E>>, b: seq<Valid<A, E>>, one: Valid<A, E>)
    ensures AllCauses(a + b) == AllCauses(a) + AllCauses(b)
    ensures Successes(a + b) == Successes(a) + Successes(b)
    ensures AllCauses([one]) == one.Causes() && Successes([one]) == if one.Ok? then [one.value] else []
  {
    assert [one][..0] == [];
    if b == [] {
      assert a + b == a;
    } else {
      var n := |b| - 1;
      assert (a + b)[..|a + b| - 1] == a + b[..n];
      CollectedInTurn(a, b[..n], one);
      Regroup(AllCauses(a), AllCauses(b[..n]), b[n].Causes());
      Regroup(Successes(a), Successes(b[..n]), if b[n].Ok? then [b[n].value] else []);
    }
  }

  /**
    Calls `f` on every item, whatever failed before, and collects either all values or all causes; `f` may
    change its state from call to call.
  */
  method FromIter<A, B, E, S>(items: seq<A>, f: (A, S) -> (Valid<B, E>, S), state: S)
    returns (r: Valid<seq<B>, E>, after: S, ghost states: seq<S>, ghost results: seq<Valid<B, E>>)
    ensures IsThread(items, f, states, results) && states[0] == state && states[|items|] == after
    ensures r.Ok? <==> AllCauses(results) == []
    ensures r == if r.Ok? then Ok(Successes(results)) else Err(AllCauses(results))
    ensures after == Outcomes(items, f, state).1
    ensures r.Ok? <==> AllCauses(Outcomes(items, f, state).0) == []
    ensures r.Ok? ==> r.value == Successes(Outcomes(items, f, state).0)
    ensures r.Err? ==> r.causes == AllCauses(Outcomes(items, f, state).0)
  {
    var collected: Collected<B, E> := Collected([], []);
    after := state;
    for n := 0 to |items|
      invariant collected.Of(Outcomes(items[..n], f, state).0)
      invariant after == Outcomes(items[..n], f, state).1
    {
      assert items[..n + 1][..n] == items[..n];
      var called := f(items[n], after);
      AddKeepsCollected(collected, Outcomes(items[..n], f, state).0, called.0);
      collected, after := collected.Add(called.0), called.1;
    }
    assert items[..|items|] == items;
    r := collected.Finish();
    results := Outcomes(items, f, state).0;
    states := OutcomesAreThreaded(items, f, state);
  }

  lemma {:induction false} NoCausesExactly<A, E>(results: seq<Valid<A, E>>)
    ensures AllCauses(results) == [] <==> forall i :: 0 <= i < |results| ==> results[i].Causes() == []
  {
    if results != [] {
      var n := |results| - 1;
      NoCausesExactly(results[..n]);
      assert forall i :: 0 <= i < n ==> results[..n][i] == results[i];
    }
  }

  /** The collection tells success from failure exactly when all items succeed or some failure carries a cause. */
  lemma CollectionIsRightExactly<A, E>(results: seq<Valid<A, E>>)
    ensures (AllCauses(results) == [] <==> AllOk(results)) <==>
            (AllOk(results) || exists i :: 0 <= i < |results| && results[i].Causes() != [])
  {
    NoCausesExactly(results);
  }

  lemma {:induction false} SuccessesKeepPositions<A, E>(results: seq<Valid<A, E>>)
    requires AllOk(results)
    ensures |Successes(results)| == |results|
    ensures forall i :: 0 <= i < |results| ==> Successes(results)[i] == results[i].value
  {
    if results != [] {
      var n := |results| - 1;
      SuccessesKeepPositions(results[..n]);
      assert forall i :: 0 <= i < n ==> results[..n][i] == results[i];
    }
  }

  /** With honest failures the collection succeeds exactly when every item does, and keeps positions. */
  lemma HonestCollection<A, E>(results: seq<Valid<A, E>>)
    requires forall i :: 0 <= i < |results| ==> results[i].Honest()
    ensures AllCauses(results) == [] <==> AllOk(results)
    ensures AllCauses(results) == [] ==>
              |Successes(results)| == |results| &&
              forall i :: 0 <= i < |results| ==> Successes(results)[i] == results[i].value
  {
    NoCausesExactly(results);
    hide AllCauses, Successes;
    assert forall i :: 0 <= i < |results| ==> (results[i].Causes() == [] <==> results[i].Ok?);
    if AllOk(results) { SuccessesKeepPositions(results); }
  }

  /** A failure without causes is read as a success that silently drops its value. */
  lemma DishonestFailureIsLost()
    ensures var results: seq<Valid<int, string>> := [Err([]), Ok(7)];
            AllCauses(results) == [] && Successes(results) == [7]
  {
    var results: seq<Valid<int, string>> := [Err([]), Ok(7)];
    assert results[..1] == [results[0]];
    assert results[..1][..0] == [];
  }

  /** Accumulation is associative: grouping never changes which causes are reported, or their order. */
  lemma AndAssociative<A, B, C, E>(x: Valid<A, E>, y: Valid<B, E>, z: Valid<C, E>)
    ensures x.And(y).And(z) == x.And(y.And(z))
    ensures x.And(y).And(z).Causes() == x.Causes() + y.Causes() + z.Causes()
    ensures x.And(y).And(z).Ok? <==> x.Ok? && y.Ok? && z.Ok?
  {
    if x.Err? && y.Err? && z.Err? {
      assert (x.causes + y.causes) + z.causes == x.causes + (y.causes + z.causes);
    }
  }
}
