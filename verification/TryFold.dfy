/**
  Composable folding steps over a state. Every step always runs, so that all errors are reported;
  the combinators differ in the state from which a step after a failure starts.
*/
module TryFolding {
  import opened Validation
  import opened Sequences

  datatype TryFold<!I, !O, !E> = TryFold(run: (I, O) -> Valid<O, E>) {

    function And(other: TryFold<I, O, E>): TryFold<I, O, E> {
      TryFold((input: I, state: O) =>
        run(input, state).Fold((s: O) => other.run(input, s), () => other.run(input, state)))
    }

    function TransformValid<P>(up: (O, P) -> Valid<P, E>, down: P -> Valid<O, E>): TryFold<I, P, E> {
      TryFold((input: I, outer: P) =>
        down(outer).AndThen((o: O) => run(input, o)).AndThen((o: O) => up(o, outer)))
    }

    function Transform<P>(up: (O, P) -> P, down: P -> O): TryFold<I, P, E> {
      TransformValid((o: O, p: P) => Ok(up(o, p)), (p: P) => Ok(down(p)))
    }
  }

  function Empty<I, O, E>(): TryFold<I, O, E> {
    TryFold((input: I, state: O) => Ok(state))
  }

  /** What a sequence of two steps computes, written without closures. */
  lemma AndRuns<I, O, E>(first: TryFold<I, O, E>, second: TryFold<I, O, E>, input: I, state: O)
    ensures first.And(second).run(input, state) ==
            match first.run(input, state)
            case Ok(s) => second.run(input, s)
            case Err(e) => (match second.run(input, state) case Ok(_) => Err(e) case Err(e') => Err(e + e'))
  {
    var r := first.run(input, state);
    var otherwise := () => second.run(input, state);
    match r
    case Ok(s) =>
    case Err(e) => assert r.Fold((s: O) => second.run(input, s), otherwise) == Valid<O, E>.Err(e).And(otherwise());
  }

  /** Nests to the right: the first step, then all the others as one step. */
  function FromIter<I, O, E>(steps: seq<TryFold<I, O, E>>): TryFold<I, O, E> {
    if steps == [] then Empty() else steps[0].And(FromIter(steps[1..]))
  }

  /** Nests to the left: `a.and(b).and(c)` and so on. */
  function Chain<I, O, E>(steps: seq<TryFold<I, O, E>>): TryFold<I, O, E>
    requires steps != []
  {
    var n := |steps| - 1;
    if n == 0 then steps[0] else Chain(steps[..n]).And(steps[n])
  }

  /** The value of the latest success, or the very first state when there is none. */
  function Latest<O, E>(results: seq<Valid<O, E>>, start: O): O {
    if results == [] then start
    else match results[|results| - 1]
      case Ok(s) => s
      case Err(_) => Latest(results[..|results| - 1], start)
  }

  /** What every step yields when the state is threaded and, after a failure, all go back to the start. */
  function ResettingResults<I, O, E>(steps: seq<TryFold<I, O, E>>, input: I, start: O): (results: seq<Valid<O, E>>)
    ensures |results| == |steps|
  {
    if steps == [] then []
    else
      var n := |steps| - 1;
      var before := ResettingResults(steps[..n], input, start);
      before + [steps[n].run(input, if AllOk(before) then Latest(before, start) else start)]
  }

  /** What every step yields when a failing step leaves the state as it was. */
  function KeepingResults<I, O, E>(steps: seq<TryFold<I, O, E>>, input: I, start: O): (results: seq<Valid<O, E>>)
    ensures |results| == |steps|
  {
    if steps == [] then []
    else
      var n := |steps| - 1;
      var before := KeepingResults(steps[..n], input, start);
      before + [steps[n].run(input, Latest(before, start))]
  }

  /** The latest value when every step succeeded, otherwise the causes of all failing steps in step order. */
  function Outcome<O, E>(results: seq<Valid<O, E>>, start: O): Valid<O, E> {
    if AllOk(results) then Ok(Latest(results, start)) else Err(AllCauses(results))
  }

  lemma {:induction false} NoCausesWhenOk<O, E>(results: seq<Valid<O, E>>)
    requires AllOk(results)
    ensures AllCauses(results) == []
  {
    if results != [] {
      NoCausesWhenOk(results[..|results| - 1]);
    }
  }

  lemma OutcomeSnoc<O, E>(results: seq<Valid<O, E>>, last: Valid<O, E>, start: O)
    ensures AllOk(results + [last]) <==> AllOk(results) && last.Ok?
    ensures AllCauses(results + [last]) == AllCauses(results) + last.Causes()
    ensures Latest(results + [last], start) == if last.Ok? then last.value else Latest(results, start)
  {
    var all := results + [last];
    assert all[..|all| - 1] == results;
    assert all[|results|] == last;
    assert AllOk(all) ==> AllOk(results) by {
      assert forall k :: 0 <= k < |results| ==> results[k] == all[k];
    }
  }

  lemma OutcomeOfSnoc<O, E>(results: seq<Valid<O, E>>, last: Valid<O, E>, start: O)
    ensures Outcome(results + [last], start) ==
            match Outcome(results, start)
            case Ok(_) => last
            case Err(e) => (match last case Ok(_) => Err(e) case Err(e') => Err(e + e'))
  {
    OutcomeSnoc(results, last, start);
    if AllOk(results) { NoCausesWhenOk(results); }
    assert AllCauses(results) + [] == AllCauses(results) && [] + last.Causes() == last.Causes();
    hide AllOk, AllCauses, Latest;
  }

  /** A left chain threads the state and, after the first failure, runs every later step from the start. */
  lemma {:induction false} ChainMeaning<I, O, E>(steps: seq<TryFold<I, O, E>>, input: I, start: O)
    requires steps != []
    ensures Chain(steps).run(input, start) == Outcome(ResettingResults(steps, input, start), start)
  {
    var n := |steps| - 1;
    var before := ResettingResults(steps[..n], input, start);
    var state := if AllOk(before) then Latest(before, start) else start;
    assert Outcome(before, start).Ok? ==> Outcome(before, start).value == state;
    assert Outcome(before, start).Err? ==> state == start;
    OutcomeOfSnoc(before, steps[n].run(input, state), start);
    assert ResettingResults(steps, input, start) == before + [steps[n].run(input, state)];
    assert n == 0 ==> before == [] && Outcome(before, start) == Ok(start);
    hide AllOk, Latest, ResettingResults, Outcome;
    if n > 0 {
      ChainMeaning(steps[..n], input, start);
      AndRuns(Chain(steps[..n]), steps[n], input, start);
    }
  }

  lemma {:induction false} LatestOfCons<O, E>(first: Valid<O, E>, rest: seq<Valid<O, E>>, start: O)
    ensures AllOk([first] + rest) <==> first.Ok? && AllOk(rest)
    ensures AllCauses([first] + rest) == first.Causes() + AllCauses(rest)
    ensures Latest([first] + rest, start) == Latest(rest, if first.Ok? then first.value else start)
  {
    if rest == [] {
      OutcomeSnoc([], first, start);
      assert [first] + rest == [] + [first];
    } else {
      hide AllOk, AllCauses, Latest;
      var front, last := rest[..|rest| - 1], rest[|rest| - 1];
      Regroup([first], front, [last]);
      assert rest == front + [last];
      LatestOfCons(first, front, start);
      OutcomeSnoc([first] + front, last, start);
      OutcomeSnoc(front, last, if first.Ok? then first.value else start);
      Regroup(first.Causes(), AllCauses(front), last.Causes());
    }
  }

  lemma {:induction false} KeepingCons<I, O, E>(steps: seq<TryFold<I, O, E>>, input: I, start: O)
    requires steps != []
    ensures var first := steps[0].run(input, start);
            KeepingResults(steps, input, start) ==
            [first] + KeepingResults(steps[1..], input, if first.Ok? then first.value else start)
  {
    var n := |steps| - 1;
    var first := steps[0].run(input, start);
    var next := if first.Ok? then first.value else start;
    if n == 0 {
      assert KeepingResults(steps[..0], input, start) == [];
    } else {
      KeepingCons(steps[..n], input, start);
      hide AllOk, AllCauses, Latest;
      var rest := steps[1..];
      assert steps[..n][1..] == rest[..n - 1];
      var middle := KeepingResults(rest[..n - 1], input, next);
      LatestOfCons(first, middle, start);
      var last := rest[n - 1].run(input, Latest(middle, next));
      assert KeepingResults(rest, input, next) == middle + [last];
      assert KeepingResults(steps, input, start) == [first] + middle + [last];
      Regroup([first], middle, [last]);
    }
  }

  lemma OutcomeOfCons<O, E>(first: Valid<O, E>, rest: seq<Valid<O, E>>, start: O)
    ensures Outcome([first] + rest, start) ==
            match first
            case Ok(s) => Outcome(rest, s)
            case Err(e) => (match Outcome(rest, start) case Ok(_) => Err(e) case Err(e') => Err(e + e'))
  {
    LatestOfCons(first, rest, start);
    if AllOk(rest) { NoCausesWhenOk(rest); }
    assert first.Ok? ==> first.Causes() + AllCauses(rest) == AllCauses(rest);
    assert first.Err? ==> first.Causes() + [] == first.causes;
    hide AllOk, AllCauses, Latest;
  }

  /** `FromIter` lets a failing step leave the state unchanged for the steps behind it. */
  lemma {:induction false} FromIterMeaning<I, O, E>(steps: seq<TryFold<I, O, E>>, input: I, start: O)
    ensures FromIter(steps).run(input, start) == Outcome(KeepingResults(steps, input, start), start)
  {
    if steps != [] {
      var first := steps[0].run(input, start);
      var next := if first.Ok? then first.value else start;
      KeepingCons(steps, input, start);
      OutcomeOfCons(first, KeepingResults(steps[1..], input, next), start);
      FromIterMeaning(steps[1..], input, next);
      AndRuns(steps[0], FromIter(steps[1..]), input, start);
      hide Outcome, KeepingResults;
    }
  }

  /** Up to and including the first failure the two disciplines run every step from the same state. */
  lemma {:induction false} SameUntilFirstFailure<I, O, E>(steps: seq<TryFold<I, O, E>>, input: I, start: O)
    ensures steps != [] && AllOk(ResettingResults(steps[..|steps| - 1], input, start)) ==>
              ResettingResults(steps, input, start) == KeepingResults(steps, input, start)
    ensures AllOk(ResettingResults(steps, input, start)) <==> AllOk(KeepingResults(steps, input, start))
  {
    if steps != [] {
      var n := |steps| - 1;
      var left, right := ResettingResults(steps[..n], input, start), KeepingResults(steps[..n], input, start);
      SameUntilFirstFailure(steps[..n], input, start);
      if AllOk(left) {
        if n > 0 {
          OutcomeSnoc(ResettingResults(steps[..n][..n - 1], input, start), left[n - 1], start);
        }
        assert left == right;
      }
      OutcomeSnoc(left, ResettingResults(steps, input, start)[n], start);
      OutcomeSnoc(right, KeepingResults(steps, input, start)[n], start);
    }
  }

  /** The two nestings agree on whether they succeed, and on the value when they do. */
  lemma NestingsAgree<I, O, E>(steps: seq<TryFold<I, O, E>>, input: I, start: O)
    requires steps != []
    ensures Chain(steps).run(input, start).Ok? <==> FromIter(steps).run(input, start).Ok?
    ensures Chain(steps).run(input, start).Ok? ==> Chain(steps).run(input, start) == FromIter(steps).run(input, start)
  {
    ChainMeaning(steps, input, start);
    FromIterMeaning(steps, input, start);
    SameUntilFirstFailure(steps, input, start);
    var n := |steps| - 1;
    OutcomeSnoc(ResettingResults(steps[..n], input, start), ResettingResults(steps, input, start)[n], start);
  }

  /** Three steps whose error depends on the state they start from: fail, multiply, fail. */
  function FailMultiplyFail(): seq<TryFold<int, int, int>> {
    [TryFold((a: int, b: int) => Fail(a + b)),
     TryFold((a: int, b: int) => Ok(a * b)),
     TryFold((a: int, b: int) => Fail(a * b * 100))]
  }

  /** The error lists do depend on the nesting: the same three steps report 600 in one and 1200 in the other. */
  lemma NestingsDifferOnErrors()
    ensures Chain(FailMultiplyFail()).run(2, 3) == Err([Cause(5, []), Cause(600, [])])
    ensures FromIter(FailMultiplyFail()).run(2, 3) == Err([Cause(5, []), Cause(1200, [])])
  {
    ChainReports();
    FromIterReports();
  }

  lemma ChainReports()
    ensures Chain(FailMultiplyFail()).run(2, 3) == Err([Cause(5, []), Cause(600, [])])
  {
    var steps := FailMultiplyFail();
    AndRuns(steps[0], steps[1], 2, 3);
    AndRuns(Chain(steps[..2]), steps[2], 2, 3);
    assert steps[..2][..1] == [steps[0]];
  }

  lemma FromIterReports()
    ensures FromIter(FailMultiplyFail()).run(2, 3) == Err([Cause(5, []), Cause(1200, [])])
  {
    var steps := FailMultiplyFail();
    AndRuns(steps[2], Empty(), 2, 6);
    AndRuns(steps[1], FromIter([steps[2]]), 2, 3);
    AndRuns(steps[0], FromIter(steps[1..]), 2, 3);
    assert steps[1..][1..] == [steps[2]];
    assert [steps[2]][1..] == [];
  }

  /**
    A third step starts from the same state in both nestings: the second has not failed after the first moved the
    state on, and has not moved the state on after the first failed.
  */
  predicate Harmless<I, O(==), E>(a: TryFold<I, O, E>, b: TryFold<I, O, E>, input: I, s: O) {
    match a.run(input, s)
    case Ok(moved) => b.run(input, moved).Err? ==> moved == s
    case Err(_) => b.run(input, s).Ok? ==> b.run(input, s).value == s
  }

  ghost predicate Associates<I, O, E>(a: TryFold<I, O, E>, b: TryFold<I, O, E>, c: TryFold<I, O, E>, input: I, s: O) {
    a.And(b).And(c).run(input, s) == a.And(b.And(c)).run(input, s)
  }

  /** Both nestings of three steps, written without closures. */
  lemma BothNestings<I, O, E>(a: TryFold<I, O, E>, b: TryFold<I, O, E>, c: TryFold<I, O, E>, input: I, s: O)
    ensures a.And(b).And(c).run(input, s) ==
            match a.And(b).run(input, s)
            case Ok(moved) => c.run(input, moved)
            case Err(e) => (match c.run(input, s) case Ok(_) => Err(e) case Err(e') => Err(e + e'))
    ensures a.And(b.And(c)).run(input, s) ==
            match a.run(input, s)
            case Ok(moved) => b.And(c).run(input, moved)
            case Err(e) => (match b.And(c).run(input, s) case Ok(_) => Err(e) case Err(e') => Err(e + e'))
  {
    AndRuns(a.And(b), c, input, s);
    AndRuns(a, b.And(c), input, s);
  }

  lemma HarmlessAssociates<I, O, E>(a: TryFold<I, O, E>, b: TryFold<I, O, E>, c: TryFold<I, O, E>, input: I, s: O)
    requires Harmless(a, b, input, s)
    ensures Associates(a, b, c, input, s)
  {
    BothNestings(a, b, c, input, s);
    AndRuns(a, b, input, s);
    match a.run(input, s) {
      case Ok(moved) => AndRuns(b, c, input, moved);
      case Err(e) =>
        AndRuns(b, c, input, s);
        if b.run(input, s).Err? && c.run(input, s).Err? {
          Regroup(e, b.run(input, s).causes, c.run(input, s).causes);
        }
    }
  }

  /** A step that fails from state `s` and from no other. */
  function FailsFrom<I, O(==), E>(s: O, e: E): TryFold<I, O, E> {
    TryFold((input: I, state: O) => if state == s then Fail(e) else Ok(state))
  }

  lemma HarmfulDiffers<I, O, E>(a: TryFold<I, O, E>, b: TryFold<I, O, E>, input: I, s: O, e: E)
    requires !Harmless(a, b, input, s)
    ensures !Associates(a, b, FailsFrom(s, e), input, s)
  {
    var c: TryFold<I, O, E> := FailsFrom(s, e);
    BothNestings(a, b, c, input, s);
    AndRuns(a, b, input, s);
    match a.run(input, s) {
      case Ok(moved) =>
        AndRuns(b, c, input, moved);
        assert |b.run(input, moved).causes + [Cause(e, [])]| == |b.run(input, moved).causes| + 1;
      case Err(causes) =>
        AndRuns(b, c, input, s);
        assert |causes + [Cause(e, [])]| == |causes| + 1;
    }
  }

  /** The nesting of three steps makes no difference, whatever the third is, exactly when the first two are harmless. */
  lemma NestingIsHarmlessExactly<I, O, E>(a: TryFold<I, O, E>, b: TryFold<I, O, E>, input: I, s: O, e: E)
    ensures (forall c: TryFold<I, O, E> :: Associates(a, b, c, input, s)) <==> Harmless(a, b, input, s)
  {
    if Harmless(a, b, input, s) {
      forall c: TryFold<I, O, E> ensures Associates(a, b, c, input, s) {
        HarmlessAssociates(a, b, c, input, s);
      }
    } else {
      HarmfulDiffers(a, b, input, s, e);
    }
  }

  ghost predicate SameOutcome<I, O, E>(steps: seq<TryFold<I, O, E>>, input: I, start: O)
    requires steps != []
  {
    Chain(steps).run(input, start) == FromIter(steps).run(input, start)
  }

  /** What one more step adds to either discipline. */
  lemma OneMoreStep<I, O, E>(steps: seq<TryFold<I, O, E>>, c: TryFold<I, O, E>, input: I, start: O)
    ensures ResettingResults(steps + [c], input, start) ==
            var before := ResettingResults(steps, input, start);
            before + [c.run(input, if AllOk(before) then Latest(before, start) else start)]
    ensures KeepingResults(steps + [c], input, start) ==
            var before := KeepingResults(steps, input, start);
            before + [c.run(input, Latest(before, start))]
  {
    assert (steps + [c])[..|steps|] == steps;
  }

  lemma OutcomesOfOneMore<I, O, E>(steps: seq<TryFold<I, O, E>>, c: TryFold<I, O, E>, input: I, start: O)
    ensures var reset, kept := ResettingResults(steps, input, start), KeepingResults(steps, input, start);
            if AllOk(reset) then SameOutcome(steps + [c], input, start)
            else
              && Chain(steps + [c]).run(input, start) == Err(AllCauses(reset) + c.run(input, start).Causes())
              && FromIter(steps + [c]).run(input, start) ==
                 Err(AllCauses(kept) + c.run(input, Latest(kept, start)).Causes())
  {
    var reset, kept := ResettingResults(steps, input, start), KeepingResults(steps, input, start);
    ChainMeaning(steps + [c], input, start);
    FromIterMeaning(steps + [c], input, start);
    OneMoreStep(steps, c, input, start);
    SameUntilFirstFailure(steps, input, start);
    if AllOk(reset) {
      SameUntilFirstFailure(steps + [c], input, start);
      assert (steps + [c])[..|steps|] == steps;
    } else {
      OutcomeSnoc(reset, c.run(input, start), start);
      OutcomeSnoc(kept, c.run(input, Latest(kept, start)), start);
    }
  }

  /** The causes so far agree, and the state that was kept is the one that the chain goes back to. */
  ghost predicate CaughtUp<I, O, E>(steps: seq<TryFold<I, O, E>>, input: I, start: O) {
    var reset, kept := ResettingResults(steps, input, start), KeepingResults(steps, input, start);
    AllCauses(reset) == AllCauses(kept) && Latest(kept, start) == start
  }

  /** After a failure only a caught-up list has the same outcome with a step that succeeds and one that is picky. */
  lemma OnlyCaughtUpAgrees<I, O, E>(steps: seq<TryFold<I, O, E>>, input: I, start: O, e: E)
    requires !AllOk(ResettingResults(steps, input, start))
    requires SameOutcome(steps + [Empty()], input, start) && SameOutcome(steps + [FailsFrom(start, e)], input, start)
    ensures CaughtUp(steps, input, start)
  {
    var reset, kept := ResettingResults(steps, input, start), KeepingResults(steps, input, start);
    OutcomesOfOneMore(steps, Empty(), input, start);
    OutcomesOfOneMore(steps, FailsFrom(start, e), input, start);
    hide Chain, FromIter, AllOk, AllCauses, Latest, ResettingResults, KeepingResults;
    NoneAppended(AllCauses(reset));
    NoneAppended(AllCauses(kept));
    assert |AllCauses(reset) + [Cause(e, [])]| == |AllCauses(reset)| + 1;
  }

  lemma NoneAppended<T>(s: seq<T>)
    ensures s + [] == s
  {
  }

  /**
    For a list, whatever step comes last, the two nestings report the same exactly when nothing has failed, or they
    report the same so far and the kept state is the initial one.
  */
  lemma ListsAgreeExactly<I, O, E>(steps: seq<TryFold<I, O, E>>, input: I, start: O, e: E)
    ensures (forall c: TryFold<I, O, E> :: SameOutcome(steps + [c], input, start)) <==>
            AllOk(ResettingResults(steps, input, start)) || CaughtUp(steps, input, start)
  {
    if AllOk(ResettingResults(steps, input, start)) || CaughtUp(steps, input, start) {
      forall c: TryFold<I, O, E> ensures SameOutcome(steps + [c], input, start) {
        OutcomesOfOneMore(steps, c, input, start);
      }
    } else if forall c: TryFold<I, O, E> :: SameOutcome(steps + [c], input, start) {
      assert SameOutcome(steps + [Empty()], input, start) && SameOutcome(steps + [FailsFrom(start, e)], input, start);
      OnlyCaughtUpAgrees(steps, input, start, e);
    }
  }

  /** Once something has failed, the state that is kept is the initial one. */
  ghost predicate StaysPut<I, O, E>(steps: seq<TryFold<I, O, E>>, input: I, start: O) {
    AllOk(ResettingResults(steps, input, start)) || Latest(KeepingResults(steps, input, start), start) == start
  }

  lemma CaughtUpStaysAlike<I, O, E>(steps: seq<TryFold<I, O, E>>, c: TryFold<I, O, E>, input: I, start: O)
    requires CaughtUp(steps, input, start) && !AllOk(ResettingResults(steps, input, start))
    ensures AllCauses(ResettingResults(steps + [c], input, start)) ==
            AllCauses(KeepingResults(steps + [c], input, start))
  {
    OneMoreStep(steps, c, input, start);
    OutcomeSnoc(ResettingResults(steps, input, start), c.run(input, start), start);
    OutcomeSnoc(KeepingResults(steps, input, start), c.run(input, start), start);
  }

  /** As long as every prefix stays put, both nestings report the same causes. */
  lemma {:induction false} PutMeansSameCauses<I, O, E>(steps: seq<TryFold<I, O, E>>, input: I, start: O)
    requires forall n :: 0 <= n < |steps| ==> StaysPut(steps[..n], input, start)
    ensures AllCauses(ResettingResults(steps, input, start)) == AllCauses(KeepingResults(steps, input, start))
    decreases |steps|
  {
    if steps != [] {
      var n := |steps| - 1;
      var before := steps[..n];
      forall k | 0 <= k < n ensures StaysPut(before[..k], input, start) {
        assert before[..k] == steps[..k];
      }
      PutMeansSameCauses(before, input, start);
      SameUntilFirstFailure(steps, input, start);
      if !AllOk(ResettingResults(before, input, start)) {
        assert StaysPut(before, input, start);
        PrefixGrows(steps, n);
        WholePrefix(steps);
        CaughtUpStaysAlike(before, steps[n], input, start);
      }
    }
  }

  /**
    All prefixes of a list, whatever step comes next, report the same in both nestings exactly when every prefix
    with a failure in it has kept the initial state.
  */
  lemma PrefixesAgreeExactly<I, O, E>(steps: seq<TryFold<I, O, E>>, input: I, start: O, e: E)
    ensures (forall n: nat, c: TryFold<I, O, E> :: n <= |steps| ==> SameOutcome(steps[..n] + [c], input, start)) <==>
            (forall n: nat :: n <= |steps| ==> StaysPut(steps[..n], input, start))
  {
    if forall n: nat :: n <= |steps| ==> StaysPut(steps[..n], input, start) {
      forall n: nat, c: TryFold<I, O, E> | n <= |steps| ensures SameOutcome(steps[..n] + [c], input, start) {
        forall k | 0 <= k < n ensures StaysPut(steps[..n][..k], input, start) {
          assert steps[..n][..k] == steps[..k];
        }
        PutMeansSameCauses(steps[..n], input, start);
        assert StaysPut(steps[..n], input, start);
        ListsAgreeExactly(steps[..n], input, start, e);
      }
    }
    if forall n: nat, c: TryFold<I, O, E> :: n <= |steps| ==> SameOutcome(steps[..n] + [c], input, start) {
      forall n: nat | n <= |steps| ensures StaysPut(steps[..n], input, start) {
        ListsAgreeExactly(steps[..n], input, start, e);
      }
    }
  }

  /** `Empty` is a unit on both sides, on success and on failure. */
  lemma EmptyIsUnit<I, O, E>(step: TryFold<I, O, E>, input: I, state: O)
    ensures Empty<I, O, E>().And(step).run(input, state) == step.run(input, state)
    ensures step.And(Empty<I, O, E>()).run(input, state) == step.run(input, state)
  {
    AndRuns(Empty<I, O, E>(), step, input, state);
    AndRuns(step, Empty<I, O, E>(), input, state);
  }

  /** A transformed step reads a part, runs on it and writes the result back; the first failure ends it. */
  lemma FocusedRun<I, O, P, E>(step: TryFold<I, O, E>, up: (O, P) -> Valid<P, E>, down: P -> Valid<O, E>,
                               input: I, outer: P)
    ensures step.TransformValid(up, down).run(input, outer) ==
            match down(outer)
            case Err(e) => Err(e)
            case Ok(o) => (match step.run(input, o) case Ok(o') => up(o', outer) case Err(e) => Err(e))
  {
  }

  /** `transform` is the case in which reading and writing cannot fail. */
  lemma TransformRun<I, O, P, E>(step: TryFold<I, O, E>, up: (O, P) -> P, down: P -> O, input: I, outer: P)
    ensures step.Transform(up, down).run(input, outer) ==
            match step.run(input, down(outer)) case Ok(o) => Ok(up(o, outer)) case Err(e) => Err(e)
  {
    var write: (O, P) -> Valid<P, E> := (o: O, p: P) => Ok(up(o, p));
    var read: P -> Valid<O, E> := (p: P) => Ok(down(p));
    FocusedRun(step, write, read, input, outer);
    assert step.Transform(up, down).run(input, outer) == step.TransformValid(write, read).run(input, outer);
  }

  /**
    At `outer`, reading succeeds, writing succeeds, what was written is read back, and the last write wins.
  */
  ghost predicate FocusesAt<O(!new), P, E>(up: (O, P) -> Valid<P, E>, down: P -> Valid<O, E>, outer: P) {
    && down(outer).Ok?
    && forall o :: WritesAt(up, down, outer, o)
  }

  ghost predicate WritesAt<O(!new), P, E>(up: (O, P) -> Valid<P, E>, down: P -> Valid<O, E>, outer: P, o: O) {
    && up(o, outer).Ok?
    && down(up(o, outer).value) == Ok(o)
    && forall o' :: up(o', up(o, outer).value) == up(o', outer)
  }

  /** Focusing a sequence of two steps is the sequence of the two focused steps, at this part and input. */
  ghost predicate DistributesOver<I, O, P, E>(first: TryFold<I, O, E>, second: TryFold<I, O, E>,
                                              up: (O, P) -> Valid<P, E>, down: P -> Valid<O, E>, input: I, outer: P)
  {
    first.And(second).TransformValid(up, down).run(input, outer) ==
    first.TransformValid(up, down).And(second.TransformValid(up, down)).run(input, outer)
  }

  lemma FocusDistributes<I, O(!new), P, E>(first: TryFold<I, O, E>, second: TryFold<I, O, E>,
                                           up: (O, P) -> Valid<P, E>, down: P -> Valid<O, E>, input: I, outer: P)
    requires FocusesAt(up, down, outer)
    ensures DistributesOver(first, second, up, down, input, outer)
  {
    var o := down(outer).value;
    AndRuns(first, second, input, o);
    AndRuns(first.TransformValid(up, down), second.TransformValid(up, down), input, outer);
    FocusedRun(first, up, down, input, outer);
    FocusedRun(second, up, down, input, outer);
    FocusedRun(first.And(second), up, down, input, outer);
    if first.run(input, o).Ok? {
      var written := first.run(input, o).value;
      assert WritesAt(up, down, outer, written);
      FocusedRun(second, up, down, input, up(written, outer).value);
    }
    if second.run(input, o).Ok? {
      assert WritesAt(up, down, outer, second.run(input, o).value);
    }
  }

  /** A step with a fixed outcome. */
  function Always<I, O, E>(result: Valid<O, E>): TryFold<I, O, E> {
    TryFold((input: I, state: O) => result)
  }

  /** What the two sides are for a first step that succeeds. */
  lemma SidesAfterSuccess<I, O, P, E>(o1: O, second: TryFold<I, O, E>, up: (O, P) -> Valid<P, E>,
                                      down: P -> Valid<O, E>, input: I, outer: P)
    requires down(outer).Ok?
    ensures Always(Ok(o1)).And(second).TransformValid(up, down).run(input, outer) ==
            match second.run(input, o1) case Ok(o2) => up(o2, outer) case Err(e) => Err(e)
    ensures Always(Ok(o1)).TransformValid(up, down).And(second.TransformValid(up, down)).run(input, outer) ==
            match up(o1, outer)
            case Ok(p) => second.TransformValid(up, down).run(input, p)
            case Err(e) => (match second.TransformValid(up, down).run(input, outer)
                            case Ok(_) => Err(e) case Err(e') => Err(e + e'))
  {
    var first: TryFold<I, O, E> := Always(Ok(o1));
    AndRuns(first, second, input, down(outer).value);
    AndRuns(first.TransformValid(up, down), second.TransformValid(up, down), input, outer);
    FocusedRun(first, up, down, input, outer);
    FocusedRun(first.And(second), up, down, input, outer);
  }

  /** A failing read is reported once by the focused sequence and twice by the sequence of focused steps. */
  lemma FailingReadCountsTwice<I, O, P, E>(first: TryFold<I, O, E>, second: TryFold<I, O, E>,
                                           up: (O, P) -> Valid<P, E>, down: P -> Valid<O, E>, input: I, outer: P)
    requires down(outer).Err?
    ensures first.And(second).TransformValid(up, down).run(input, outer) == Err(down(outer).causes)
    ensures first.TransformValid(up, down).And(second.TransformValid(up, down)).run(input, outer) ==
            Err(down(outer).causes + down(outer).causes)
  {
    AndRuns(first.TransformValid(up, down), second.TransformValid(up, down), input, outer);
    FocusedRun(first, up, down, input, outer);
    FocusedRun(second, up, down, input, outer);
    FocusedRun(first.And(second), up, down, input, outer);
  }

  /** Whenever the step fails, it says why. */
  ghost predicate SaysWhy<I(!new), O(!new), E>(step: TryFold<I, O, E>) {
    forall input, state :: step.run(input, state).Honest()
  }

  /** If all sequences of steps that say why are distributed over, then writing cannot fail and is read back. */
  lemma DistributingWritesWell<I(!new), O(!new), P, E>(up: (O, P) -> Valid<P, E>, down: P -> Valid<O, E>, input: I,
                                                       outer: P, o: O, e: E)
    requires down(outer).Ok? && up(o, outer).Honest()
    requires forall first: TryFold<I, O, E>, second: TryFold<I, O, E> ::
               SaysWhy(first) && SaysWhy(second) ==> DistributesOver(first, second, up, down, input, outer)
    ensures WritesAt(up, down, outer, o)
  {
    assert |up(o, outer).Causes() + [Cause(e, [])]| == |up(o, outer).Causes()| + 1;
    var first: TryFold<I, O, E> := Always(Ok(o));
    var fails: TryFold<I, O, E> := Always(Fail(e));
    assert DistributesOver(first, fails, up, down, input, outer);
    SidesAfterSuccess(o, fails, up, down, input, outer);
    FocusedRun(fails, up, down, input, outer);
    assert up(o, outer).Ok?;
    var written := up(o, outer).value;
    assert down(written).Ok? by {
      assert DistributesOver(first, first, up, down, input, outer);
      SidesAfterSuccess(o, first, up, down, input, outer);
      FocusedRun(first, up, down, input, written);
    }
    assert down(written).value == o by {
      var picky: TryFold<I, O, E> := TryFold((i: I, state: O) => if state == o then Ok(o) else Fail(e));
      assert DistributesOver(first, picky, up, down, input, outer);
      SidesAfterSuccess(o, picky, up, down, input, outer);
      FocusedRun(picky, up, down, input, written);
    }
    forall o' ensures up(o', written) == up(o', outer) {
      var second: TryFold<I, O, E> := Always(Ok(o'));
      assert DistributesOver(first, second, up, down, input, outer);
      SidesAfterSuccess(o, second, up, down, input, outer);
      FocusedRun(second, up, down, input, written);
    }
  }

  /** With failures that carry causes, focusing distributes over all sequences exactly when it is lawful here. */
  lemma FocusDistributesExactly<I(!new), O(!new), P, E>(up: (O, P) -> Valid<P, E>, down: P -> Valid<O, E>,
                                                        input: I, outer: P, e: E)
    requires down(outer).Honest() && forall o :: up(o, outer).Honest()
    ensures (forall first: TryFold<I, O, E>, second: TryFold<I, O, E> ::
               SaysWhy(first) && SaysWhy(second) ==> DistributesOver(first, second, up, down, input, outer)) <==>
            FocusesAt(up, down, outer)
  {
    if FocusesAt(up, down, outer) {
      forall first: TryFold<I, O, E>, second: TryFold<I, O, E>
        ensures DistributesOver(first, second, up, down, input, outer)
      {
        FocusDistributes(first, second, up, down, input, outer);
      }
    }
    if forall first: TryFold<I, O, E>, second: TryFold<I, O, E> ::
        SaysWhy(first) && SaysWhy(second) ==> DistributesOver(first, second, up, down, input, outer)
    {
      var step: TryFold<I, O, E> := Always(Fail(e));
      assert down(outer).Err? ==> |down(outer).causes + down(outer).causes| > |down(outer).causes|;
      assert DistributesOver(step, step, up, down, input, outer);
      if down(outer).Err? {
        FailingReadCountsTwice(step, step, up, down, input, outer);
      }
      forall o ensures WritesAt(up, down, outer, o) {
        DistributingWritesWell(up, down, input, outer, o, e);
      }
    }
  }

  /** `up` and `down` focus on a part: reading back what was written, and the last write wins. */
  ghost predicate Lens<O(!new), P(!new)>(up: (O, P) -> P, down: P -> O) {
    && (forall o, p :: down(up(o, p)) == o)
    && (forall o, o', p :: up(o', up(o, p)) == up(o', p))
  }

  /** With a lawful pair `transform` distributes over sequences everywhere, errors included. */
  lemma TransformDistributes<I, O(!new), P(!new), E>(first: TryFold<I, O, E>, second: TryFold<I, O, E>,
                                                     up: (O, P) -> P, down: P -> O, input: I, outer: P)
    requires Lens(up, down)
    ensures first.And(second).Transform(up, down).run(input, outer) ==
            first.Transform(up, down).And(second.Transform(up, down)).run(input, outer)
  {
    var write: (O, P) -> Valid<P, E> := (o: O, p: P) => Ok(up(o, p));
    var read: P -> Valid<O, E> := (p: P) => Ok(down(p));
    forall o ensures WritesAt(write, read, outer, o) {
    }
    FocusDistributes(first, second, write, read, input, outer);
    assert forall step: TryFold<I, O, E> :: step.Transform(up, down) == step.TransformValid(write, read);
  }
}
