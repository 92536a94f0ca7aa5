/**
  The chunks that a transformation closure returns. A closure captures no shared vector, so its result
  is a value of its own; `rank` bounds how deeply closures nest inside the results of a closure.
*/
module ChunkPlan {
  import opened Sequences

  datatype Plan<!A> =
    | Nothing
    | One(a: A)
    | Both(left: Plan<A>, right: Plan<A>)
    | Many(items: seq<A>)
    | Each(source: Plan<A>, f: A -> Plan<A>, rank: nat)

  function Level<A>(p: Plan<A>): nat {
    match p
    case Both(l, r) => if Level(l) < Level(r) then Level(r) else Level(l)
    case Each(source, _, rank) => if Level(source) < rank then rank else Level(source)
    case _ => 0
  }

  /** Everything a closure returns lies below its own rank. */
  ghost predicate Ranked<A(!new)>(p: Plan<A>)
    decreases Level(p), p
  {
    match p
    case Both(l, r) => Ranked(l) && Ranked(r)
    case Each(source, f, rank) => Ranked(source) && forall x :: Level(f(x)) < rank && Ranked(f(x))
    case _ => true
  }

  ghost predicate RankedClosure<A(!new)>(f: A -> Plan<A>, rank: nat) {
    forall x :: Level(f(x)) < rank && Ranked(f(x))
  }

  function FlatMap<A>(items: seq<A>, f: A -> seq<A>): seq<A> {
    if items == [] then [] else FlatMap(items[..|items| - 1], f) + f(items[|items| - 1])
  }

  /** The elements of a plan, in order. */
  ghost function Meaning<A(!new)>(p: Plan<A>): seq<A>
    requires Ranked(p)
    decreases Level(p), 1, p
  {
    match p
    case Nothing => []
    case One(a) => [a]
    case Both(l, r) => Meaning(l) + Meaning(r)
    case Many(items) => items
    case Each(source, f, rank) => FlatMap(Meaning(source), Expand(f, rank))
  }

  /** What a closure contributes for each element. */
  ghost function Expand<A(!new)>(f: A -> Plan<A>, rank: nat): A -> seq<A>
    requires RankedClosure(f, rank)
    decreases rank, 0
  {
    (x: A) => Meaning(f(x))
  }

  lemma {:induction false} FlatMapCongruent<A>(items: seq<A>, f: A -> seq<A>, g: A -> seq<A>)
    requires forall x :: x in items ==> f(x) == g(x)
    ensures FlatMap(items, f) == FlatMap(items, g)
  {
    if items != [] {
      FlatMapCongruent(items[..|items| - 1], f, g);
    }
  }

  lemma {:induction false} FlatMapConcat<A>(xs: seq<A>, ys: seq<A>, f: A -> seq<A>)
    ensures FlatMap(xs + ys, f) == FlatMap(xs, f) + FlatMap(ys, f)
  {
    if ys == [] {
      assert xs + ys == xs;
    } else {
      var n := |ys| - 1;
      assert (xs + ys)[..|xs + ys| - 1] == xs + ys[..n];
      FlatMapConcat(xs, ys[..n], f);
    }
  }

  lemma FlatMapOfFew<A>(a: A, f: A -> seq<A>)
    ensures FlatMap([], f) == [] && FlatMap([a], f) == f(a)
  {
    assert [a][..0] == [];
    assert FlatMap([a], f) == FlatMap([], f) + f(a);
  }

  lemma EachByCases<A(!new)>(l: Plan<A>, r: Plan<A>, a: A, f: A -> Plan<A>, rank: nat)
    requires Ranked(l) && Ranked(r) && RankedClosure(f, rank)
    ensures Meaning(l) == [] ==> Meaning(Each(l, f, rank)) == []
    ensures Meaning(Each(One(a), f, rank)) == Meaning(f(a))
    ensures Meaning(Each(Both(l, r), f, rank)) == Meaning(Each(l, f, rank)) + Meaning(Each(r, f, rank))
  {
    var contribution := Expand(f, rank);
    var both := Both(l, r);
    assert Meaning(both) == Meaning(l) + Meaning(r);
    assert Meaning(Each(l, f, rank)) == FlatMap(Meaning(l), contribution);
    assert Meaning(Each(r, f, rank)) == FlatMap(Meaning(r), contribution);
    assert Meaning(Each(both, f, rank)) == FlatMap(Meaning(both), contribution);
    assert Meaning(Each(One(a), f, rank)) == FlatMap([a], contribution);
    assert contribution(a) == Meaning(f(a));
    hide Meaning, Ranked, FlatMap;
    FlatMapConcat(Meaning(l), Meaning(r), contribution);
    FlatMapOfFew(a, contribution);
  }

  /** The meaning constructor by constructor: both parts in order, all items, and each element's part in its place. */
  lemma MeaningByCases<A(!new)>(l: Plan<A>, r: Plan<A>, a: A, items: seq<A>, f: A -> Plan<A>, rank: nat)
    requires Ranked(l) && Ranked(r) && RankedClosure(f, rank)
    ensures Meaning<A>(Nothing) == [] && Meaning(One(a)) == [a] && Meaning(Many(items)) == items
    ensures Meaning(Both(l, r)) == Meaning(l) + Meaning(r)
    ensures Meaning(l) == [] ==> Meaning(Each(l, f, rank)) == []
    ensures Meaning(Each(One(a), f, rank)) == Meaning(f(a))
    ensures Meaning(Each(Both(l, r), f, rank)) == Meaning(Each(l, f, rank)) + Meaning(Each(r, f, rank))
  {
    EachByCases(l, r, a, f, rank);
    hide FlatMap, Expand;
  }

  /** `both` does for one element what `f` and then `g` do. */
  lemma {:induction false} FlatMapAssociative<A>(items: seq<A>, f: A -> seq<A>, g: A -> seq<A>, both: A -> seq<A>)
    requires forall x :: both(x) == FlatMap(f(x), g)
    ensures FlatMap(FlatMap(items, f), g) == FlatMap(items, both)
  {
    if items != [] {
      var n := |items| - 1;
      FlatMapAssociative(items[..n], f, g, both);
      FlatMapConcat(FlatMap(items[..n], f), f(items[n]), g);
    }
  }

  lemma {:induction false} FlatMapIdentity<A>(items: seq<A>, unit: A -> seq<A>)
    requires forall x :: unit(x) == [x]
    ensures FlatMap(items, unit) == items
  {
    if items != [] {
      FlatMapIdentity(items[..|items| - 1], unit);
      assert items == items[..|items| - 1] + unit(items[|items| - 1]);
    }
  }

  /** Appends the elements of `p` to the buffer, running closures as they come up. */
  method AsVecMut<A(!new)>(p: Plan<A>, buf: seq<A>) returns (r: seq<A>)
    requires Ranked(p)
    ensures r == buf + Meaning(p)
    decreases Level(p), 1, p
  {
    match p {
      case Nothing => r := buf + [];
      case One(a) => r := buf + [a];
      case Both(left, right) =>
        r := AsVecMut(left, buf);
        r := AsVecMut(right, r);
        Regroup(buf, Meaning(left), Meaning(right));
      case Many(items) => r := buf + items;
      case Each(source, f, rank) =>
        var tmp := AsVecMut(source, []);
        assert tmp == Meaning(source);
        r := ExpandAll(tmp, f, rank, buf);
    }
  }

  method ExpandAll<A(!new)>(items: seq<A>, f: A -> Plan<A>, ghost rank: nat, buf: seq<A>) returns (r: seq<A>)
    requires RankedClosure(f, rank)
    ensures r == buf + FlatMap(items, Expand(f, rank))
    decreases rank, 0
  {
    r := buf;
    for i := 0 to |items|
      invariant r == buf + FlatMap(items[..i], Expand(f, rank))
    {
      assert items[..i + 1][..i] == items[..i];
      assert FlatMap(items[..i + 1], Expand(f, rank)) == FlatMap(items[..i], Expand(f, rank)) + Meaning(f(items[i]));
      Regroup(buf, FlatMap(items[..i], Expand(f, rank)), Meaning(f(items[i])));
      r := AsVecMut(f(items[i]), r);
    }
    assert items[..|items|] == items;
  }
}
