/**
  Programs over chunks: any nesting of the operations, evaluated on the shared heap. What such a program
  yields is the value it has on plain sequences, so forcing an intermediate result changes nothing.
*/
module ChunkPrograms {
  import opened ChunkPlan
  import opened ChunkHeap
  import opened Chunk

  datatype Program<!A> =
    | Nil
    | Unit(a: A)
    | FromItems(items: seq<A>)
    | Appended(p: Program<A>, a: A)
    | Prepended(p: Program<A>, a: A)
    | Joined(left: Program<A>, right: Program<A>)
    | Doubled(p: Program<A>)
    | Mapped(p: Program<A>, f: A -> A)
    | FlatMapped(p: Program<A>, g: A -> Plan<A>, rank: nat)
    | Materialized(p: Program<A>)

  ghost predicate WellRanked<A(!new)>(p: Program<A>) {
    match p
    case Nil => true
    case Unit(_) => true
    case FromItems(_) => true
    case Appended(q, _) => WellRanked(q)
    case Prepended(q, _) => WellRanked(q)
    case Joined(left, right) => WellRanked(left) && WellRanked(right)
    case Doubled(q) => WellRanked(q)
    case Mapped(q, _) => WellRanked(q)
    case FlatMapped(q, g, rank) => WellRanked(q) && RankedClosure(g, rank)
    case Materialized(q) => WellRanked(q)
  }

  /** The value of a program on plain sequences. */
  ghost function Value<A(!new)>(p: Program<A>): seq<A>
    requires WellRanked(p)
  {
    match p
    case Nil => []
    case Unit(a) => [a]
    case FromItems(items) => items
    case Appended(q, a) => Value(q) + [a]
    case Prepended(q, a) => [a] + Value(q)
    case Joined(left, right) => Value(left) + Value(right)
    case Doubled(q) => Value(q) + Value(q)
    case Mapped(q, f) => MapEach(Value(q), f)
    case FlatMapped(q, g, rank) => FlatMap(Value(q), Expand(g, rank))
    case Materialized(q) => Value(q)
  }

  /** The same program without any `materialize`. */
  function Lazy<A>(p: Program<A>): Program<A> {
    match p
    case Nil => Nil
    case Unit(a) => Unit(a)
    case FromItems(items) => FromItems(items)
    case Appended(q, a) => Appended(Lazy(q), a)
    case Prepended(q, a) => Prepended(Lazy(q), a)
    case Joined(left, right) => Joined(Lazy(left), Lazy(right))
    case Doubled(q) => Doubled(Lazy(q))
    case Mapped(q, f) => Mapped(Lazy(q), f)
    case FlatMapped(q, g, rank) => FlatMapped(Lazy(q), g, rank)
    case Materialized(q) => Lazy(q)
  }

  /** Wherever a program forces its intermediate results, its value stays the same. */
  lemma {:induction false} MaterializeIsUnobservable<A(!new)>(p: Program<A>)
    requires WellRanked(p)
    ensures WellRanked(Lazy(p)) && Value(Lazy(p)) == Value(p)
  {
    match p {
      case Nil =>
      case Unit(_) =>
      case FromItems(_) =>
      case Joined(left, right) =>
        MaterializeIsUnobservable(left);
        MaterializeIsUnobservable(right);
      case Appended(q, _) => MaterializeIsUnobservable(q);
      case Prepended(q, _) => MaterializeIsUnobservable(q);
      case Doubled(q) => MaterializeIsUnobservable(q);
      case Mapped(q, _) => MaterializeIsUnobservable(q);
      case FlatMapped(q, _, _) => MaterializeIsUnobservable(q);
      case Materialized(q) => MaterializeIsUnobservable(q);
    }
  }

  lemma FlatMappedByCases<A(!new)>(p: Program<A>, q: Program<A>, a: A, g: A -> Plan<A>, rank: nat)
    requires WellRanked(p) && WellRanked(q) && RankedClosure(g, rank)
    ensures Value(FlatMapped(Joined(p, q), g, rank)) == Value(FlatMapped(p, g, rank)) + Value(FlatMapped(q, g, rank))
    ensures Value(p) == [a] ==> Value(FlatMapped(p, g, rank)) == Meaning(g(a))
    ensures Value(p) == [] ==> Value(FlatMapped(p, g, rank)) == []
  {
    var contribution, both := Expand(g, rank), Joined(p, q);
    assert Value(both) == Value(p) + Value(q);
    assert Value(FlatMapped(p, g, rank)) == FlatMap(Value(p), contribution);
    assert Value(FlatMapped(q, g, rank)) == FlatMap(Value(q), contribution);
    assert Value(FlatMapped(both, g, rank)) == FlatMap(Value(both), contribution);
    assert contribution(a) == Meaning(g(a));
    hide Meaning, Ranked, Value, FlatMap, WellRanked;
    FlatMapConcat(Value(p), Value(q), contribution);
    FlatMapOfFew(a, contribution);
  }

  /** What a program yields, operation by operation and in order. */
  lemma ValueByCases<A(!new)>(p: Program<A>, q: Program<A>, a: A, f: A -> A)
    requires WellRanked(p) && WellRanked(q)
    ensures Value(Appended(p, a)) == Value(p) + [a] && Value(Prepended(p, a)) == [a] + Value(p)
    ensures Value(Joined(p, q)) == Value(p) + Value(q) && Value(Doubled(p)) == Value(p) + Value(p)
    ensures |Value(Mapped(p, f))| == |Value(p)|
    ensures forall k :: 0 <= k < |Value(p)| ==> Value(Mapped(p, f))[k] == f(Value(p)[k])
  {
  }

  /** Evaluates a program on the heap: one new chunk with the program's value, and nothing else changed. */
  method Build<A(!new)>(chunks: Chunks<A>, p: Program<A>) returns (k: nat)
    requires Valid(chunks.H()) && WellRanked(p)
    modifies chunks
    ensures Yields(old(chunks.H()), chunks.H(), {}, k, Value(p))
    decreases p, 1
  {
    match p {
      case Nil => k := chunks.Default();
      case Unit(a) => k := chunks.New(a);
      case FromItems(items) => k := chunks.FromIter(items);
      case Joined(_, _) => k := BuildJoined(chunks, p);
      case Doubled(_) => k := BuildDoubled(chunks, p);
      case Appended(_, _) => k := BuildOn(chunks, p);
      case Prepended(_, _) => k := BuildOn(chunks, p);
      case Mapped(_, _) => k := BuildTransformed(chunks, p);
      case FlatMapped(_, _, _) => k := BuildTransformed(chunks, p);
      case Materialized(_) => k := BuildOn(chunks, p);
    }
  }

  method BuildJoined<A(!new)>(chunks: Chunks<A>, p: Program<A>) returns (k: nat)
    requires Valid(chunks.H()) && WellRanked(p) && p.Joined?
    modifies chunks
    ensures Yields(old(chunks.H()), chunks.H(), {}, k, Value(p))
    decreases p, 0
  {
    assert Value(p) == Value(p.left) + Value(p.right);
    hide Valid, Denote, Value;
    var x := Build(chunks, p.left);
    ghost var h1 := chunks.H();
    var y := Build(chunks, p.right);
    ghost var h2 := chunks.H();
    assert x != y && Elements(h2, x) == Value(p.left);
    k := chunks.Concat(x, y);
    BothBuilt(old(chunks.H()), h1, h2, chunks.H(), x, Value(p.left), y, Value(p.right), k, Value(p));
  }

  /** The one result is cloned: concatenation must not push into a vector that both handles share. */
  method BuildDoubled<A(!new)>(chunks: Chunks<A>, p: Program<A>) returns (k: nat)
    requires Valid(chunks.H()) && WellRanked(p) && p.Doubled?
    modifies chunks
    ensures Yields(old(chunks.H()), chunks.H(), {}, k, Value(p))
    decreases p, 0
  {
    assert Value(p) == Value(p.p) + Value(p.p);
    hide Valid, Denote, Value;
    var x := Build(chunks, p.p);
    ghost var h1 := chunks.H();
    var y := chunks.Clone(x);
    ghost var h2 := chunks.H();
    assert x != y && Elements(h2, x) == Value(p.p);
    k := chunks.Concat(x, y);
    BothBuilt(old(chunks.H()), h1, h2, chunks.H(), x, Value(p.p), y, Value(p.p), k, Value(p));
  }

  /** The operations that consume one chunk and leave its elements as they are. */
  method BuildOn<A(!new)>(chunks: Chunks<A>, p: Program<A>) returns (k: nat)
    requires Valid(chunks.H()) && WellRanked(p)
    requires p.Appended? || p.Prepended? || p.Materialized?
    modifies chunks
    ensures Yields(old(chunks.H()), chunks.H(), {}, k, Value(p))
    decreases p, 0
  {
    var x := Build(chunks, p.p);
    ghost var h1 := chunks.H();
    assert Elements(h1, x) == Value(p.p) && Valid(chunks.H()) && x in chunks.handles;
    hide Valid, Denote, Yields, Undisturbed;
    if p.Appended? {
      k := chunks.Append(x, p.a);
    } else if p.Prepended? {
      k := chunks.Prepend(x, p.a);
    } else {
      k := chunks.Materialize(x);
    }
    OneBuilt(old(chunks.H()), h1, chunks.H(), x, Value(p.p), k, Value(p));
  }

  /** The operations that transform the elements of one chunk. */
  method BuildTransformed<A(!new)>(chunks: Chunks<A>, p: Program<A>) returns (k: nat)
    requires Valid(chunks.H()) && WellRanked(p)
    requires p.Mapped? || p.FlatMapped?
    modifies chunks
    ensures Yields(old(chunks.H()), chunks.H(), {}, k, Value(p))
    decreases p, 0
  {
    var x := Build(chunks, p.p);
    ghost var h1 := chunks.H();
    assert Elements(h1, x) == Value(p.p) && Valid(chunks.H()) && x in chunks.handles;
    hide Valid, Denote, Yields, Undisturbed;
    if p.Mapped? {
      k := chunks.Transform(x, p.f);
    } else {
      k := chunks.TransformFlatten(x, p.g, p.rank);
    }
    OneBuilt(old(chunks.H()), h1, chunks.H(), x, Value(p.p), k, Value(p));
  }

  /** Builds a program and its lazy form one after the other and reads both: the same elements. */
  method ReadBoth<A(!new)>(chunks: Chunks<A>, p: Program<A>) returns (forced: seq<A>, lazy: seq<A>)
    requires Valid(chunks.H()) && WellRanked(p)
    modifies chunks
    ensures forced == lazy == Value(p)
  {
    MaterializeIsUnobservable(p);
    hide Valid, Denote, Value, WellRanked;
    var x := Build(chunks, p);
    ghost var h1 := chunks.H();
    var y := Build(chunks, Lazy(p));
    assert Elements(chunks.H(), x) == Elements(h1, x);
    forced := chunks.AsVec(x);
    lazy := chunks.AsVec(y);
  }

  /**
    What a closure returns can be built on the heap with the operations of chunks themselves, and the chunk that
    this yields has the elements that the plan means.
  */
  method BuildPlan<A(!new)>(chunks: Chunks<A>, p: Plan<A>) returns (k: nat)
    requires Valid(chunks.H()) && Ranked(p)
    modifies chunks
    ensures Yields(old(chunks.H()), chunks.H(), {}, k, Meaning(p))
    decreases p, 1
  {
    match p {
      case Nothing => k := chunks.Default();
      case One(a) => k := chunks.New(a);
      case Many(items) => k := chunks.FromIter(items);
      case Both(_, _) => k := BuildBoth(chunks, p);
      case Each(_, _, _) => k := BuildEach(chunks, p);
    }
  }

  method BuildBoth<A(!new)>(chunks: Chunks<A>, p: Plan<A>) returns (k: nat)
    requires Valid(chunks.H()) && Ranked(p) && p.Both?
    modifies chunks
    ensures Yields(old(chunks.H()), chunks.H(), {}, k, Meaning(p))
    decreases p, 0
  {
    assert Meaning(p) == Meaning(p.left) + Meaning(p.right);
    hide Valid, Denote, Meaning, Ranked;
    var x := BuildPlan(chunks, p.left);
    ghost var h1 := chunks.H();
    var y := BuildPlan(chunks, p.right);
    ghost var h2 := chunks.H();
    assert x != y && Elements(h2, x) == Meaning(p.left);
    k := chunks.Concat(x, y);
    BothBuilt(old(chunks.H()), h1, h2, chunks.H(), x, Meaning(p.left), y, Meaning(p.right), k, Meaning(p));
  }

  method BuildEach<A(!new)>(chunks: Chunks<A>, p: Plan<A>) returns (k: nat)
    requires Valid(chunks.H()) && Ranked(p) && p.Each?
    modifies chunks
    ensures Yields(old(chunks.H()), chunks.H(), {}, k, Meaning(p))
    decreases p, 0
  {
    assert Meaning(p) == FlatMap(Meaning(p.source), Expand(p.f, p.rank));
    var x := BuildPlan(chunks, p.source);
    ghost var h1 := chunks.H();
    hide Valid, Denote, Meaning;
    k := chunks.TransformFlatten(x, p.f, p.rank);
    hide Yields;
    OneBuilt(old(chunks.H()), h1, chunks.H(), x, Meaning(p.source), k, Meaning(p));
  }

  /** Reading a plan directly and reading the chunk that is built from it give the same elements. */
  method ReadPlan<A(!new)>(chunks: Chunks<A>, p: Plan<A>) returns (direct: seq<A>, built: seq<A>)
    requires Valid(chunks.H()) && Ranked(p)
    modifies chunks
    ensures direct == built == Meaning(p)
  {
    direct := AsVecMut(p, []);
    assert [] + Meaning(p) == Meaning(p);
    hide Meaning, Ranked;
    var k := BuildPlan(chunks, p);
    built := chunks.AsVec(k);
  }
}
