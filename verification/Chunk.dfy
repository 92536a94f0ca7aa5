/**
  The operations of a chunk over the shared heap. A consumed handle is gone afterwards, as a moved value
  is; whatever an operation does, every other chunk keeps its elements.
*/
module Chunk {
  import opened ChunkPlan
  import opened ChunkHeap
  import opened Sequences

  /**
    What an operation promises: of the chunks before it, those in `gone` were consumed and all others are
    still there with the elements they had; the only new chunk is `k`, with the given elements.
  */
  ghost predicate Yields<A(!new)>(h: Heap<A>, h': Heap<A>, gone: set<nat>, k: nat, items: seq<A>) {
    && Valid(h) && Valid(h')
    && h'.handles.Keys == h.handles.Keys - gone + {k}
    && (k in h.handles ==> k in gone)
    && Undisturbed(h, h', gone)
    && Elements(h', k) == items
  }

  /** A step that consumes `first` and yields nothing that stays, followed by an operation. */
  lemma YieldsAfter<A(!new)>(h: Heap<A>, h1: Heap<A>, h': Heap<A>, first: set<nat>, second: set<nat>,
                             gone: set<nat>, k: nat, items: seq<A>)
    requires Valid(h) && Valid(h1) && Undisturbed(h, h1, first) && Yields(h1, h', second, k, items)
    requires forall j :: j in h.handles && j !in gone ==> j !in first && j !in second
    requires h.handles.Keys - gone == h1.handles.Keys - second
    requires k in h.handles ==> k in gone
    ensures Yields(h, h', gone, k, items)
  {
    hide Valid, Denote;
  }

  /** Two results in a row are both there, and an operation may consume them. */
  lemma BothBuilt<A(!new)>(h: Heap<A>, h1: Heap<A>, h2: Heap<A>, h3: Heap<A>, x: nat, xs: seq<A>, y: nat, ys: seq<A>,
                           k: nat, items: seq<A>)
    requires Yields(h, h1, {}, x, xs) && Yields(h1, h2, {}, y, ys) && Yields(h2, h3, {x, y}, k, items)
    ensures Yields(h, h3, {}, k, items)
  {
    hide Valid, Denote;
    UndisturbedTwice(h, h1, h2, {}, {});
    var none: set<nat> := {};
    assert none + none == none;
    assert x != y && x !in h.handles && y !in h.handles;
    YieldsAfter(h, h2, h3, {}, {x, y}, {}, k, items);
  }

  lemma OneBuilt<A(!new)>(h: Heap<A>, h1: Heap<A>, h2: Heap<A>, x: nat, xs: seq<A>, k: nat, items: seq<A>)
    requires Yields(h, h1, {}, x, xs) && Yields(h1, h2, {x}, k, items)
    ensures Yields(h, h2, {}, k, items)
  {
    hide Valid, Denote;
    YieldsAfter(h, h1, h2, {}, {x}, {}, k, items);
  }

  // ---------------------------------------------------------------------------------------------
  // What the elementary moves add up to

  lemma HandlesAfterPut<A>(h: Heap<A>, h1: Heap<A>, gone: set<nat>, n: Node<A>)
    requires h1.handles.Keys == h.handles.Keys - gone && (n.Collect? ==> n.vec in h1.strong)
    ensures AfterPut(h1, n).handles.Keys == h.handles.Keys - gone + {h1.next}
  {
  }

  /** Being referenced is a matter of boxes and handles only. */
  lemma UnreferencedStays<A>(h: Heap<A>, h1: Heap<A>)
    requires h.boxes == h1.boxes && h.handles == h1.handles
    ensures forall b :: Unreferenced(h, b) <==> Unreferenced(h1, b)
  {
  }

  lemma NothingMoreGone(gone: set<nat>)
    ensures gone + {} == gone
  {
  }

  /** Whatever was consumed before, a new handle for a node yields what the node means. */
  lemma PutYieldsAfter<A(!new)>(h: Heap<A>, h1: Heap<A>, gone: set<nat>, n: Node<A>)
    requires Valid(h) && Valid(h1) && NodeOk(h1, n) && Undisturbed(h, h1, gone)
    requires h1.handles.Keys == h.handles.Keys - gone && h1.next >= h.next
    ensures Yields(h, AfterPut(h1, n), gone, h1.next, Denote(h1, n))
  {
    assert h1.next !in h.handles;
    PutKeeps(h1, n);
    HandlesAfterPut(h, h1, gone, n);
    NothingMoreGone(gone);
    UndisturbedTwice(h, h1, AfterPut(h1, n), gone, {});
  }

  lemma PutYields<A(!new)>(h: Heap<A>, n: Node<A>)
    requires Valid(h) && NodeOk(h, n)
    ensures Yields(h, AfterPut(h, n), {}, h.next, Denote(h, n))
  {
    PutYieldsAfter(h, h, {}, n);
  }

  lemma TakeTwice<A(!new)>(h: Heap<A>, x: nat, y: nat)
    requires Valid(h) && x in h.handles && y in h.handles && x != y
    ensures CanTake(h, x) && CanTake(AfterTake(h, x), y)
    ensures var h2 := AfterTake(AfterTake(h, x), y); Valid(h2) && Undisturbed(h, h2, {x, y})
  {
    TakeKeeps(h, x);
    TakeKeeps(AfterTake(h, x), y);
    hide Valid, Denote, Undisturbed, NodeOk, BoxesOk;
    UndisturbedTwice(h, AfterTake(h, x), AfterTake(AfterTake(h, x), y), {x}, {y});
    assert {x} + {y} == {x, y};
  }

  lemma CollectYieldsAfter<A(!new)>(h: Heap<A>, h1: Heap<A>, gone: set<nat>, items: seq<A>)
    requires Valid(h) && Valid(h1) && Undisturbed(h, h1, gone)
    requires h1.handles.Keys == h.handles.Keys - gone && h1.next >= h.next
    ensures var h2 := AfterAlloc(h1, items); var n := Collect(h1.next);
            Valid(h2) && NodeOk(h2, n) && Yields(h, AfterPut(h2, n), gone, h1.next + 1, items)
  {
    AllocKeeps(h1, items);
    NothingMoreGone(gone);
    hide Valid, Undisturbed, Yields;
    UndisturbedTwice(h, h1, AfterAlloc(h1, items), gone, {});
    PutYieldsAfter(h, AfterAlloc(h1, items), gone, Collect(h1.next));
  }

  lemma TakeEmptyYields<A(!new)>(h: Heap<A>, x: nat, y: nat)
    requires Valid(h) && x in h.handles && y in h.handles && x != y && h.handles[x].Empty?
    ensures CanTake(h, x) && Elements(h, x) == [] && Yields(h, AfterTake(h, x), {x, y}, y, Elements(h, y))
    ensures Yields(h, AfterTake(h, x), {y, x}, y, Elements(h, y))
  {
    TakeKeeps(h, x);
    assert {x, y} == {y, x};
  }

  lemma PushYieldsAfter<A(!new)>(h: Heap<A>, h1: Heap<A>, x: nat, y: nat, a: A)
    requires Valid(h) && Valid(h1) && x in h.handles && x != y && Undisturbed(h, h1, {y})
    requires h1.handles == h.handles - {y}
    requires h.handles[x].Collect? && h.handles[x].vec in h1.strong && h1.strong[h.handles[x].vec] == 1
    ensures h.handles[x].vec in h1.vecs
    ensures Yields(h, AfterPush(h1, h.handles[x].vec, a), {x, y}, x, Elements(h, x) + [a])
  {
    assert Elements(h1, x) == Elements(h, x);
    assert h.handles[x].vec in h1.vecs;
    PushKeeps(h1, x, a);
    hide Denote;
    var h2 := AfterPush(h1, h.handles[x].vec, a);
    assert h2.handles.Keys == h1.handles.Keys - {x} + {x};
    assert Yields(h1, h2, {x}, x, Elements(h, x) + [a]);
    YieldsAfter(h, h1, h2, {y}, {x}, {x, y}, x, Elements(h, x) + [a]);
  }

  lemma JoinYields<A(!new)>(h: Heap<A>, x: nat, y: nat)
    requires Valid(h) && x in h.handles && y in h.handles && x != y
    ensures var h2 := AfterBox(AfterBox(h, x), y); var n := Node.Concat(h.next, h.next + 1);
            && Valid(h2) && NodeOk(h2, n)
            && Yields(h, AfterPut(h2, n), {x, y}, h.next + 2, Elements(h, x) + Elements(h, y))
  {
    BoxedPair(h, x, y);
    hide Valid, Undisturbed, NodeOk, Yields, Denote;
    PutYieldsAfter(h, AfterBox(AfterBox(h, x), y), {x, y}, Node.Concat(h.next, h.next + 1));
  }

  lemma TransformYields<A(!new)>(h: Heap<A>, x: nat, f: A -> Plan<A>, rank: nat)
    requires Valid(h) && x in h.handles && RankedClosure(f, rank)
    ensures var h1 := AfterBox(h, x); var n := Node.TransformFlatten(h.next, f, rank);
            && Valid(h1) && NodeOk(h1, n)
            && Yields(h, AfterPut(h1, n), {x}, h.next + 1, FlatMap(Elements(h, x), Expand(f, rank)))
  {
    BoxKeeps(h, x);
    var h1, n := AfterBox(h, x), Node.TransformFlatten(h.next, f, rank);
    assert n.Refs() == {h.next};
    assert Denote(h1, n) == FlatMap(Elements(h, x), Expand(f, rank));
    PutYieldsAfter(h, h1, {x}, n);
  }

  lemma BoxedPair<A(!new)>(h: Heap<A>, x: nat, y: nat)
    requires Valid(h) && x in h.handles && y in h.handles && x != y
    ensures var h' := AfterBox(AfterBox(h, x), y); var n := Node.Concat(h.next, h.next + 1);
            && Valid(h') && Undisturbed(h, h', {x, y})
            && NodeOk(h', n) && Denote(h', n) == Elements(h, x) + Elements(h, y)
  {
    BoxKeeps(h, x);
    var h1 := AfterBox(h, x);
    BoxKeeps(h1, y);
    var h2 := AfterBox(h1, y);
    UndisturbedTwice(h, h1, h2, {x}, {y});
    assert {x} + {y} == {x, y};
    var n: Node<A> := Node.Concat(h.next, h.next + 1);
    assert n.Refs() <= h2.boxes.Keys;
    hide Valid, Undisturbed, BoxesOk, RankedClosure;
    assert Elements(h1, y) == Elements(h, y);
  }

  lemma UndisturbedTwice<A(!new)>(h0: Heap<A>, h1: Heap<A>, h2: Heap<A>, g1: set<nat>, g2: set<nat>)
    requires Valid(h0) && Valid(h1) && Valid(h2) && Undisturbed(h0, h1, g1) && Undisturbed(h1, h2, g2)
    ensures Undisturbed(h0, h2, g1 + g2)
  {
    hide Valid, Denote;
  }

  /** A closure that yields exactly one element needs rank one. */
  function Lift<A>(f: A -> A): A -> Plan<A> {
    (x: A) => One(f(x))
  }

  function MapEach<A>(items: seq<A>, f: A -> A): seq<A> {
    seq(|items|, i requires 0 <= i < |items| => f(items[i]))
  }

  /** The elements of a chunk after `transform`. */
  ghost function Transformed<A(!new)>(items: seq<A>, f: A -> A): seq<A> {
    FlatMap(items, Expand(Lift(f), 1))
  }

  /** `transform` maps every element in place. */
  lemma {:induction false} TransformMeaning<A(!new)>(items: seq<A>, f: A -> A)
    ensures Transformed(items, f) == MapEach(items, f)
  {
    if items != [] {
      var n := |items| - 1;
      TransformMeaning(items[..n], f);
      assert MapEach(items, f) == MapEach(items[..n], f) + [f(items[n])];
    }
  }

  class Chunks<A(!new)> {
    var vecs: map<nat, seq<A>>
    var strong: map<nat, nat>
    var boxes: map<nat, Node<A>>
    var handles: map<nat, Node<A>>
    var next: nat

    ghost function H(): Heap<A>
      reads this
    {
      Heap(vecs, strong, boxes, handles, next)
    }

    constructor ()
      ensures Valid(H()) && handles == map[]
    {
      vecs, strong, boxes, handles, next := map[], map[], map[], map[], 0;
    }

    /** A new handle for node `n`. */
    method Put(n: Node<A>) returns (k: nat)
      requires Valid(H()) && NodeOk(H(), n)
      modifies this
      ensures H() == AfterPut(old(H()), n) && k == old(next)
      ensures Yields(old(H()), H(), {}, k, Denote(old(H()), n))
    {
      PutYields(H(), n);
      hide Valid, NodeOk, Yields;
      k := next;
      handles := handles[k := n];
      strong := Counted(strong, n, 1);
      next := next + 1;
    }

    /** Gives up handle `k`: a drop, or the first half of a move. */
    method Take(k: nat) returns (n: Node<A>)
      requires Valid(H()) && k in handles
      modifies this
      ensures CanTake(old(H()), k) && H() == AfterTake(old(H()), k) && n == old(handles)[k]
      ensures Valid(H()) && Undisturbed(old(H()), H(), {k})
    {
      TakeKeeps(H(), k);
      hide Valid, Undisturbed;
      n := handles[k];
      handles := handles - {k};
      strong := Counted(strong, n, -1);
    }

    /** `Rc::new`: the chunk moves from its handle into a box. */
    method Boxed(k: nat) returns (b: nat)
      requires Valid(H()) && k in handles
      modifies this
      ensures H() == AfterBox(old(H()), k) && b == old(next)
      ensures Valid(H())
    {
      BoxKeeps(H(), k);
      hide Valid;
      b := next;
      boxes := boxes[b := handles[k]];
      handles := handles - {k};
      next := next + 1;
    }

    method Alloc(items: seq<A>) returns (v: nat)
      requires Valid(H())
      modifies this
      ensures H() == AfterAlloc(old(H()), items) && v == old(next)
      ensures Valid(H())
    {
      AllocKeeps(H(), items);
      hide Valid;
      v := next;
      vecs := vecs[v := items];
      strong := strong[v := 0];
      next := next + 1;
    }

    /** The last reference to a box went away. */
    method FreeBox(b: nat)
      requires Valid(H()) && b in boxes && Unreferenced(H(), b)
      modifies this
      ensures Valid(H()) && handles == old(handles) && Undisturbed(old(H()), H(), {})
      ensures boxes == old(boxes) - {b}
    {
      ghost var h := H();
      FreeKeeps(h, b);
      hide Valid, Undisturbed;
      strong := Counted(strong, boxes[b], -1);
      boxes := boxes - {b};
      assert H() == AfterFree(h, b);
    }

    method Default() returns (k: nat)
      requires Valid(H())
      modifies this
      ensures Yields(old(H()), H(), {}, k, [])
    {
      k := Put(Empty);
    }

    method New(a: A) returns (k: nat)
      requires Valid(H())
      modifies this
      ensures Yields(old(H()), H(), {}, k, [a]) && handles[k] == Single(a)
    {
      k := Put(Single(a));
    }

    /** `Clone`: a second handle for the same parts. */
    method Clone(x: nat) returns (k: nat)
      requires Valid(H()) && x in handles
      modifies this
      ensures Yields(old(H()), H(), {}, k, Elements(old(H()), x))
    {
      k := Put(handles[x]);
    }

    /** Frees every box that has lost its last reference, and what that leaves without one, and so on. */
    method ReleaseBoxes()
      requires Valid(H())
      modifies this
      ensures Valid(H()) && handles == old(handles) && Undisturbed(old(H()), H(), {})
      ensures forall b :: b in boxes ==> b in old(boxes) && !Unreferenced(H(), b)
    {
      ghost var h := H();
      while exists b :: b in boxes && Unreferenced(Heap(vecs, strong, boxes, handles, next), b)
        invariant Valid(H()) && handles == old(handles) && Undisturbed(h, H(), {})
        invariant boxes.Keys <= old(boxes).Keys
        decreases |boxes|
      {
        hide Valid, Undisturbed, Unreferenced;
        ghost var h1 := H();
        var b :| b in boxes && Unreferenced(Heap(vecs, strong, boxes, handles, next), b);
        FreeBox(b);
        UndisturbedTwice(h, h1, H(), {}, {});
        NothingMoreGone({});
      }
    }

    method FreeVector(v: nat)
      requires Valid(H()) && v in vecs && v in strong && strong[v] == 0
      modifies this
      ensures Valid(H()) && handles == old(handles) && boxes == old(boxes) && Undisturbed(old(H()), H(), {})
      ensures vecs == old(vecs) - {v} && strong == old(strong) - {v}
    {
      FreeVecKeeps(H(), v);
      hide Valid, Undisturbed;
      vecs, strong := vecs - {v}, strong - {v};
      assert H() == AfterFreeVec(old(H()), v);
    }

    /** Frees every vector whose count has reached zero. */
    method ReleaseVectors()
      requires Valid(H())
      modifies this
      ensures Valid(H()) && handles == old(handles) && boxes == old(boxes) && Undisturbed(old(H()), H(), {})
      ensures vecs.Keys == strong.Keys && forall v :: v in strong ==> v in old(vecs) && strong[v] > 0
    {
      ghost var h := H();
      assert vecs.Keys == strong.Keys;
      while exists v :: v in strong && strong[v] == 0
        invariant Valid(H()) && handles == old(handles) && boxes == old(boxes) && Undisturbed(h, H(), {})
        invariant vecs.Keys == strong.Keys <= old(vecs).Keys
        decreases |strong|
      {
        hide Valid, Undisturbed;
        ghost var h1 := H();
        var v :| v in strong && strong[v] == 0;
        FreeVector(v);
        UndisturbedTwice(h, h1, H(), {}, {});
        NothingMoreGone({});
      }
    }

    /** The chunk goes away, and with it all boxes and vectors that nothing else refers to. */
    method Drop(x: nat)
      requires Valid(H()) && x in handles
      modifies this
      ensures Valid(H()) && handles.Keys == old(handles).Keys - {x} && Undisturbed(old(H()), H(), {x})
      ensures forall b :: b in boxes ==> !Unreferenced(H(), b)
      ensures vecs.Keys == strong.Keys && forall v :: v in strong ==> strong[v] > 0
    {
      hide Valid, Undisturbed, Unreferenced;
      var n := Take(x);
      ghost var h1 := H();
      ReleaseBoxes();
      ghost var h2 := H();
      ReleaseVectors();
      UnreferencedStays(h2, H());
      UndisturbedTwice(old(H()), h1, h2, {x}, {});
      UndisturbedTwice(old(H()), h2, H(), {x} + {}, {});
      NothingMoreGone({x});
    }

    method FromIter(items: seq<A>) returns (k: nat)
      requires Valid(H())
      modifies this
      ensures Yields(old(H()), H(), {}, k, items) && handles[k].Collect?
      ensures handles == old(handles)[k := handles[k]]
    {
      CollectYieldsAfter(H(), H(), {}, items);
      hide Valid, Yields;
      var v := Alloc(items);
      k := Put(Collect(v));
    }

    /** A null chunk is empty, but a lazily empty one is not null. */
    method IsNull(x: nat) returns (r: bool)
      requires Valid(H()) && x in handles
      ensures r <==> Elements(H(), x) == [] && !handles[x].Concat? && !handles[x].TransformFlatten?
    {
      match handles[x] {
        case Empty => r := true;
        case Collect(v) => r := |vecs[v]| == 0;
        case _ => r := false;
      }
    }

    /** The element of `y` moves to the end of the vector that only `x` holds. */
    method Push(x: nat, y: nat)
      requires Valid(H()) && x in handles && y in handles && x != y
      requires handles[x].Collect? && handles[y].Single? && strong[handles[x].vec] == 1
      modifies this
      ensures Yields(old(H()), H(), {x, y}, x, Elements(old(H()), x) + Elements(old(H()), y))
    {
      assert handles[x].vec in strong;
      assert Elements(H(), y) == [handles[y].a];
      hide Valid, Yields, Undisturbed, Denote;
      var m := Take(y);
      var v := handles[x].vec;
      PushYieldsAfter(old(H()), H(), x, y, m.a);
      vecs := vecs[v := vecs[v] + [m.a]];
    }

    /** The general case: both chunks move into boxes below a new node. */
    method Join(x: nat, y: nat) returns (k: nat)
      requires Valid(H()) && x in handles && y in handles && x != y
      modifies this
      ensures Yields(old(H()), H(), {x, y}, k, Elements(old(H()), x) + Elements(old(H()), y))
      ensures handles[k].Concat?
    {
      JoinYields(H(), x, y);
      hide Valid, Undisturbed, NodeOk, Denote;
      var left := Boxed(x);
      var right := Boxed(y);
      k := Put(Node.Concat(left, right));
    }

    /** Two single elements become a vector of their own. */
    method Pair(x: nat, y: nat) returns (k: nat)
      requires Valid(H()) && x in handles && y in handles && x != y
      requires handles[x].Single? && handles[y].Single?
      modifies this
      ensures Yields(old(H()), H(), {x, y}, k, Elements(old(H()), x) + Elements(old(H()), y))
    {
      TakeTwice(H(), x, y);
      assert [handles[x].a, handles[y].a] == Elements(H(), x) + Elements(H(), y);
      CollectYieldsAfter(H(), AfterTake(AfterTake(H(), x), y), {x, y}, [handles[x].a, handles[y].a]);
      hide Valid, Yields, NodeOk, Undisturbed, Denote;
      var n := Take(x);
      var m := Take(y);
      var v := Alloc([n.a, m.a]);
      k := Put(Collect(v));
    }

    /** The null cases: the other chunk is the result. */
    method Absorb(x: nat, y: nat) returns (k: nat)
      requires Valid(H()) && x in handles && y in handles && x != y
      requires handles[x].Empty? || handles[y].Empty?
      modifies this
      ensures Yields(old(H()), H(), {x, y}, k, Elements(old(H()), x) + Elements(old(H()), y))
    {
      hide Valid, Yields, Denote;
      if handles[x].Empty? {
        TakeEmptyYields(H(), x, y);
        assert [] + Elements(H(), y) == Elements(H(), y);
        var n := Take(x);
        k := y;
      } else {
        TakeEmptyYields(H(), y, x);
        assert Elements(H(), x) + [] == Elements(H(), x);
        var n := Take(y);
        k := x;
      }
    }

    /** Concatenation; appending one element to an unshared vector happens in place. */
    method Concat(x: nat, y: nat) returns (k: nat)
      requires Valid(H()) && x in handles && y in handles && x != y
      modifies this
      ensures Yields(old(H()), H(), {x, y}, k, Elements(old(H()), x) + Elements(old(H()), y))
      ensures old(handles[x].Collect? && handles[y].Collect?) ==> handles[k].Concat?
    {
      assert handles[x].Collect? ==> handles[x].vec in strong;
      hide Valid, Undisturbed, Denote;
      if handles[x].Empty? || handles[y].Empty? {
        k := Absorb(x, y);
      } else if handles[x].Single? && handles[y].Single? {
        k := Pair(x, y);
      } else if handles[x].Collect? && handles[y].Single? && strong[handles[x].vec] == 1 {
        Push(x, y);
        k := x;
      } else {
        k := Join(x, y);
      }
    }

    method Append(x: nat, a: A) returns (k: nat)
      requires Valid(H()) && x in handles
      modifies this
      ensures Yields(old(H()), H(), {x}, k, Elements(old(H()), x) + [a])
    {
      hide Valid, Denote;
      var y := New(a);
      ghost var h1 := H();
      k := Concat(x, y);
      YieldsAfter(old(H()), h1, H(), {}, {x, y}, {x}, k, Elements(old(H()), x) + [a]);
    }

    method Prepend(x: nat, a: A) returns (k: nat)
      requires Valid(H()) && x in handles
      modifies this
      ensures Yields(old(H()), H(), {x}, k, [a] + Elements(old(H()), x))
    {
      var isNull := IsNull(x);
      hide Valid, Denote;
      if isNull {
        Drop(x);
        ghost var h1 := H();
        k := New(a);
        assert [a] + Elements(old(H()), x) == [a];
        YieldsAfter(old(H()), h1, H(), {x}, {}, {x}, k, [a]);
      } else {
        var y := New(a);
        ghost var h1 := H();
        k := Concat(y, x);
        YieldsAfter(old(H()), h1, H(), {}, {y, x}, {x}, k, [a] + Elements(old(H()), x));
      }
    }

    method TransformFlatten(x: nat, f: A -> Plan<A>, rank: nat) returns (k: nat)
      requires Valid(H()) && x in handles && RankedClosure(f, rank)
      modifies this
      ensures Yields(old(H()), H(), {x}, k, FlatMap(Elements(old(H()), x), Expand(f, rank)))
    {
      TransformYields(H(), x, f, rank);
      hide Valid, Yields, NodeOk;
      var source := Boxed(x);
      k := Put(Node.TransformFlatten(source, f, rank));
    }

    /** A function on elements; the chunk of results is built when it is read. */
    method Transform(x: nat, f: A -> A) returns (k: nat)
      requires Valid(H()) && x in handles
      modifies this
      ensures Yields(old(H()), H(), {x}, k, MapEach(Elements(old(H()), x), f))
    {
      TransformMeaning(Elements(H(), x), f);
      hide Valid, Yields;
      k := TransformFlatten(x, Lift(f), 1);
    }

    /** Appends the elements of a node to the buffer. */
    method AsVecMutNode(n: Node<A>, buf: seq<A>) returns (r: seq<A>)
      requires Valid(H()) && NodeOk(H(), n)
      ensures r == buf + Denote(H(), n)
      decreases Height(n)
    {
      hide Undisturbed, BoxesKept, CountsExact, FlatMap;
      match n {
        case Empty => r := buf + [];
        case Single(a) => r := buf + [a];
        case Concat(left, right) =>
          assert left in n.Refs() && right in n.Refs();
          r := AsVecMutNode(boxes[left], buf);
          r := AsVecMutNode(boxes[right], r);
          Regroup(buf, Denote(H(), boxes[left]), Denote(H(), boxes[right]));
        case TransformFlatten(source, f, rank) =>
          assert source in n.Refs();
          var tmp := AsVecMutNode(boxes[source], []);
          assert tmp == Denote(H(), boxes[source]);
          r := ExpandAll(tmp, f, rank, buf);
        case Collect(v) => r := buf + vecs[v];
      }
    }

    method AsVecMut(x: nat, buf: seq<A>) returns (r: seq<A>)
      requires Valid(H()) && x in handles
      ensures r == buf + Elements(H(), x)
    {
      r := AsVecMutNode(handles[x], buf);
    }

    method AsVec(x: nat) returns (r: seq<A>)
      requires Valid(H()) && x in handles
      ensures r == Elements(H(), x)
    {
      r := AsVecMut(x, []);
      assert [] + Elements(H(), x) == Elements(H(), x);
    }

    /** Two empty vectors, concatenated: a chunk without elements that is not null. */
    method NonNullWithoutElements() returns (k: nat, isNull: bool)
      requires Valid(H())
      modifies this
      ensures Yields(old(H()), H(), {}, k, []) && !isNull
    {
      hide Valid, Denote;
      var x := FromIter([]);
      ghost var h1 := H();
      var y := FromIter([]);
      ghost var h2 := H();
      assert x != y && Elements(h2, x) == [] && handles[x].Collect?;
      k := Concat(x, y);
      isNull := IsNull(k);
      hide Undisturbed, Yields;
      BothBuilt(old(H()), h1, h2, H(), x, [], y, [], k, []);
    }

    /** Evaluates everything now; only `IsNull` can tell the difference. */
    method Materialize(x: nat) returns (k: nat)
      requires Valid(H()) && x in handles
      modifies this
      ensures Yields(old(H()), H(), {x}, k, Elements(old(H()), x)) && handles[k].Collect?
    {
      var items := AsVec(x);
      hide Valid, Denote;
      Drop(x);
      ghost var h1 := H();
      k := FromIter(items);
      YieldsAfter(old(H()), h1, H(), {x}, {}, {x}, k, items);
    }
  }

  // ---------------------------------------------------------------------------------------------
  // Laws of transformations

  /** Two transformations in a row are one transformation by the composed function. */
  lemma TransformComposes<A(!new)>(items: seq<A>, f: A -> A, g: A -> A)
    ensures Transformed(Transformed(items, f), g) == Transformed(items, (x: A) => g(f(x)))
  {
    TransformMeaning(items, f);
    TransformMeaning(MapEach(items, f), g);
    TransformMeaning(items, (x: A) => g(f(x)));
    assert MapEach(MapEach(items, f), g) == MapEach(items, (x: A) => g(f(x)));
  }

  /** Both kinds of transformation distribute over concatenation. */
  lemma TransformDistributes<A(!new)>(xs: seq<A>, ys: seq<A>, f: A -> A, g: A -> Plan<A>, rank: nat)
    requires RankedClosure(g, rank)
    ensures Transformed(xs + ys, f) == Transformed(xs, f) + Transformed(ys, f)
    ensures FlatMap(xs + ys, Expand(g, rank)) == FlatMap(xs, Expand(g, rank)) + FlatMap(ys, Expand(g, rank))
  {
    FlatMapConcat(xs, ys, Expand(Lift(f), 1));
    FlatMapConcat(xs, ys, Expand(g, rank));
  }

  /** The closure that runs `f` and then, lazily, `g` on every element of the result. */
  function Then<A>(f: A -> Plan<A>, g: A -> Plan<A>, rank: nat): A -> Plan<A> {
    (x: A) => Each(f(x), g, rank)
  }

  /** `transform_flatten` is associative: nesting the second one inside the closure changes nothing. */
  lemma TransformFlattenAssociative<A(!new)>(items: seq<A>, f: A -> Plan<A>, rf: nat, g: A -> Plan<A>, rg: nat)
    requires RankedClosure(f, rf) && RankedClosure(g, rg)
    ensures RankedClosure(Then(f, g, rg), rf + rg + 1)
    ensures FlatMap(FlatMap(items, Expand(f, rf)), Expand(g, rg)) == FlatMap(items, Expand(Then(f, g, rg), rf + rg + 1))
  {
    forall x ensures Expand(Then(f, g, rg), rf + rg + 1)(x) == FlatMap(Expand(f, rf)(x), Expand(g, rg)) {
      assert Then(f, g, rg)(x) == Each(f(x), g, rg);
    }
    FlatMapAssociative(items, Expand(f, rf), Expand(g, rg), Expand(Then(f, g, rg), rf + rg + 1));
  }

  /** Wrapping each element in a chunk of its own and flattening is the identity; and the other way round. */
  lemma TransformFlattenUnits<A(!new)>(items: seq<A>, a: A, f: A -> Plan<A>, rank: nat)
    requires RankedClosure(f, rank)
    ensures RankedClosure((x: A) => One(x), 1)
    ensures FlatMap(items, Expand((x: A) => One(x), 1)) == items
    ensures FlatMap([a], Expand(f, rank)) == Meaning(f(a))
  {
    FlatMapIdentity(items, Expand((x: A) => One(x), 1));
    assert [a][..0] == [];
  }
}
