/**
  Persistent sequences over shared, reference-counted parts. A chunk is a node held by a handle (a value
  the program owns) or by a box (the inside of an `Rc<Chunk>`); collected elements live in shared vectors
  with a strong count. Appending to a vector in place must not be visible through any other chunk.
*/
module ChunkHeap {
  import opened ChunkPlan

  datatype Node<!A> =
    | Empty
    | Single(a: A)
    | Concat(left: nat, right: nat)
    | Collect(vec: nat)
    | TransformFlatten(source: nat, f: A -> Plan<A>, rank: nat)
  {
    /** The boxes this node refers to. */
    function Refs(): set<nat> {
      match this
      case Concat(l, r) => {l, r}
      case TransformFlatten(s, _, _) => {s}
      case _ => {}
    }

    ghost predicate Holds(v: nat) {
      Collect? && vec == v
    }
  }

  /** `strong[v]` is the reference count of vector `v`; `next` is an identifier not used so far. */
  datatype Heap<!A> = Heap(vecs: map<nat, seq<A>>, strong: map<nat, nat>, boxes: map<nat, Node<A>>,
                           handles: map<nat, Node<A>>, next: nat)

  ghost predicate NodeOk<A(!new)>(h: Heap<A>, n: Node<A>) {
    && n.Refs() <= h.boxes.Keys
    && (n.Collect? ==> n.vec in h.vecs)
    && (n.TransformFlatten? ==> RankedClosure(n.f, n.rank))
  }

  /** Boxes refer to older boxes only, so following references ends. */
  ghost predicate BoxesOk<A(!new)>(h: Heap<A>) {
    && (forall b :: b in h.boxes ==> b < h.next && NodeOk(h, h.boxes[b]))
    && (forall b, r :: b in h.boxes && r in h.boxes[b].Refs() ==> r < b)
  }

  ghost function Holders<A>(nodes: map<nat, Node<A>>, v: nat): set<nat> {
    set k | k in nodes && nodes[k].Holds(v)
  }

  ghost predicate CountsExact<A(!new)>(h: Heap<A>) {
    && h.strong.Keys == h.vecs.Keys
    && (forall v :: v in h.vecs ==> v < h.next && h.strong[v] == |Holders(h.handles, v)| + |Holders(h.boxes, v)|)
  }

  ghost predicate Valid<A(!new)>(h: Heap<A>) {
    && BoxesOk(h)
    && (forall k :: k in h.handles ==> k < h.next && NodeOk(h, h.handles[k]))
    && CountsExact(h)
  }

  /** One more than the newest box a node refers to. */
  ghost function Height<A>(n: Node<A>): nat {
    match n
    case Concat(l, r) => if l < r then r + 1 else l + 1
    case TransformFlatten(s, _, _) => s + 1
    case _ => 0
  }

  /** The elements of a chunk, in order. */
  ghost function Denote<A(!new)>(h: Heap<A>, n: Node<A>): seq<A>
    requires BoxesOk(h) && NodeOk(h, n)
    decreases Height(n)
  {
    match n
    case Empty => []
    case Single(a) => [a]
    case Concat(l, r) =>
      assert l in n.Refs() && r in n.Refs();
      Denote(h, h.boxes[l]) + Denote(h, h.boxes[r])
    case Collect(v) => h.vecs[v]
    case TransformFlatten(s, f, rank) =>
      assert s in n.Refs();
      FlatMap(Denote(h, h.boxes[s]), Expand(f, rank))
  }

  /** The elements of the chunk behind handle `k`. */
  ghost function Elements<A(!new)>(h: Heap<A>, k: nat): seq<A>
    requires Valid(h) && k in h.handles
  {
    Denote(h, h.handles[k])
  }

  /** The handles in `gone` were consumed; every other chunk is still there and means the same. */
  ghost predicate Undisturbed<A(!new)>(h: Heap<A>, h': Heap<A>, gone: set<nat>)
    requires Valid(h) && Valid(h')
  {
    forall k :: k in h.handles && k !in gone ==> k in h'.handles && Elements(h', k) == Elements(h, k)
  }

  /**
    What may happen to a heap without changing the meaning of `n`: new parts appear, a box that nobody
    refers to goes away, and the vector `hot` changes although no box and not `n` itself holds it.
  */
  ghost predicate Frames<A(!new)>(h: Heap<A>, h': Heap<A>, dead: nat, hot: nat) {
    && BoxesOk(h) && BoxesOk(h')
    && (forall b :: b in h.boxes ==> dead !in h.boxes[b].Refs() && !h.boxes[b].Holds(hot))
    && (forall b :: b in h.boxes && b != dead ==> b in h'.boxes && h'.boxes[b] == h.boxes[b])
    && (forall v :: v in h.vecs && v != hot ==> v in h'.vecs && h'.vecs[v] == h.vecs[v])
  }

  lemma {:induction false} DenoteFramed<A(!new)>(h: Heap<A>, h': Heap<A>, dead: nat, hot: nat, n: Node<A>)
    requires Frames(h, h', dead, hot) && NodeOk(h, n) && dead !in n.Refs() && !n.Holds(hot)
    ensures NodeOk(h', n) && Denote(h', n) == Denote(h, n)
    decreases Height(n)
  {
    forall r | r in n.Refs() ensures r in h'.boxes && Denote(h', h'.boxes[r]) == Denote(h, h.boxes[r]) {
      DenoteFramed(h, h', dead, hot, h.boxes[r]);
    }
    match n
    case Concat(l, r) => assert l in n.Refs() && r in n.Refs();
    case TransformFlatten(s, _, _) => assert s in n.Refs();
    case _ =>
  }

  // ---------------------------------------------------------------------------------------------
  // The elementary moves of the reference-counting runtime

  function Counted<A>(strong: map<nat, nat>, n: Node<A>, change: int): map<nat, nat>
    requires n.Collect? ==> n.vec in strong && strong[n.vec] + change >= 0
  {
    if n.Collect? then strong[n.vec := strong[n.vec] + change] else strong
  }

  /** A new handle for node `n`; a shared vector gains a reference. */
  function AfterPut<A>(h: Heap<A>, n: Node<A>): Heap<A>
    requires n.Collect? ==> n.vec in h.strong
  {
    h.(handles := h.handles[h.next := n], strong := Counted(h.strong, n, 1), next := h.next + 1)
  }

  ghost predicate CanTake<A>(h: Heap<A>, k: nat) {
    k in h.handles && (h.handles[k].Collect? ==> h.handles[k].vec in h.strong && h.strong[h.handles[k].vec] > 0)
  }

  /** Handle `k` is dropped; a shared vector loses a reference. */
  ghost function AfterTake<A>(h: Heap<A>, k: nat): Heap<A>
    requires CanTake(h, k)
  {
    h.(handles := h.handles - {k}, strong := Counted(h.strong, h.handles[k], -1))
  }

  /** The node behind handle `k` moves into a new box; no count changes. */
  function AfterBox<A>(h: Heap<A>, k: nat): Heap<A>
    requires k in h.handles
  {
    h.(handles := h.handles - {k}, boxes := h.boxes[h.next := h.handles[k]], next := h.next + 1)
  }

  /** A new vector that nobody refers to yet. */
  function AfterAlloc<A>(h: Heap<A>, items: seq<A>): Heap<A> {
    h.(vecs := h.vecs[h.next := items], strong := h.strong[h.next := 0], next := h.next + 1)
  }

  function AfterPush<A>(h: Heap<A>, v: nat, a: A): Heap<A>
    requires v in h.vecs
  {
    h.(vecs := h.vecs[v := h.vecs[v] + [a]])
  }

  /** A box that nothing refers to any more is freed, with what it held. */
  function AfterFree<A>(h: Heap<A>, b: nat): Heap<A>
    requires b in h.boxes && (h.boxes[b].Collect? ==> h.boxes[b].vec in h.strong && h.strong[h.boxes[b].vec] > 0)
  {
    h.(boxes := h.boxes - {b}, strong := Counted(h.strong, h.boxes[b], -1))
  }

  /** Boxes, too, mean the same as before. */
  ghost predicate BoxesKept<A(!new)>(h: Heap<A>, h': Heap<A>)
    requires BoxesOk(h) && BoxesOk(h')
  {
    forall b :: b in h.boxes ==>
      b in h'.boxes && h'.boxes[b] == h.boxes[b] && Denote(h', h'.boxes[b]) == Denote(h, h.boxes[b])
  }

  /** A move that changes no existing vector and removes no box leaves every meaning alone. */
  lemma QuietMove<A(!new)>(h: Heap<A>, h': Heap<A>, gone: set<nat>)
    requires Valid(h) && Valid(h') && h.next <= h'.next
    requires forall b :: b in h.boxes ==> b in h'.boxes && h'.boxes[b] == h.boxes[b]
    requires forall v :: v in h.vecs ==> v in h'.vecs && h'.vecs[v] == h.vecs[v]
    requires forall k :: k in h.handles && k !in gone ==> k in h'.handles && h'.handles[k] == h.handles[k]
    ensures Undisturbed(h, h', gone) && BoxesKept(h, h')
    ensures forall k :: k in h.handles ==>
              NodeOk(h', h.handles[k]) && Denote(h', h.handles[k]) == Denote(h, h.handles[k])
  {
    assert Frames(h, h', h.next, h.next);
    forall k | k in h.handles
      ensures NodeOk(h', h.handles[k]) && Denote(h', h.handles[k]) == Denote(h, h.handles[k])
    {
      DenoteFramed(h, h', h.next, h.next, h.handles[k]);
    }
    forall b | b in h.boxes ensures Denote(h', h'.boxes[b]) == Denote(h, h.boxes[b]) {
      DenoteFramed(h, h', h.next, h.next, h.boxes[b]);
    }
  }

  lemma HoldersAdded<A>(nodes: map<nat, Node<A>>, k: nat, n: Node<A>, v: nat)
    requires k !in nodes
    ensures |Holders(nodes[k := n], v)| == |Holders(nodes, v)| + if n.Holds(v) then 1 else 0
  {
    assert Holders(nodes[k := n], v) == Holders(nodes, v) + if n.Holds(v) then {k} else {};
  }

  lemma HoldersRemoved<A>(nodes: map<nat, Node<A>>, k: nat, v: nat)
    requires k in nodes
    ensures |Holders(nodes, v)| == |Holders(nodes - {k}, v)| + if nodes[k].Holds(v) then 1 else 0
  {
    assert Holders(nodes, v) == Holders(nodes - {k}, v) + if nodes[k].Holds(v) then {k} else {};
  }

  lemma PutKeepsCounts<A(!new)>(h: Heap<A>, n: Node<A>)
    requires CountsExact(h) && NodeOk(h, n) && h.next !in h.handles
    ensures CountsExact(AfterPut(h, n))
  {
    var h' := AfterPut(h, n);
    forall v | v in h'.vecs ensures h'.strong[v] == |Holders(h'.handles, v)| + |Holders(h'.boxes, v)| {
      HoldersAdded(h.handles, h.next, n, v);
    }
  }

  lemma PutStaysValid<A(!new)>(h: Heap<A>, n: Node<A>)
    requires Valid(h) && NodeOk(h, n)
    ensures Valid(AfterPut(h, n))
  {
    PutKeepsCounts(h, n);
    var h' := AfterPut(h, n);
    forall b | b in h'.boxes ensures NodeOk(h', h'.boxes[b]) {
      assert NodeOk(h, h.boxes[b]);
    }
  }

  lemma PutKeeps<A(!new)>(h: Heap<A>, n: Node<A>)
    requires Valid(h) && NodeOk(h, n)
    ensures var h' := AfterPut(h, n);
            && Valid(h') && Undisturbed(h, h', {}) && BoxesKept(h, h')
            && NodeOk(h', n) && Denote(h', n) == Denote(h, n)
  {
    PutStaysValid(h, n);
    var h' := AfterPut(h, n);
    QuietMove(h, h', {});
    DenoteFramed(h, h', h.next, h.next, n);
  }

  lemma TakeKeeps<A(!new)>(h: Heap<A>, k: nat)
    requires Valid(h) && k in h.handles
    ensures CanTake(h, k)
    ensures var h' := AfterTake(h, k);
            && Valid(h') && Undisturbed(h, h', {k}) && BoxesKept(h, h')
            && NodeOk(h', h.handles[k]) && Denote(h', h.handles[k]) == Elements(h, k)
  {
    if h.handles[k].Collect? { HoldersRemoved(h.handles, k, h.handles[k].vec); }
    var h' := AfterTake(h, k);
    forall v | v in h'.vecs ensures h'.strong[v] == |Holders(h'.handles, v)| + |Holders(h'.boxes, v)| {
      HoldersRemoved(h.handles, k, v);
    }
    assert forall b :: b in h.boxes ==> NodeOk(h, h.boxes[b]) && NodeOk(h', h.boxes[b]);
    assert BoxesOk(h');
    QuietMove(h, h', {k});
  }

  lemma BoxKeeps<A(!new)>(h: Heap<A>, k: nat)
    requires Valid(h) && k in h.handles
    ensures var h' := AfterBox(h, k);
            && Valid(h') && Undisturbed(h, h', {k}) && BoxesKept(h, h')
            && Denote(h', h'.boxes[h.next]) == Elements(h, k)
  {
    var h' := AfterBox(h, k);
    forall v | v in h'.vecs ensures h'.strong[v] == |Holders(h'.handles, v)| + |Holders(h'.boxes, v)| {
      HoldersRemoved(h.handles, k, v);
      HoldersAdded(h.boxes, h.next, h.handles[k], v);
    }
    assert forall b :: b in h.boxes ==> NodeOk(h, h.boxes[b]) && NodeOk(h', h.boxes[b]);
    assert BoxesOk(h');
    QuietMove(h, h', {k});
  }

  lemma AllocKeeps<A(!new)>(h: Heap<A>, items: seq<A>)
    requires Valid(h)
    ensures var h' := AfterAlloc(h, items); Valid(h') && Undisturbed(h, h', {}) && BoxesKept(h, h')
  {
    var h' := AfterAlloc(h, items);
    assert Holders(h.handles, h.next) == {} && Holders(h.boxes, h.next) == {};
    assert forall b :: b in h.boxes ==> NodeOk(h, h.boxes[b]) && NodeOk(h', h.boxes[b]);
    assert BoxesOk(h');
    QuietMove(h, h', {});
  }

  /** A count of one means that the handle is the only holder: the vector may change in place. */
  lemma SoleHolder<A(!new)>(h: Heap<A>, k: nat)
    requires Valid(h) && k in h.handles && h.handles[k].Collect? && h.strong[h.handles[k].vec] == 1
    ensures var v := h.handles[k].vec;
            && (forall b :: b in h.boxes ==> !h.boxes[b].Holds(v))
            && (forall j :: j in h.handles && j != k ==> !h.handles[j].Holds(v))
  {
    var v := h.handles[k].vec;
    HoldersRemoved(h.handles, k, v);
    assert Holders(h.handles - {k}, v) == {} && Holders(h.boxes, v) == {};
    assert forall b :: b in h.boxes && h.boxes[b].Holds(v) ==> b in Holders(h.boxes, v);
    assert forall j :: j in h.handles && j != k && h.handles[j].Holds(v) ==> j in Holders(h.handles - {k}, v);
  }

  /** The push in place: visible through the one handle that holds the vector, and through no other chunk. */
  lemma PushKeeps<A(!new)>(h: Heap<A>, k: nat, a: A)
    requires Valid(h) && k in h.handles && h.handles[k].Collect? && h.strong[h.handles[k].vec] == 1
    ensures var h' := AfterPush(h, h.handles[k].vec, a);
            Valid(h') && Undisturbed(h, h', {k}) && k in h'.handles && Elements(h', k) == Elements(h, k) + [a]
  {
    var v := h.handles[k].vec;
    var h' := AfterPush(h, v, a);
    SoleHolder(h, k);
    assert forall b :: b in h.boxes ==> NodeOk(h, h.boxes[b]) && NodeOk(h', h.boxes[b]);
    assert BoxesOk(h');
    assert CountsExact(h');
    forall j | j in h.handles && j != k ensures Denote(h', h.handles[j]) == Denote(h, h.handles[j]) {
      DenoteFramed(h, h', h.next, v, h.handles[j]);
    }
  }

  /** Nothing refers to box `b`. */
  predicate Unreferenced<A>(h: Heap<A>, b: nat) {
    && (forall c :: c in h.boxes ==> b !in h.boxes[c].Refs())
    && (forall k :: k in h.handles ==> b !in h.handles[k].Refs())
  }

  lemma FreeKeepsCounts<A(!new)>(h: Heap<A>, b: nat)
    requires CountsExact(h) && b in h.boxes && NodeOk(h, h.boxes[b])
    ensures h.boxes[b].Collect? ==> h.boxes[b].vec in h.strong && h.strong[h.boxes[b].vec] > 0
    ensures CountsExact(AfterFree(h, b))
  {
    if h.boxes[b].Collect? { HoldersRemoved(h.boxes, b, h.boxes[b].vec); }
    var h' := AfterFree(h, b);
    forall v | v in h'.vecs ensures h'.strong[v] == |Holders(h'.handles, v)| + |Holders(h'.boxes, v)| {
      HoldersRemoved(h.boxes, b, v);
    }
  }

  lemma FreeStaysValid<A(!new)>(h: Heap<A>, b: nat)
    requires Valid(h) && b in h.boxes && Unreferenced(h, b)
    ensures h.boxes[b].Collect? ==> h.boxes[b].vec in h.strong && h.strong[h.boxes[b].vec] > 0
    ensures Valid(AfterFree(h, b))
  {
    FreeKeepsCounts(h, b);
    var h' := AfterFree(h, b);
    forall c | c in h'.boxes ensures NodeOk(h', h'.boxes[c]) {
      assert NodeOk(h, h.boxes[c]);
    }
    forall k | k in h'.handles ensures NodeOk(h', h'.handles[k]) {
      assert NodeOk(h, h.handles[k]);
    }
  }

  lemma FreeKeeps<A(!new)>(h: Heap<A>, b: nat)
    requires Valid(h) && b in h.boxes && Unreferenced(h, b)
    ensures h.boxes[b].Collect? ==> h.boxes[b].vec in h.strong && h.strong[h.boxes[b].vec] > 0
    ensures var h' := AfterFree(h, b); Valid(h') && Undisturbed(h, h', {})
  {
    FreeStaysValid(h, b);
    var h' := AfterFree(h, b);
    assert h.next !in h.vecs;
    assert Frames(h, h', b, h.next);
    forall k | k in h.handles ensures Denote(h', h.handles[k]) == Denote(h, h.handles[k]) {
      DenoteFramed(h, h', b, h.next, h.handles[k]);
    }
  }

  /** A vector that nothing refers to any more is freed. */
  function AfterFreeVec<A>(h: Heap<A>, v: nat): Heap<A> {
    h.(vecs := h.vecs - {v}, strong := h.strong - {v})
  }

  lemma UnheldVector<A(!new)>(h: Heap<A>, v: nat)
    requires Valid(h) && v in h.vecs && h.strong[v] == 0
    ensures forall b :: b in h.boxes ==> !h.boxes[b].Holds(v)
    ensures forall k :: k in h.handles ==> !h.handles[k].Holds(v)
  {
    assert Holders(h.handles, v) == {} && Holders(h.boxes, v) == {};
    assert forall b :: b in h.boxes && h.boxes[b].Holds(v) ==> b in Holders(h.boxes, v);
    assert forall k :: k in h.handles && h.handles[k].Holds(v) ==> k in Holders(h.handles, v);
  }

  lemma FreeVecStaysValid<A(!new)>(h: Heap<A>, v: nat)
    requires Valid(h) && v in h.vecs && h.strong[v] == 0
    ensures Valid(AfterFreeVec(h, v))
  {
    UnheldVector(h, v);
    var h' := AfterFreeVec(h, v);
    forall b | b in h'.boxes ensures NodeOk(h', h'.boxes[b]) {
      assert NodeOk(h, h.boxes[b]) && !h.boxes[b].Holds(v);
    }
    forall k | k in h'.handles ensures NodeOk(h', h'.handles[k]) {
      assert NodeOk(h, h.handles[k]) && !h.handles[k].Holds(v);
    }
  }

  lemma FreeVecKeeps<A(!new)>(h: Heap<A>, v: nat)
    requires Valid(h) && v in h.vecs && h.strong[v] == 0
    ensures Valid(AfterFreeVec(h, v)) && Undisturbed(h, AfterFreeVec(h, v), {})
  {
    FreeVecStaysValid(h, v);
    UnheldVector(h, v);
    var h' := AfterFreeVec(h, v);
    assert forall b :: b in h.boxes ==> h.next !in h.boxes[b].Refs();
    assert Frames(h, h', h.next, v);
    forall k | k in h.handles ensures Denote(h', h.handles[k]) == Denote(h, h.handles[k]) {
      DenoteFramed(h, h', h.next, v, h.handles[k]);
    }
  }
}
