/**
  Batching and caching are invisible: when the loader and everything fed into the cache agree with one
  partial function, so does every successful answer, whatever was batched, cached, evicted or switched.
*/
module DataLoaderTransparency {
  import opened Options
  import opened DataLoader
  import opened DataLoaderProtocol

  /** What a request for `keys` must be answered with. */
  function Restrict<K, V>(f: K -> Option<V>, keys: set<K>): map<K, V> {
    map k | k in keys && f(k).Some? :: f(k).value
  }

  ghost predicate Agrees<K, V>(f: K -> Option<V>, values: map<K, V>) {
    forall k :: k in values ==> f(k) == Some(values[k])
  }

  /** The loader may return more than it was asked for, but nothing wrong and nothing less. */
  ghost predicate Honest<K, V, E>(f: K -> Option<V>, s: System<K, V, E>, e: Event<K, V, E>)
    requires Enabled(s, e)
  {
    match e
    case LoadOk(n, values) =>
      Agrees(f, values) && forall k :: k in s.flights[n].batch.keys && f(k).Some? ==> k in values
    case Feed(pairs) => forall i :: 0 <= i < |pairs| ==> f(pairs[i].0) == Some(pairs[i].1)
    case _ => true
  }

  ghost predicate HonestRun<K, V, E>(f: K -> Option<V>, s: System<K, V, E>, es: seq<Event<K, V, E>>)
    decreases |es|
  {
    es != [] ==> Enabled(s, es[0]) && Honest(f, s, es[0]) && HonestRun(f, Next(s, es[0]), es[1..])
  }

  ghost predicate WaiterTrue<K, V>(f: K -> Option<V>, asked: seq<set<K>>, w: Waiter<K, V>) {
    w.id < |asked| && asked[w.id] == w.keys + w.cached.Keys && Agrees(f, w.cached)
  }

  ghost predicate AllTrue<K, V>(f: K -> Option<V>, asked: seq<set<K>>, waiters: seq<Waiter<K, V>>) {
    forall i :: 0 <= i < |waiters| ==> WaiterTrue(f, asked, waiters[i])
  }

  ghost predicate AnswerTrue<K, V, E>(f: K -> Option<V>, asked: seq<set<K>>, id: nat, r: Response<K, V, E>) {
    id < |asked| && (r.Ok? ==> r.values == Restrict(f, asked[id]))
  }

  ghost predicate Transparent<K, V, E>(f: K -> Option<V>, s: System<K, V, E>) {
    && Agrees(f, s.req.cache)
    && AllTrue(f, s.asked, s.req.pending)
    && (forall n :: 0 <= n < |s.flights| ==> AllTrue(f, s.asked, s.flights[n].batch.waiters))
    && (forall id :: id in s.answers ==> AnswerTrue(f, s.asked, id, s.answers[id]))
  }

  lemma {:induction false} PairsAgree<K, V>(f: K -> Option<V>, pairs: seq<(K, V)>)
    requires forall i :: 0 <= i < |pairs| ==> f(pairs[i].0) == Some(pairs[i].1)
    ensures Agrees(f, PairsToMap(pairs))
  {
    if pairs != [] {
      PairsAgree(f, pairs[..|pairs| - 1]);
    }
  }

  /** Cached values and loaded values together make up the requested restriction. */
  lemma LoadedIsRestriction<K, V, E>(f: K -> Option<V>, asked: seq<set<K>>, w: Waiter<K, V>, values: map<K, V>)
    requires WaiterTrue(f, asked, w) && Agrees(f, values)
    requires forall k :: k in w.keys && f(k).Some? ==> k in values
    ensures AnswerTrue(f, asked, w.id, Loaded<K, V, E>(w, values))
  {
    var r: Response<K, V, E> := Loaded(w, values);
    var expected := Restrict(f, asked[w.id]);
    forall k ensures k in r.values <==> k in expected {
      if k in expected && k !in w.cached { assert k in w.keys; }
    }
    forall k | k in expected ensures r.values[k] == expected[k] {
    }
    assert r.values == expected;
  }

  lemma {:induction false} KeysOfHas<K, V>(waiters: seq<Waiter<K, V>>, i: nat)
    requires i < |waiters|
    ensures waiters[i].keys <= KeysOf(waiters)
  {
    if i < |waiters| - 1 {
      KeysOfHas(waiters[..|waiters| - 1], i);
    }
  }

  lemma {:induction false} AnswerAllSource<K, V, E>(answers: map<nat, Response<K, V, E>>, waiters: seq<Waiter<K, V>>,
                                                    values: Option<map<K, V>>, error: Option<E>, id: nat)
    requires values.Some? || error.Some?
    requires id in AnswerAll(answers, waiters, values, error)
    ensures var r := AnswerAll(answers, waiters, values, error)[id];
            || (id in answers && r == answers[id])
            || exists i :: 0 <= i < |waiters| && waiters[i].id == id && r == AnswerTo(waiters[i], values, error)
  {
    var n := |waiters| - 1;
    if waiters != [] && waiters[n].id != id {
      AnswerAllSource(answers, waiters[..n], values, error, id);
      assert forall i :: 0 <= i < n ==> waiters[..n][i] == waiters[i];
    }
  }

  lemma LoadedAnswersTrue<K, V, E>(f: K -> Option<V>, asked: seq<set<K>>, answers: map<nat, Response<K, V, E>>,
                                   b: Batch<K, V>, values: map<K, V>, id: nat)
    requires b.keys == KeysOf(b.waiters) && AllTrue(f, asked, b.waiters)
    requires Agrees(f, values) && forall k :: k in b.keys && f(k).Some? ==> k in values
    requires id in answers ==> AnswerTrue(f, asked, id, answers[id])
    requires id in AnswerAll(answers, b.waiters, Some(values), None)
    ensures AnswerTrue(f, asked, id, AnswerAll(answers, b.waiters, Some(values), None)[id])
  {
    AnswerAllSource(answers, b.waiters, Some(values), None, id);
    var r := AnswerAll(answers, b.waiters, Some(values), None)[id];
    if !(id in answers && r == answers[id]) {
      var i :| 0 <= i < |b.waiters| && b.waiters[i].id == id && r == AnswerTo(b.waiters[i], Some(values), None);
      KeysOfHas(b.waiters, i);
      LoadedIsRestriction<K, V, E>(f, asked, b.waiters[i], values);
    }
  }

  lemma FailedAnswersTrue<K, V, E>(f: K -> Option<V>, asked: seq<set<K>>, answers: map<nat, Response<K, V, E>>,
                                   b: Batch<K, V>, error: E, id: nat)
    requires AllTrue(f, asked, b.waiters)
    requires id in answers ==> AnswerTrue(f, asked, id, answers[id])
    requires id in AnswerAll(answers, b.waiters, None, Some(error))
    ensures AnswerTrue(f, asked, id, AnswerAll(answers, b.waiters, None, Some(error))[id])
  {
    AnswerAllSource(answers, b.waiters, None, Some(error), id);
  }

  lemma OthersStayTrue<K, V>(f: K -> Option<V>, asked: seq<set<K>>, flights: seq<Flight<K, V>>, n: nat)
    requires n < |flights| && forall i :: 0 <= i < |flights| ==> AllTrue(f, asked, flights[i].batch.waiters)
    ensures forall i :: 0 <= i < |flights| - 1 ==> AllTrue(f, asked, Without(flights, n)[i].batch.waiters)
  {
    forall i | 0 <= i < |flights| - 1 ensures AllTrue(f, asked, Without(flights, n)[i].batch.waiters) {
      assert Without(flights, n)[i] == flights[if i < n then i else i + 1];
    }
  }

  lemma LoadOkKeepsTransparent<K, V, E>(f: K -> Option<V>, s: System<K, V, E>, n: nat, values: map<K, V>)
    requires Shaped(s) && Transparent(f, s) && n < |s.flights| && Honest(f, s, LoadOk(n, values))
    ensures Transparent(f, Next(s, LoadOk(n, values)))
  {
    OthersStayTrue(f, s.asked, s.flights, n);
    var b := s.flights[n].batch;
    var answers := AnswerAll(s.answers, b.waiters, Some(values), None);
    forall id | id in answers ensures AnswerTrue(f, s.asked, id, answers[id]) {
      LoadedAnswersTrue(f, s.asked, s.answers, b, values, id);
    }
  }

  lemma LoadErrKeepsTransparent<K, V, E>(f: K -> Option<V>, s: System<K, V, E>, n: nat, error: E)
    requires Transparent(f, s) && n < |s.flights|
    ensures Transparent(f, Next(s, LoadErr(n, error)))
  {
    OthersStayTrue(f, s.asked, s.flights, n);
    var b := s.flights[n].batch;
    var answers := AnswerAll(s.answers, b.waiters, None, Some(error));
    forall id | id in answers ensures AnswerTrue(f, s.asked, id, answers[id]) {
      FailedAnswersTrue(f, s.asked, s.answers, b, error, id);
    }
  }

  lemma AskingMore<K, V>(f: K -> Option<V>, asked: seq<set<K>>, more: set<K>, waiters: seq<Waiter<K, V>>)
    requires AllTrue(f, asked, waiters)
    ensures AllTrue(f, asked + [more], waiters)
  {
    forall i | 0 <= i < |waiters| ensures WaiterTrue(f, asked + [more], waiters[i]) {
      assert WaiterTrue(f, asked, waiters[i]);
    }
  }

  lemma QueueTransparent<K, V, E>(f: K -> Option<V>, s: System<K, V, E>, keys: seq<K>)
    requires Transparent(f, s)
    ensures AllTrue(f, Asking(s, keys).asked, QueuedBy(s, keys).pending)
    ensures forall n :: 0 <= n < |s.flights| ==> AllTrue(f, Asking(s, keys).asked, s.flights[n].batch.waiters)
    ensures forall id :: id in s.answers ==> AnswerTrue(f, Asking(s, keys).asked, id, s.answers[id])
    ensures Uncached(s.req, keys, Bypass(s)) == {} ==>
              AnswerTrue<K, V, E>(f, Asking(s, keys).asked, |s.asked|, Ok(FromCache(s.req, keys, Bypass(s))))
  {
    var asked := Asking(s, keys).asked;
    AskingMore(f, s.asked, asked[|s.asked|], s.req.pending);
    forall n | 0 <= n < |s.flights| ensures AllTrue(f, asked, s.flights[n].batch.waiters) {
      AskingMore(f, s.asked, asked[|s.asked|], s.flights[n].batch.waiters);
    }
    var w := Waiter(Uncached(s.req, keys, Bypass(s)), FromCache(s.req, keys, Bypass(s)), |s.asked|);
    assert WaiterTrue(f, asked, w);
    if w.keys == {} {
      LoadedIsRestriction<K, V, E>(f, asked, w, map[]);
      assert w.cached + map[] == w.cached;
    }
  }

  lemma CallKeepsTransparent<K, V, E>(f: K -> Option<V>, s: System<K, V, E>, keys: seq<K>, switchSeen: bool)
    requires Transparent(f, s)
    ensures Transparent(f, Next(s, Call(keys, switchSeen)))
  {
    CallCases(s, keys, switchSeen);
    QueueTransparent(f, s, keys);
  }

  lemma NextKeepsTransparent<K, V, E>(f: K -> Option<V>, s: System<K, V, E>, e: Event<K, V, E>)
    requires Valid(s) && Transparent(f, s) && Enabled(s, e) && Honest(f, s, e)
    ensures Transparent(f, Next(s, e))
  {
    match e
    case Call(keys, switchSeen) => CallKeepsTransparent(f, s, keys, switchSeen);
    case LoadOk(n, values) => LoadOkKeepsTransparent(f, s, n, values);
    case LoadErr(n, error) => LoadErrKeepsTransparent(f, s, n, error);
    case Feed(pairs) => PairsAgree(f, pairs);
    case _ =>
  }

  lemma {:induction false} RunKeepsTransparent<K, V, E>(f: K -> Option<V>, s: System<K, V, E>, es: seq<Event<K, V, E>>)
    requires Valid(s) && Transparent(f, s) && HonestRun(f, s, es)
    ensures IsRun(s, es) && Transparent(f, After(s, es))
    decreases |es|
  {
    if es != [] {
      NextKeepsValid(s, es[0]);
      NextKeepsTransparent(f, s, es[0]);
      RunKeepsTransparent(f, Next(s, es[0]), es[1..]);
    }
  }

  /** The main result: every successful answer is the loader's function on exactly the requested keys. */
  lemma AnswersAreTransparent<K, V, E>(f: K -> Option<V>, maxBatch: nat, es: seq<Event<K, V, E>>, id: nat)
    requires HonestRun(f, Initial(maxBatch), es)
    ensures IsRun(Initial(maxBatch), es)
    ensures var s: System<K, V, E> := Reached(maxBatch, es);
            id in s.answers ==> AnswerTrue(f, s.asked, id, s.answers[id])
  {
    var s: System<K, V, E> := Initial(maxBatch);
    assert forall id: nat :: Places(s, id) == 0;
    RunKeepsTransparent(f, s, es);
  }
}
