/**
  All interleavings of callers, fetch timers, loads and cache operations around one data loader:
  no request is lost or answered twice, batches stay small, and caching is invisible.
*/
module DataLoaderProtocol {
  import opened Options
  import opened DataLoader
  import opened Cardinality

  /** A batch on its way to the loader, with the loader-wide cache switch as its task read it. */
  datatype Flight<K, +V> = Flight(batch: Batch<K, V>, disable: bool)

  /** `timers` are the delayed fetches still to come; `asked[id]` is what request `id` asked for. */
  datatype System<K, +V, +E> = System(
    req: State<K, V>, disableAll: bool, maxBatch: nat,
    timers: seq<bool>, flights: seq<Flight<K, V>>,
    asked: seq<set<K>>, answers: map<nat, Response<K, V, E>>)

  datatype Event<K, V, E> =
    | Call(keys: seq<K>, switchSeen: bool)
    | Fire(timer: nat)
    | LoadOk(n: nat, values: map<K, V>)
    | LoadErr(n: nat, error: E)
    | Feed(pairs: seq<(K, V)>)
    | Evict(victims: set<K>)
    | Clear
    | EnableCache(enable: bool)
    | EnableAllCache(enable: bool)

  function Initial<K, V, E>(maxBatch: nat): System<K, V, E> {
    System(State({}, [], map[], false), false, maxBatch, [], [], [], map[])
  }

  predicate Enabled<K, V, E>(s: System<K, V, E>, e: Event<K, V, E>) {
    match e
    case Fire(t) => t < |s.timers|
    case LoadOk(n, _) => n < |s.flights|
    case LoadErr(n, _) => n < |s.flights|
    case _ => true
  }

  function Without<T>(xs: seq<T>, i: nat): seq<T>
    requires i < |xs|
  {
    xs[..i] + xs[i + 1..]
  }

  function AnswerTo<K, V, E>(w: Waiter<K, V>, values: Option<map<K, V>>, error: Option<E>): Response<K, V, E>
    requires values.Some? || error.Some?
  {
    if values.Some? then Loaded(w, values.value) else Err(error.value)
  }

  /** Sends one answer to every waiter, in order. */
  function AnswerAll<K, V, E>(answers: map<nat, Response<K, V, E>>, waiters: seq<Waiter<K, V>>,
                              values: Option<map<K, V>>, error: Option<E>): map<nat, Response<K, V, E>>
    requires values.Some? || error.Some?
  {
    if waiters == [] then answers
    else
      var w := waiters[|waiters| - 1];
      AnswerAll(answers, waiters[..|waiters| - 1], values, error)
        [w.id := AnswerTo(w, values, error)]
  }

  function Next<K, V, E>(s: System<K, V, E>, e: Event<K, V, E>): System<K, V, E>
    requires Enabled(s, e)
  {
    match e
    case Call(keys, switchSeen) =>
      var id, bypass := |s.asked|, s.req.disableCache || s.disableAll;
      var s' := s.(req := AfterCall(s.req, keys, id, s.maxBatch, bypass), asked := s.asked + [set k | k in keys]);
      (match CallAction(s.req, keys, id, s.maxBatch, bypass)
       case Answered(values) => s'.(answers := s.answers[id := Ok(values)])
       case ImmediateLoad(batch) => s'.(flights := s.flights + [Flight(batch, switchSeen)])
       case StartFetch => s'.(timers := s.timers + [switchSeen])
       case Delay => s')
    case Fire(t) =>
      var s' := s.(req := Taken(s.req), timers := Without(s.timers, t));
      if s.req.keys == {} then s'
      else s'.(flights := s.flights + [Flight(Batch(s.req.keys, s.req.pending), s.timers[t])])
    case LoadOk(n, values) =>
      var f := s.flights[n];
      s.(req := AfterLoad(s.req, f.disable, values), flights := Without(s.flights, n),
         answers := AnswerAll(s.answers, f.batch.waiters, Some(values), None))
    case LoadErr(n, error) =>
      s.(flights := Without(s.flights, n),
         answers := AnswerAll(s.answers, s.flights[n].batch.waiters, None, Some(error)))
    case Feed(pairs) => s.(req := s.req.(cache := s.req.cache + PairsToMap(pairs)))
    case Evict(keys) => s.(req := s.req.(cache := s.req.cache - keys))
    case Clear => s.(req := s.req.(cache := map[]))
    case EnableCache(enable) => s.(req := s.req.(disableCache := !enable))
    case EnableAllCache(enable) => s.(disableAll := !enable)
  }

  /** A call, over the requested keys, the cache and the two switches. */
  lemma CallMeaning<K, V, E>(s: System<K, V, E>, keys: seq<K>, switchSeen: bool)
    ensures var s', off, id := Next(s, Call(keys, switchSeen)), s.req.disableCache || s.disableAll, |s.asked|;
            var wanted := set k | k in keys && (off || k !in s.req.cache);
            var cached := map k | k in keys && !off && k in s.req.cache :: s.req.cache[k];
            var queue, all := s.req.pending + [Waiter(wanted, cached, id)], s.req.keys + wanted;
            && s'.asked == s.asked + [set k | k in keys]
            && s'.req.cache == s.req.cache && s'.req.disableCache == s.req.disableCache
            && s'.disableAll == s.disableAll
            && if wanted == {} then
                 && s'.req == s.req && s'.timers == s.timers && s'.flights == s.flights
                 && s'.answers == s.answers[id := Ok(map k | k in keys && k in s.req.cache :: s.req.cache[k])]
               else if |all| >= s.maxBatch then
                 && s'.req.keys == {} && s'.req.pending == [] && s'.timers == s.timers && s'.answers == s.answers
                 && s'.flights == s.flights + [Flight(Batch(all, queue), switchSeen)]
               else
                 && s'.req.keys == all && s'.req.pending == queue && s'.flights == s.flights && s'.answers == s.answers
                 && s'.timers == if s.req.keys == {} then s.timers + [switchSeen] else s.timers
  {
    DataLoader.CallExactly(s.req, keys, |s.asked|, s.maxBatch, s.req.disableCache || s.disableAll);
    hide CallAction, AfterCall;
  }

  /** A timer takes what is queued, and loads it if that is anything. */
  lemma FireMeaning<K, V, E>(s: System<K, V, E>, t: nat)
    requires t < |s.timers|
    ensures var s' := Next(s, Fire(t));
            && s'.req.keys == {} && s'.req.pending == [] && s'.req.cache == s.req.cache && s'.answers == s.answers
            && s'.timers == s.timers[..t] + s.timers[t + 1..]
            && s'.flights == s.flights + if s.req.keys == {} then []
                                         else [Flight(Batch(s.req.keys, s.req.pending), s.timers[t])]
  {
  }

  /** A load that succeeds fills the cache with all it returned, unless one of the switches was off. */
  lemma LoadMeaning<K, V, E>(s: System<K, V, E>, n: nat, values: map<K, V>, error: E)
    requires n < |s.flights|
    ensures var s' := Next(s, LoadOk(n, values));
            && s'.req.keys == s.req.keys && s'.req.pending == s.req.pending
            && s'.req.cache == if s.req.disableCache || s.flights[n].disable then s.req.cache
                               else s.req.cache + values
    ensures Next(s, LoadErr(n, error)).req == s.req
  {
  }

  predicate IsRun<K, V, E>(s: System<K, V, E>, es: seq<Event<K, V, E>>)
    decreases |es|
  {
    es != [] ==> Enabled(s, es[0]) && IsRun(Next(s, es[0]), es[1..])
  }

  function After<K, V, E>(s: System<K, V, E>, es: seq<Event<K, V, E>>): System<K, V, E>
    requires IsRun(s, es)
    decreases |es|
  {
    if es == [] then s else After(Next(s, es[0]), es[1..])
  }

  function Reached<K, V, E>(maxBatch: nat, es: seq<Event<K, V, E>>): System<K, V, E>
    requires IsRun(Initial(maxBatch), es)
  {
    After(Initial(maxBatch), es)
  }

  // ---------------------------------------------------------------------------------------------
  // Conservation of requests

  function CountQueued<K, V>(waiters: seq<Waiter<K, V>>, id: nat): nat {
    if waiters == [] then 0
    else CountQueued(waiters[..|waiters| - 1], id) + if waiters[|waiters| - 1].id == id then 1 else 0
  }

  function CountInFlight<K, V>(flights: seq<Flight<K, V>>, id: nat): nat {
    if flights == [] then 0
    else CountInFlight(flights[..|flights| - 1], id) + CountQueued(flights[|flights| - 1].batch.waiters, id)
  }

  /** In how many places request `id` is: queued, in flight, or answered, with multiplicity. */
  function Places<K, V, E>(s: System<K, V, E>, id: nat): nat {
    CountQueued(s.req.pending, id) + CountInFlight(s.flights, id) + if id in s.answers then 1 else 0
  }

  /** Every request ever made is in exactly one place. */
  ghost predicate Conserved<K, V, E>(s: System<K, V, E>) {
    forall id: nat :: Places(s, id) == if id < |s.asked| then 1 else 0
  }

  function KeysOf<K, V>(waiters: seq<Waiter<K, V>>): set<K> {
    if waiters == [] then {} else KeysOf(waiters[..|waiters| - 1]) + waiters[|waiters| - 1].keys
  }

  /** A batch asks for exactly the keys of its waiters, at least one key each, and is not too large. */
  ghost predicate BatchValid<K, V>(b: Batch<K, V>, maxBatch: nat) {
    && b.keys == KeysOf(b.waiters)
    && b.waiters != []
    && (forall i :: 0 <= i < |b.waiters| ==> b.waiters[i].keys != {})
    && (if maxBatch == 0 then |b.waiters| == 1
        else |b.keys| < maxBatch + |b.waiters[|b.waiters| - 1].keys|)
  }

  /** Batches and the queue keep their shape. */
  ghost predicate Shaped<K, V, E>(s: System<K, V, E>) {
    && s.req.keys == KeysOf(s.req.pending)
    && (forall i :: 0 <= i < |s.req.pending| ==> s.req.pending[i].keys != {})
    && (s.req.pending != [] ==> s.timers != [] && |s.req.keys| < s.maxBatch)
    && forall n :: 0 <= n < |s.flights| ==> BatchValid(s.flights[n].batch, s.maxBatch)
  }

  ghost predicate Valid<K, V, E>(s: System<K, V, E>) {
    Conserved(s) && Shaped(s)
  }

  lemma {:induction false} CountWithout<K, V>(flights: seq<Flight<K, V>>, n: nat, id: nat)
    requires n < |flights|
    ensures CountInFlight(flights, id) ==
            CountInFlight(Without(flights, n), id) + CountQueued(flights[n].batch.waiters, id)
  {
    var last := |flights| - 1;
    if n == last {
      assert Without(flights, n) == flights[..last];
    } else {
      CountWithout(flights[..last], n, id);
      assert Without(flights, n)[..last - 1] == Without(flights[..last], n);
      assert Without(flights, n)[last - 1] == flights[last];
    }
  }

  lemma {:induction false} KeysOfNonEmpty<K, V>(waiters: seq<Waiter<K, V>>)
    requires waiters != [] && waiters[0].keys != {}
    ensures KeysOf(waiters) != {}
  {
    if |waiters| > 1 {
      KeysOfNonEmpty(waiters[..|waiters| - 1]);
    }
  }

  lemma UnionSize<T>(a: set<T>, b: set<T>)
    ensures |a + b| <= |a| + |b|
  {
    assert a + b == a + (b - a);
    SubsetSize(b - a, b);
  }

  /** Sending the responses one by one is answering them all: the protocol step is what the loop does. */
  function SendAll<K, V, E>(answers: map<nat, Response<K, V, E>>,
                            responses: seq<(nat, Response<K, V, E>)>): map<nat, Response<K, V, E>> {
    if responses == [] then answers
    else
      var last := responses[|responses| - 1];
      SendAll(answers, responses[..|responses| - 1])[last.0 := last.1]
  }

  lemma {:induction false} SendAllAnswersAll<K, V, E>(answers: map<nat, Response<K, V, E>>, waiters: seq<Waiter<K, V>>,
                                                      responses: seq<(nat, Response<K, V, E>)>,
                                                      values: Option<map<K, V>>, error: Option<E>)
    requires (values.Some? || error.Some?) && |responses| == |waiters|
    requires forall i :: 0 <= i < |waiters| ==> responses[i] == (waiters[i].id, AnswerTo(waiters[i], values, error))
    ensures SendAll(answers, responses) == AnswerAll(answers, waiters, values, error)
  {
    if waiters != [] {
      var n := |waiters| - 1;
      SendAllAnswersAll(answers, waiters[..n], responses[..n], values, error);
    }
  }

  /** Answering a batch answers its waiters, and no one else. */
  lemma {:induction false} AnswerAllKeys<K, V, E>(answers: map<nat, Response<K, V, E>>, waiters: seq<Waiter<K, V>>,
                                                  values: Option<map<K, V>>, error: Option<E>, id: nat)
    requires values.Some? || error.Some?
    ensures id in AnswerAll(answers, waiters, values, error) <==> id in answers || CountQueued(waiters, id) > 0
  {
    if waiters != [] {
      AnswerAllKeys(answers, waiters[..|waiters| - 1], values, error, id);
    }
  }

  lemma QueuedCounts<K, V>(r: State<K, V>, keys: seq<K>, n: nat, bypass: bool, id: nat)
    ensures var q := Queued(r, keys, n, bypass);
            && KeysOf(q.pending) == KeysOf(r.pending) + Uncached(r, keys, bypass)
            && |q.keys| <= |r.keys| + |Uncached(r, keys, bypass)|
            && CountQueued(q.pending, id) == CountQueued(r.pending, id) + if n == id then 1 else 0
  {
    var q := Queued(r, keys, n, bypass);
    assert q.pending[..|r.pending|] == r.pending;
    UnionSize(r.keys, Uncached(r, keys, bypass));
  }

  lemma OneMoreFlight<K, V>(flights: seq<Flight<K, V>>, f: Flight<K, V>, id: nat)
    ensures CountInFlight(flights + [f], id) == CountInFlight(flights, id) + CountQueued(f.batch.waiters, id)
  {
    assert (flights + [f])[..|flights|] == flights;
  }

  /** Whether a call goes past the cache. */
  function Bypass<K, V, E>(s: System<K, V, E>): bool {
    s.req.disableCache || s.disableAll
  }

  function Asking<K, V, E>(s: System<K, V, E>, keys: seq<K>): System<K, V, E> {
    s.(asked := s.asked + [set k | k in keys])
  }

  function QueuedBy<K, V, E>(s: System<K, V, E>, keys: seq<K>): State<K, V> {
    Queued(s.req, keys, |s.asked|, Bypass(s))
  }

  function FlightBy<K, V, E>(s: System<K, V, E>, keys: seq<K>, switchSeen: bool): Flight<K, V> {
    Flight(Batch(QueuedBy(s, keys).keys, QueuedBy(s, keys).pending), switchSeen)
  }

  /** A call has one of four outcomes. */
  lemma CallCases<K, V, E>(s: System<K, V, E>, keys: seq<K>, switchSeen: bool)
    ensures var s', q := Next(s, Call(keys, switchSeen)), QueuedBy(s, keys);
            if Uncached(s.req, keys, Bypass(s)) == {} then
              s' == Asking(s, keys).(answers := s.answers[|s.asked| := Ok(FromCache(s.req, keys, Bypass(s)))])
            else if |q.keys| >= s.maxBatch then
              s' == Asking(s, keys).(req := Taken(q), flights := s.flights + [FlightBy(s, keys, switchSeen)])
            else if s.req.keys == {} then
              s' == Asking(s, keys).(req := q, timers := s.timers + [switchSeen])
            else s' == Asking(s, keys).(req := q)
  {
  }

  lemma AnsweredCallConserves<K, V, E>(s: System<K, V, E>, keys: seq<K>, r: Response<K, V, E>, id: nat)
    requires Conserved(s)
    ensures Places(Asking(s, keys).(answers := s.answers[|s.asked| := r]), id) == if id < |s.asked| + 1 then 1 else 0
  {
    assert Places(s, id) == if id < |s.asked| then 1 else 0;
    assert Places(s, |s.asked|) == 0;
  }

  lemma ImmediateCallConserves<K, V, E>(s: System<K, V, E>, keys: seq<K>, switchSeen: bool, id: nat)
    requires Conserved(s)
    ensures Places(Asking(s, keys).(req := Taken(QueuedBy(s, keys)),
                                    flights := s.flights + [FlightBy(s, keys, switchSeen)]), id) ==
            if id < |s.asked| + 1 then 1 else 0
  {
    assert Places(s, id) == if id < |s.asked| then 1 else 0;
    QueuedCounts(s.req, keys, |s.asked|, Bypass(s), id);
    OneMoreFlight(s.flights, FlightBy(s, keys, switchSeen), id);
  }

  lemma DelayedCallConserves<K, V, E>(s: System<K, V, E>, keys: seq<K>, timers: seq<bool>, id: nat)
    requires Conserved(s)
    ensures Places(Asking(s, keys).(req := QueuedBy(s, keys), timers := timers), id) ==
            if id < |s.asked| + 1 then 1 else 0
  {
    assert Places(s, id) == if id < |s.asked| then 1 else 0;
    QueuedCounts(s.req, keys, |s.asked|, Bypass(s), id);
  }

  lemma CallConserves<K, V, E>(s: System<K, V, E>, keys: seq<K>, switchSeen: bool, id: nat)
    requires Conserved(s)
    ensures |Next(s, Call(keys, switchSeen)).asked| == |s.asked| + 1
    ensures Places(Next(s, Call(keys, switchSeen)), id) == if id < |s.asked| + 1 then 1 else 0
  {
    CallCases(s, keys, switchSeen);
    AnsweredCallConserves(s, keys, Ok(FromCache(s.req, keys, Bypass(s))), id);
    ImmediateCallConserves(s, keys, switchSeen, id);
    DelayedCallConserves(s, keys, s.timers, id);
    DelayedCallConserves(s, keys, s.timers + [switchSeen], id);
  }

  lemma FireConserves<K, V, E>(s: System<K, V, E>, t: nat, id: nat)
    requires Valid(s) && t < |s.timers|
    ensures Places(Next(s, Fire(t)), id) == Places(s, id) && Next(s, Fire(t)).asked == s.asked
  {
    if s.req.pending != [] {
      KeysOfNonEmpty(s.req.pending);
      OneMoreFlight(s.flights, Flight(Batch(s.req.keys, s.req.pending), s.timers[t]), id);
    }
  }

  lemma LoadConserves<K, V, E>(s: System<K, V, E>, e: Event<K, V, E>, id: nat)
    requires Conserved(s) && Enabled(s, e) && (e.LoadOk? || e.LoadErr?)
    ensures Places(Next(s, e), id) == Places(s, id) && Next(s, e).asked == s.asked
  {
    var waiters := s.flights[e.n].batch.waiters;
    assert Places(s, id) <= 1;
    CountWithout(s.flights, e.n, id);
    if e.LoadOk? {
      AnswerAllKeys(s.answers, waiters, Some(e.values), None, id);
    } else {
      AnswerAllKeys(s.answers, waiters, None, Some(e.error), id);
    }
  }

  /** Feeding, evicting, clearing and switching the cache moves no request. */
  lemma CacheEventPlaces<K, V, E>(s: System<K, V, E>, e: Event<K, V, E>, id: nat)
    requires e.Feed? || e.Evict? || e.Clear? || e.EnableCache? || e.EnableAllCache?
    ensures Places(Next(s, e), id) == Places(s, id) && Next(s, e).asked == s.asked
  {
  }

  lemma NextPlaces<K, V, E>(s: System<K, V, E>, e: Event<K, V, E>, id: nat)
    requires Valid(s) && Enabled(s, e)
    ensures Places(Next(s, e), id) == if id < |Next(s, e).asked| then 1 else 0
  {
    assert Places(s, id) == if id < |s.asked| then 1 else 0;
    match e
    case Call(keys, switchSeen) => CallConserves(s, keys, switchSeen, id);
    case Fire(t) => FireConserves(s, t, id);
    case LoadOk(_, _) => LoadConserves(s, e, id);
    case LoadErr(_, _) => LoadConserves(s, e, id);
    case _ => CacheEventPlaces(s, e, id);
  }

  /** No step loses a request, and none answers a request a second time. */
  lemma NextConserves<K, V, E>(s: System<K, V, E>, e: Event<K, V, E>)
    requires Valid(s) && Enabled(s, e)
    ensures Conserved(Next(s, e))
  {
    forall id: nat ensures Places(Next(s, e), id) == if id < |Next(s, e).asked| then 1 else 0 {
      NextPlaces(s, e, id);
    }
  }

  lemma QueueShape<K, V, E>(s: System<K, V, E>, keys: seq<K>, switchSeen: bool)
    requires Shaped(s) && Uncached(s.req, keys, Bypass(s)) != {}
    ensures var q := QueuedBy(s, keys);
            && q.keys == KeysOf(q.pending)
            && (forall i :: 0 <= i < |q.pending| ==> q.pending[i].keys != {})
            && BatchValid(FlightBy(s, keys, switchSeen).batch, s.maxBatch)
            && (s.req.keys == {} <==> s.req.pending == [])
  {
    QueuedCounts(s.req, keys, |s.asked|, Bypass(s), 0);
    if s.req.pending != [] { KeysOfNonEmpty(s.req.pending); }
  }

  lemma DispatchKeepsShape<K, V, E>(s: System<K, V, E>, q: State<K, V>, f: Flight<K, V>)
    requires Shaped(s) && BatchValid(f.batch, s.maxBatch)
    ensures Shaped(s.(req := Taken(q), flights := s.flights + [f]))
  {
    hide BatchValid;
  }

  lemma CallKeepsShape<K, V, E>(s: System<K, V, E>, keys: seq<K>, switchSeen: bool)
    requires Shaped(s)
    ensures Shaped(Next(s, Call(keys, switchSeen)))
  {
    CallCases(s, keys, switchSeen);
    hide Next, BatchValid, QueuedBy, FlightBy, Uncached;
    if Uncached(s.req, keys, Bypass(s)) != {} {
      QueueShape(s, keys, switchSeen);
      DispatchKeepsShape(Asking(s, keys), QueuedBy(s, keys), FlightBy(s, keys, switchSeen));
    }
  }

  lemma NextKeepsShape<K, V, E>(s: System<K, V, E>, e: Event<K, V, E>)
    requires Shaped(s) && Enabled(s, e)
    ensures Shaped(Next(s, e))
  {
    match e
    case Call(keys, switchSeen) => CallKeepsShape(s, keys, switchSeen);
    case Fire(_) => if s.req.pending != [] { KeysOfNonEmpty(s.req.pending); }
    case _ =>
  }

  lemma NextKeepsValid<K, V, E>(s: System<K, V, E>, e: Event<K, V, E>)
    requires Valid(s) && Enabled(s, e)
    ensures Valid(Next(s, e))
  {
    NextConserves(s, e);
    NextKeepsShape(s, e);
  }

  lemma {:induction false} RunKeepsValid<K, V, E>(s: System<K, V, E>, es: seq<Event<K, V, E>>)
    requires Valid(s) && IsRun(s, es)
    ensures Valid(After(s, es)) && After(s, es).maxBatch == s.maxBatch
    decreases |es|
  {
    if es != [] {
      NextKeepsValid(s, es[0]);
      RunKeepsValid(Next(s, es[0]), es[1..]);
    }
  }

  lemma ReachedValid<K, V, E>(maxBatch: nat, es: seq<Event<K, V, E>>)
    requires IsRun(Initial(maxBatch), es)
    ensures Valid(Reached(maxBatch, es)) && Reached(maxBatch, es).maxBatch == maxBatch
  {
    var s: System<K, V, E> := Initial(maxBatch);
    assert forall id: nat :: Places(s, id) == 0;
    RunKeepsValid(s, es);
  }

  /**
    In every reachable state each request made so far is in exactly one place; a waiting request has a
    delayed fetch ahead of it, and a timer that finds no keys drops no caller.
  */
  lemma RequestsConserved<K, V, E>(maxBatch: nat, es: seq<Event<K, V, E>>, id: nat)
    requires IsRun(Initial(maxBatch), es)
    ensures var s: System<K, V, E> := Reached(maxBatch, es);
            && Places(s, id) == (if id < |s.asked| then 1 else 0)
            && s.req.keys == KeysOf(s.req.pending)
            && (s.req.pending != [] ==> s.timers != [])
            && (s.req.keys == {} <==> s.req.pending == [])
  {
    ReachedValid(maxBatch, es);
    var s: System<K, V, E> := Reached(maxBatch, es);
    if s.req.pending != [] { KeysOfNonEmpty(s.req.pending); }
  }

  /** How large a batch can get: below the threshold, plus what the last caller brought along. */
  lemma BatchesBounded<K, V, E>(maxBatch: nat, es: seq<Event<K, V, E>>, n: nat)
    requires IsRun(Initial(maxBatch), es) && n < |Reached(maxBatch, es).flights|
    ensures var b := Reached(maxBatch, es).flights[n].batch;
            && b.waiters != [] && b.keys == KeysOf(b.waiters)
            && (maxBatch == 0 ==> |b.waiters| == 1)
            && (maxBatch >= 1 ==> |b.keys| < maxBatch + |b.waiters[|b.waiters| - 1].keys|)
  {
    ReachedValid(maxBatch, es);
  }

  lemma {:induction false} AnswerAllKeeps<K, V, E>(answers: map<nat, Response<K, V, E>>, waiters: seq<Waiter<K, V>>,
                                                   values: Option<map<K, V>>, error: Option<E>, id: nat)
    requires (values.Some? || error.Some?) && id in answers && CountQueued(waiters, id) == 0
    ensures id in AnswerAll(answers, waiters, values, error)
    ensures AnswerAll(answers, waiters, values, error)[id] == answers[id]
  {
    if waiters != [] {
      AnswerAllKeeps(answers, waiters[..|waiters| - 1], values, error, id);
    }
  }

  lemma NextKeepsAnswer<K, V, E>(s: System<K, V, E>, e: Event<K, V, E>, id: nat)
    requires Valid(s) && Enabled(s, e) && id in s.answers
    ensures id in Next(s, e).answers && Next(s, e).answers[id] == s.answers[id]
  {
    assert Places(s, id) == if id < |s.asked| then 1 else 0;
    assert Places(s, |s.asked|) == 0;
    if e.LoadOk? || e.LoadErr? {
      CountWithout(s.flights, e.n, id);
      var waiters := s.flights[e.n].batch.waiters;
      if e.LoadOk? {
        AnswerAllKeeps(s.answers, waiters, Some(e.values), None, id);
      } else {
        AnswerAllKeeps(s.answers, waiters, None, Some(e.error), id);
      }
    } else if e.Call? {
      CallCases(s, e.keys, e.switchSeen);
    }
  }

  /** An answer is final, whatever stale timers and later loads do. */
  lemma {:induction false} AnswersAreFinal<K, V, E>(s: System<K, V, E>, es: seq<Event<K, V, E>>, id: nat)
    requires Valid(s) && IsRun(s, es) && id in s.answers
    ensures id in After(s, es).answers && After(s, es).answers[id] == s.answers[id]
    decreases |es|
  {
    if es != [] {
      NextKeepsValid(s, es[0]);
      NextKeepsAnswer(s, es[0], id);
      AnswersAreFinal(Next(s, es[0]), es[1..], id);
    }
  }

  /** Timers and loads that are still to come. */
  function Work<K, V, E>(s: System<K, V, E>): nat {
    2 * |s.timers| + |s.flights|
  }

  predicate Internal<K, V, E>(e: Event<K, V, E>) {
    e.Fire? || e.LoadOk? || e.LoadErr?
  }

  lemma {:induction false} QuietRunsAreShort<K, V, E>(s: System<K, V, E>, es: seq<Event<K, V, E>>)
    requires IsRun(s, es) && forall e :: e in es ==> Internal(e)
    ensures |es| + Work(After(s, es)) <= Work(s)
    ensures After(s, es).asked == s.asked
    decreases |es|
  {
    if es != [] {
      assert es[0] in es;
      QuietRunsAreShort(Next(s, es[0]), es[1..]);
    }
  }

  /** Every request is answered: timers and loads run out, and with none left nothing is left waiting. */
  lemma EveryRequestAnswered<K, V, E>(maxBatch: nat, past: seq<Event<K, V, E>>, es: seq<Event<K, V, E>>)
    requires IsRun(Initial(maxBatch), past) && IsRun(Reached(maxBatch, past), es)
    requires forall e :: e in es ==> Internal(e)
    ensures |es| <= Work(Reached(maxBatch, past))
    ensures var s := After(Reached(maxBatch, past), es);
            s.timers == [] && s.flights == [] ==> forall id: nat :: id < |s.asked| ==> id in s.answers
  {
    ReachedValid(maxBatch, past);
    QuietRunsAreShort(Reached(maxBatch, past), es);
    RunKeepsValid(Reached(maxBatch, past), es);
    var s := After(Reached(maxBatch, past), es);
    if s.timers == [] && s.flights == [] {
      forall id: nat | id < |s.asked| ensures id in s.answers {
        assert Places(s, id) == 1;
      }
    }
  }
}
