/**
  A data loader that batches the keys of many callers and may answer from a cache. Everything here
  happens under the lock of `Requests`; timers, loads and callers are the subject of `DataLoaderProtocol`.
*/
module DataLoader {
  /** A queued caller: the keys it still needs, the values it already has, and where to send the answer. */
  datatype Waiter<K, +V> = Waiter(keys: set<K>, cached: map<K, V>, id: nat)

  datatype Batch<K, +V> = Batch(keys: set<K>, waiters: seq<Waiter<K, V>>)

  datatype Response<K, +V, +E> = Ok(values: map<K, V>) | Err(error: E)

  /** What a caller does once it has released the lock. */
  datatype Action<K, +V> = Answered(values: map<K, V>) | ImmediateLoad(batch: Batch<K, V>) | StartFetch | Delay

  datatype State<K, +V> = State(keys: set<K>, pending: seq<Waiter<K, V>>, cache: map<K, V>, disableCache: bool)

  function FromCache<K, V>(s: State<K, V>, keys: seq<K>, bypass: bool): map<K, V> {
    if bypass then map[] else map k | k in keys && k in s.cache :: s.cache[k]
  }

  function Uncached<K, V>(s: State<K, V>, keys: seq<K>, bypass: bool): set<K> {
    set k | k in keys && (bypass || k !in s.cache)
  }

  function Queued<K, V>(s: State<K, V>, keys: seq<K>, id: nat, bypass: bool): State<K, V> {
    var wanted := Uncached(s, keys, bypass);
    s.(keys := s.keys + wanted, pending := s.pending + [Waiter(wanted, FromCache(s, keys, bypass), id)])
  }

  function Taken<K, V>(s: State<K, V>): State<K, V> {
    s.(keys := {}, pending := [])
  }

  function CallAction<K, V>(s: State<K, V>, keys: seq<K>, id: nat, maxBatch: nat, bypass: bool): Action<K, V> {
    if Uncached(s, keys, bypass) == {} then Answered(FromCache(s, keys, bypass))
    else
      var q := Queued(s, keys, id, bypass);
      if |q.keys| >= maxBatch then ImmediateLoad(Batch(q.keys, q.pending))
      else if s.keys == {} then StartFetch
      else Delay
  }

  function AfterCall<K, V>(s: State<K, V>, keys: seq<K>, id: nat, maxBatch: nat, bypass: bool): State<K, V> {
    match CallAction(s, keys, id, maxBatch, bypass)
    case Answered(_) => s
    case ImmediateLoad(_) => Taken(Queued(s, keys, id, bypass))
    case _ => Queued(s, keys, id, bypass)
  }

  /** A requested key is wanted exactly when it is not cached or the cache is off, and cached otherwise. */
  lemma SplitExactly<K, V>(s: State<K, V>, keys: seq<K>, off: bool)
    ensures Uncached(s, keys, off) == set k | k in keys && (off || k !in s.cache)
    ensures FromCache(s, keys, off) == map k | k in keys && !off && k in s.cache :: s.cache[k]
    ensures Uncached(s, keys, off) == {} <==> forall k :: k in keys ==> !off && k in s.cache
    ensures Uncached(s, keys, off) == {} ==>
              FromCache(s, keys, off) == map k | k in keys && k in s.cache :: s.cache[k]
  {
    assert forall k :: k in Uncached(s, keys, off) <==> k in keys && (off || k !in s.cache);
    assert forall k :: k in FromCache(s, keys, off) <==> k in keys && !off && k in s.cache;
  }

  /** What a call does, over the requested keys, the cache and the switches: only what is not cached is loaded. */
  lemma CallExactly<K, V>(s: State<K, V>, keys: seq<K>, id: nat, maxBatch: nat, off: bool)
    ensures var action, s' := CallAction(s, keys, id, maxBatch, off), AfterCall(s, keys, id, maxBatch, off);
            var wanted := set k | k in keys && (off || k !in s.cache);
            var cached := map k | k in keys && !off && k in s.cache :: s.cache[k];
            var queue := s.pending + [Waiter(wanted, cached, id)];
            && s'.cache == s.cache && s'.disableCache == s.disableCache
            && (wanted == {} <==> forall k :: k in keys ==> !off && k in s.cache)
            && if wanted == {} then s' == s && action == Answered(map k | k in keys && k in s.cache :: s.cache[k])
               else if |s.keys + wanted| >= maxBatch then
                 action == ImmediateLoad(Batch(s.keys + wanted, queue)) && s'.keys == {} && s'.pending == []
               else
                 && s'.keys == s.keys + wanted && s'.pending == queue
                 && action == if s.keys == {} then StartFetch else Delay
  {
    SplitExactly(s, keys, off);
    hide Uncached, FromCache;
  }

  /** The cache behind a successful load. */
  function AfterLoad<K, V>(s: State<K, V>, disable: bool, values: map<K, V>): State<K, V> {
    s.(cache := if s.disableCache || disable then s.cache else s.cache + values)
  }

  /** The answer to one caller of a batch that was loaded. */
  function Loaded<K, V, E>(w: Waiter<K, V>, values: map<K, V>): Response<K, V, E> {
    Ok(w.cached + map k | k in w.keys && k in values :: values[k])
  }

  function PairsToMap<K, V>(pairs: seq<(K, V)>): map<K, V> {
    if pairs == [] then map[]
    else PairsToMap(pairs[..|pairs| - 1])[pairs[|pairs| - 1].0 := pairs[|pairs| - 1].1]
  }

  /** Every pair gets into the map, and of several pairs with one key the last counts. */
  lemma {:induction false} LastPairCounts<K, V>(pairs: seq<(K, V)>)
    ensures PairsToMap(pairs).Keys == set i | 0 <= i < |pairs| :: pairs[i].0
    ensures forall i :: 0 <= i < |pairs| && (forall j :: i < j < |pairs| ==> pairs[j].0 != pairs[i].0) ==>
              PairsToMap(pairs)[pairs[i].0] == pairs[i].1
  {
    if pairs != [] {
      var n := |pairs| - 1;
      var front := pairs[..n];
      LastPairCounts(front);
      assert forall i :: 0 <= i < n ==> front[i] == pairs[i];
      var before, last := PairsToMap(front), pairs[n];
      assert PairsToMap(pairs) == before[last.0 := last.1];
      assert before.Keys == set i | 0 <= i < |front| :: front[i].0;
      hide PairsToMap;
      assert forall i :: 0 <= i < n && last.0 != pairs[i].0 ==> PairsToMap(pairs)[pairs[i].0] == before[front[i].0];
    }
  }

  class Requests<K(==), V> {
    var keys: set<K>
    var pending: seq<Waiter<K, V>>
    var cache: map<K, V>
    var disableCache: bool

    ghost function Abs(): State<K, V>
      reads this
    {
      State(keys, pending, cache, disableCache)
    }

    constructor ()
      ensures Abs() == State({}, [], map[], false)
    {
      keys, pending, cache, disableCache := {}, [], map[], false;
    }

    method Take() returns (batch: Batch<K, V>)
      modifies this
      ensures batch == Batch(old(keys), old(pending))
      ensures Abs() == Taken(old(Abs()))
    {
      batch := Batch(keys, pending);
      keys := {};
      pending := [];
    }

    /** Splits the requested keys into those the cache can answer and those to load. */
    method Partition(requested: seq<K>, disableAll: bool) returns (keysSet: set<K>, useCacheValues: map<K, V>)
      ensures keysSet == Uncached(Abs(), requested, disableCache || disableAll)
      ensures useCacheValues == FromCache(Abs(), requested, disableCache || disableAll)
      ensures forall k :: k in keysSet <==> k in requested && (disableCache || disableAll || k !in cache)
      ensures forall k :: k in useCacheValues <==> k in requested && !disableCache && !disableAll && k in cache
      ensures forall k :: k in useCacheValues ==> useCacheValues[k] == cache[k]
    {
      keysSet, useCacheValues := {}, map[];
      if disableCache || disableAll {
        keysSet := set k | k in requested;
      } else {
        for i := 0 to |requested|
          invariant keysSet == Uncached(Abs(), requested[..i], false)
          invariant useCacheValues == FromCache(Abs(), requested[..i], false)
        {
          var key := requested[i];
          assert requested[..i + 1] == requested[..i] + [key];
          if key in cache {
            useCacheValues := useCacheValues[key := cache[key]];
          } else {
            keysSet := keysSet + {key};
          }
        }
        assert requested[..|requested|] == requested;
      }
    }

    /** The locked part of `load_many`; `disableAll` is the loader-wide switch as read under the lock. */
    method LoadMany(requested: seq<K>, id: nat, maxBatch: nat, disableAll: bool) returns (action: Action<K, V>)
      modifies this
      ensures action == CallAction(old(Abs()), requested, id, maxBatch, old(disableCache) || disableAll)
      ensures Abs() == AfterCall(old(Abs()), requested, id, maxBatch, old(disableCache) || disableAll)
      ensures cache == old(cache) && disableCache == old(disableCache)
      ensures (forall k :: k in requested ==> !old(disableCache) && !disableAll && k in old(cache)) ==>
                && keys == old(keys) && pending == old(pending)
                && action == Answered(map k | k in requested && k in old(cache) :: old(cache)[k])
      ensures !(forall k :: k in requested ==> !old(disableCache) && !disableAll && k in old(cache)) ==>
                var off := old(disableCache) || disableAll;
                var wanted := set k | k in requested && (off || k !in old(cache));
                var cached := map k | k in requested && !off && k in old(cache) :: old(cache)[k];
                var queue := old(pending) + [Waiter(wanted, cached, id)];
                if |old(keys) + wanted| >= maxBatch then
                  action == ImmediateLoad(Batch(old(keys) + wanted, queue)) && keys == {} && pending == []
                else
                  && keys == old(keys) + wanted && pending == queue
                  && action == if old(keys) == {} then StartFetch else Delay
    {
      CallExactly(Abs(), requested, id, maxBatch, disableCache || disableAll);
      var prevCount := |keys|;
      var keysSet, useCacheValues := Partition(requested, disableAll);
      if |useCacheValues| != 0 && keysSet == {} {
        return Answered(useCacheValues);
      } else if |useCacheValues| == 0 && keysSet == {} {
        return Answered(map[]);
      }
      keys := keys + keysSet;
      pending := pending + [Waiter(keysSet, useCacheValues, id)];
      if |keys| >= maxBatch {
        var batch := Take();
        action := ImmediateLoad(batch);
      } else if |keys| != 0 && prevCount == 0 {
        action := StartFetch;
      } else {
        action := Delay;
      }
    }

    /** The answer to one caller of a loaded batch, key by key. */
    static method Collect<E>(w: Waiter<K, V>, values: map<K, V>) returns (response: Response<K, V, E>)
      ensures response == Loaded(w, values)
    {
      var res := w.cached;
      var todo := w.keys;
      while todo != {}
        invariant todo <= w.keys
        invariant res == w.cached + map k | k in w.keys - todo && k in values :: values[k]
        decreases todo
      {
        var key :| key in todo;
        todo := todo - {key};
        if key in values {
          res := res[key := values[key]];
        }
      }
      response := Ok(res);
      assert w.keys - {} == w.keys;
    }

    /** `do_load` behind a successful load: fill the cache unless it is off, and answer every caller. */
    method Deliver<E>(disable: bool, batch: Batch<K, V>, values: map<K, V>)
      returns (responses: seq<(nat, Response<K, V, E>)>)
      modifies this
      ensures Abs() == AfterLoad(old(Abs()), disable, values)
      ensures cache == if old(disableCache) || disable then old(cache) else old(cache) + values
      ensures |responses| == |batch.waiters|
      ensures forall i :: 0 <= i < |responses| ==>
                responses[i] == (batch.waiters[i].id, Loaded(batch.waiters[i], values))
    {
      if !(disableCache || disable) {
        var todo := values.Keys;
        while todo != {}
          invariant todo <= values.Keys
          invariant keys == old(keys) && pending == old(pending) && disableCache == old(disableCache)
          invariant cache == old(cache) + (values - todo)
          decreases todo
        {
          var key :| key in todo;
          todo := todo - {key};
          assert values - todo == (values - (todo + {key}))[key := values[key]];
          cache := cache[key := values[key]];
        }
        assert values - {} == values;
      }
      responses := [];
      for i := 0 to |batch.waiters|
        invariant Abs() ==
                  old(Abs()).(cache := if old(disableCache) || disable then old(cache) else old(cache) + values)
        invariant |responses| == i
        invariant forall j :: 0 <= j < i ==>
                    responses[j] == (batch.waiters[j].id, Loaded(batch.waiters[j], values))
      {
        var response: Response<K, V, E> := Collect(batch.waiters[i], values);
        responses := responses + [(batch.waiters[i].id, response)];
      }
    }

    /** `do_load` behind a failed load: every caller gets the error, and the cache is left alone. */
    static method DeliverError<E>(batch: Batch<K, V>, error: E) returns (responses: seq<(nat, Response<K, V, E>)>)
      ensures |responses| == |batch.waiters|
      ensures forall i :: 0 <= i < |responses| ==> responses[i] == (batch.waiters[i].id, Err(error))
    {
      responses := [];
      for i := 0 to |batch.waiters|
        invariant |responses| == i
        invariant forall j :: 0 <= j < i ==> responses[j] == (batch.waiters[j].id, Err(error))
      {
        responses := responses + [(batch.waiters[i].id, Response<K, V, E>.Err(error))];
      }
    }

    method FeedMany(values: seq<(K, V)>)
      modifies this
      ensures Abs() == old(Abs()).(cache := old(cache) + PairsToMap(values))
    {
      for i := 0 to |values|
        invariant Abs() == old(Abs()).(cache := old(cache) + PairsToMap(values[..i]))
      {
        assert values[..i + 1][..i] == values[..i];
        cache := cache[values[i].0 := values[i].1];
      }
      assert values[..|values|] == values;
    }

    method Clear()
      modifies this
      ensures Abs() == old(Abs()).(cache := map[])
    {
      cache := map[];
    }

    method EnableCache(enable: bool)
      modifies this
      ensures Abs() == old(Abs()).(disableCache := !enable)
    {
      disableCache := !enable;
    }
  }
}
