/**
  Deduplication of asynchronous operations: concurrent callers of one key share one execution through
  a broadcast channel whose only strong sender belongs to the caller that executes.
*/
module Dedupe {
  /** A cache entry: the stored result, or a weak reference to the channel that will carry it. */
  datatype State<+V> = Ready(value: V) | Pending(chan: nat)

  /** What a caller has to do next. */
  datatype Step<+V> = Return(value: V) | Await(chan: nat, position: nat) | Init(chan: nat)

  /** A broadcast channel: whether its one strong sender still exists, and everything sent so far. */
  datatype Channel<+V> = Channel(senderAlive: bool, sent: seq<V>)

  /** The outcome of polling a receiver. */
  datatype Received<+V> = Value(value: V) | Lagged | Closed | Blocked

  /** The mutex-guarded map together with all channels that were ever created for it. */
  datatype Shared<K, +V> = Shared(cache: map<K, State<V>>, chans: seq<Channel<V>>)

  /** A weak reference can be upgraded only while the sender is alive. */
  predicate Upgrades<V>(chans: seq<Channel<V>>, chan: nat) {
    chan < |chans| && chans[chan].senderAlive
  }

  function StepOf<K, V>(s: Shared<K, V>, key: K): Step<V> {
    if key in s.cache && s.cache[key].Ready? then Return(s.cache[key].value)
    else if key in s.cache && Upgrades(s.chans, s.cache[key].chan) then
      Await(s.cache[key].chan, |s.chans[s.cache[key].chan].sent|)
    else Init(|s.chans|)
  }

  function AfterStep<K, V>(s: Shared<K, V>, key: K): Shared<K, V> {
    if StepOf(s, key).Init? then Shared(s.cache[key := Pending(|s.chans|)], s.chans + [Channel(true, [])]) else s
  }

  /** The locked block behind `or_else`: store or remove the entry, send, and let the sender go. */
  function AfterCompletion<K, V>(s: Shared<K, V>, persist: bool, key: K, chan: nat, value: V): Shared<K, V>
    requires chan < |s.chans|
  {
    Shared(if persist then s.cache[key := Ready(value)] else s.cache - {key},
           s.chans[chan := Channel(false, s.chans[chan].sent + [value])])
  }

  /** An aborted owner takes its sender with it; the cache entry stays behind. */
  function AfterDrop<K, V>(s: Shared<K, V>, chan: nat): Shared<K, V>
    requires chan < |s.chans|
  {
    s.(chans := s.chans[chan := s.chans[chan].(senderAlive := false)])
  }

  /** A receiver at `position` of a channel that keeps the last `capacity` values. */
  function ReceiveOf<V>(ch: Channel<V>, position: nat, capacity: nat): Received<V> {
    if position + capacity < |ch.sent| then Lagged
    else if position < |ch.sent| then Value(ch.sent[position])
    else if ch.senderAlive then Blocked
    else Closed
  }

  class Dedupe<K(==), V> {
    const size: nat
    const persist: bool
    var cache: map<K, State<V>>
    var chans: seq<Channel<V>>

    ghost function Abs(): Shared<K, V>
      reads this
    {
      Shared(cache, chans)
    }

    constructor (size: nat, persist: bool)
      ensures this.size == size && this.persist == persist
      ensures Abs() == Shared(map[], [])
    {
      this.size, this.persist := size, persist;
      cache, chans := map[], [];
    }

    /** A broadcast channel must have room for at least one value; creating one without room panics. */
    method Step(key: K) returns (step: Step<V>)
      requires size > 0 || !StepOf(Abs(), key).Init?
      modifies this
      ensures step == StepOf(old(Abs()), key)
      ensures Abs() == AfterStep(old(Abs()), key)
    {
      if key in cache {
        match cache[key] {
          case Ready(value) => return Return(value);
          case Pending(tx) =>
            if Upgrades(chans, tx) {
              return Await(tx, |chans[tx].sent|);
            }
        }
      }
      var tx := |chans|;
      chans := chans + [Channel(true, [])];
      cache := cache[key := Pending(tx)];
      step := Init(tx);
    }

    method Complete(key: K, tx: nat, value: V)
      requires tx < |chans|
      modifies this
      ensures Abs() == AfterCompletion(old(Abs()), persist, key, tx, value)
    {
      if persist {
        cache := cache[key := Ready(value)];
      } else {
        cache := cache - {key};
      }
      chans := chans[tx := chans[tx].(sent := chans[tx].sent + [value])];
      chans := chans[tx := chans[tx].(senderAlive := false)];
    }

    method DropSender(tx: nat)
      requires tx < |chans|
      modifies this
      ensures Abs() == AfterDrop(old(Abs()), tx)
    {
      chans := chans[tx := chans[tx].(senderAlive := false)];
    }
  }
}
