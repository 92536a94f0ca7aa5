/**
  All interleavings of callers, completions and aborts around one `Dedupe`, and what holds in every
  reachable state: one execution per key, no stranded waiter, agreement on the result.
*/
module DedupeProtocol {
  import opened Options
  import opened Cardinality
  import opened Dedupe

  datatype Phase<+V> =
    | Start
    | Running(chan: nat)
    | Waiting(chan: nat, position: nat)
    | Done(value: V, via: Option<nat>)
    | Aborted(owned: Option<nat>)

  /** A call in flight; `failed` lists the channels on which it waited in vain. */
  datatype Caller<K, +V> = Caller(key: K, phase: Phase<V>, failed: seq<nat>)

  /** Who created a channel, and for which key. */
  datatype Owner<K> = Owner(caller: nat, key: K)

  /** `owners[c]` is the history of channel `c`; nothing in the protocol reads it. */
  datatype System<K, +V> = System(persist: bool, capacity: nat, shared: Shared<K, V>,
                                  callers: seq<Caller<K, V>>, owners: seq<Owner<K>>)

  datatype Event<K, V> = Arrive(key: K) | Enter(i: nat) | Finish(i: nat, value: V) | Receive(i: nat) | Abort(i: nat)

  function Initial<K, V>(persist: bool, capacity: nat): System<K, V> {
    System(persist, capacity, Shared(map[], []), [], [])
  }

  function Polled<K, V>(s: System<K, V>, i: nat): Received<V>
    requires i < |s.callers| && s.callers[i].phase.Waiting?
  {
    var p := s.callers[i].phase;
    if p.chan < |s.shared.chans| then ReceiveOf(s.shared.chans[p.chan], p.position, s.capacity) else Closed
  }

  predicate Enabled<K, V>(s: System<K, V>, e: Event<K, V>) {
    match e
    case Arrive(_) => true
    case Enter(i) => i < |s.callers| && s.callers[i].phase.Start?
    case Finish(i, _) =>
      i < |s.callers| && s.callers[i].phase.Running? && s.callers[i].phase.chan < |s.shared.chans|
    case Receive(i) => i < |s.callers| && s.callers[i].phase.Waiting? && !Polled(s, i).Blocked?
    case Abort(i) =>
      && i < |s.callers| && !s.callers[i].phase.Done? && !s.callers[i].phase.Aborted?
      && (s.callers[i].phase.Running? ==> s.callers[i].phase.chan < |s.shared.chans|)
  }

  function Moved<K, V>(s: System<K, V>, i: nat, phase: Phase<V>): System<K, V>
    requires i < |s.callers|
  {
    s.(callers := s.callers[i := s.callers[i].(phase := phase)])
  }

  function Next<K, V>(s: System<K, V>, e: Event<K, V>): System<K, V>
    requires Enabled(s, e)
  {
    match e
    case Arrive(key) => s.(callers := s.callers + [Caller(key, Start, [])])
    case Enter(i) =>
      var key := s.callers[i].key;
      var s' := s.(shared := AfterStep(s.shared, key));
      (match StepOf(s.shared, key)
       case Return(v) => Moved(s', i, Done(v, None))
       case Await(c, position) => Moved(s', i, Waiting(c, position))
       case Init(c) => Moved(s', i, Running(c)).(owners := s.owners + [Owner(i, key)]))
    case Finish(i, v) =>
      var c := s.callers[i].phase.chan;
      Moved(s.(shared := AfterCompletion(s.shared, s.persist, s.callers[i].key, c, v)), i, Done(v, Some(c)))
    case Receive(i) =>
      var c := s.callers[i].phase.chan;
      (match Polled(s, i)
       case Value(v) => Moved(s, i, Done(v, Some(c)))
       case _ => s.(callers := s.callers[i := Caller(s.callers[i].key, Start, s.callers[i].failed + [c])]))
    case Abort(i) =>
      if s.callers[i].phase.Running? then
        var c := s.callers[i].phase.chan;
        Moved(s.(shared := AfterDrop(s.shared, c)), i, Aborted(Some(c)))
      else Moved(s, i, Aborted(None))
  }

  /** A run is a list of events, each enabled when its turn comes. */
  predicate IsRun<K, V>(s: System<K, V>, es: seq<Event<K, V>>)
    decreases |es|
  {
    es != [] ==> Enabled(s, es[0]) && IsRun(Next(s, es[0]), es[1..])
  }

  function After<K, V>(s: System<K, V>, es: seq<Event<K, V>>): System<K, V>
    requires IsRun(s, es)
    decreases |es|
  {
    if es == [] then s else After(Next(s, es[0]), es[1..])
  }

  /** The fate of every channel is written in the phase of the caller that created it. */
  ghost predicate ChannelsValid<K, V>(s: System<K, V>) {
    && |s.owners| == |s.shared.chans|
    && forall c :: 0 <= c < |s.owners| ==> ChannelValid(s, c)
  }

  ghost predicate ChannelValid<K, V>(s: System<K, V>, c: nat) {
    && c < |s.owners| && c < |s.shared.chans|
    && var ch, o := s.shared.chans[c], s.owners[c];
    && o.caller < |s.callers| && s.callers[o.caller].key == o.key
    && (if ch.senderAlive then ch.sent == [] && s.callers[o.caller].phase == Running(c)
        else if ch.sent == [] then s.callers[o.caller].phase == Aborted(Some(c))
        else |ch.sent| == 1 && s.callers[o.caller].phase == Done(ch.sent[0], Some(c)))
  }

  ghost predicate ChannelFor<K, V>(s: System<K, V>, c: int, key: K) {
    0 <= c < |s.owners| && c < |s.shared.chans| && s.owners[c].key == key
  }

  ghost predicate FailedValid<K, V>(s: System<K, V>, caller: Caller<K, V>) {
    && (forall c :: c in caller.failed ==> ChannelFor(s, c, caller.key) && s.shared.chans[c] == Channel(false, []))
    && (forall a, b :: 0 <= a < b < |caller.failed| ==> caller.failed[a] != caller.failed[b])
  }

  ghost predicate CallerValid<K, V>(s: System<K, V>, i: nat) {
    && i < |s.callers|
    && FailedValid(s, s.callers[i])
    && var key, failed := s.callers[i].key, s.callers[i].failed;
    match s.callers[i].phase
    case Start => true
    case Running(c) =>
      ChannelFor(s, c, key) && s.shared.chans[c] == Channel(true, []) && s.owners[c].caller == i &&
      key in s.shared.cache && s.shared.cache[key] == Pending(c)
    case Waiting(c, position) => ChannelFor(s, c, key) && position == 0 && c !in failed
    case Done(v, None) => s.persist && key in s.shared.cache && s.shared.cache[key] == Ready(v)
    case Done(v, Some(c)) => ChannelFor(s, c, key) && s.shared.chans[c] == Channel(false, [v])
    case Aborted(None) => true
    case Aborted(Some(c)) => ChannelFor(s, c, key) && s.owners[c].caller == i
  }

  /** A pending entry belongs to an undelivered channel, a ready one to a delivered channel, of its key. */
  ghost predicate EntryValid<K, V>(s: System<K, V>, k: K) {
    k in s.shared.cache ==>
      match s.shared.cache[k]
      case Pending(c) => ChannelFor(s, c, k) && s.shared.chans[c].sent == []
      case Ready(v) => s.persist && exists c :: ChannelFor(s, c, k) && s.shared.chans[c].sent == [v]
  }

  ghost predicate DeliveredStays<K, V>(s: System<K, V>, c: nat) {
    s.persist && c < |s.shared.chans| && c < |s.owners| && s.shared.chans[c].sent != [] ==>
      s.owners[c].key in s.shared.cache && s.shared.cache[s.owners[c].key] == Ready(s.shared.chans[c].sent[0])
  }

  ghost predicate CacheValid<K(!new), V>(s: System<K, V>)
    requires |s.owners| == |s.shared.chans|
  {
    && (forall k :: k in s.shared.cache ==> EntryValid(s, k))
    && (forall c :: 0 <= c < |s.shared.chans| ==> DeliveredStays(s, c))
    && (forall c, d :: 0 <= c < d < |s.shared.chans| && s.persist && ChannelFor(s, c, s.owners[d].key) ==>
          s.shared.chans[c].sent == [] || s.shared.chans[d].sent == [])
  }

  ghost predicate Valid<K(!new), V>(s: System<K, V>) {
    && s.capacity > 0
    && ChannelsValid(s)
    && CacheValid(s)
    && forall i :: 0 <= i < |s.callers| ==> CallerValid(s, i)
  }

  lemma InitialValid<K(!new), V>(persist: bool, capacity: nat)
    requires capacity > 0
    ensures Valid(Initial<K, V>(persist, capacity))
  {
  }

  /** Nothing is forgotten: channels keep their history, and a dead channel never changes again. */
  ghost predicate Extends<K, V>(s: System<K, V>, s': System<K, V>) {
    && s'.persist == s.persist
    && |s.owners| == |s.shared.chans| <= |s'.owners| == |s'.shared.chans|
    && forall c :: 0 <= c < |s.owners| ==>
         s'.owners[c] == s.owners[c] && (!s.shared.chans[c].senderAlive ==> s'.shared.chans[c] == s.shared.chans[c])
  }

  lemma CallerFramed<K, V>(s: System<K, V>, s': System<K, V>, j: nat)
    requires Extends(s, s') && ChannelsValid(s) && CallerValid(s, j)
    requires j < |s'.callers| && s'.callers[j] == s.callers[j]
    requires s.callers[j].phase.Running? ==>
               var c, key := s.callers[j].phase.chan, s.callers[j].key;
               s'.shared.chans[c] == s.shared.chans[c] && key in s'.shared.cache && s'.shared.cache[key] == Pending(c)
    requires s.callers[j].phase.Done? && s.callers[j].phase.via.None? ==>
               var key := s.callers[j].key;
               key in s'.shared.cache && s'.shared.cache[key] == s.shared.cache[key]
    ensures CallerValid(s', j)
  {
  }

  lemma EntryFramed<K, V>(s: System<K, V>, s': System<K, V>, k: K)
    requires Extends(s, s') && ChannelsValid(s) && EntryValid(s, k)
    requires k in s.shared.cache && k in s'.shared.cache && s'.shared.cache[k] == s.shared.cache[k]
    requires s.shared.cache[k].Pending? ==>
               var c := s.shared.cache[k].chan;
               c < |s'.shared.chans| && s'.shared.chans[c].sent == s.shared.chans[c].sent
    ensures EntryValid(s', k)
  {
    if s.shared.cache[k].Ready? {
      var c :| ChannelFor(s, c, k) && s.shared.chans[c].sent == [s.shared.cache[k].value];
      assert ChannelValid(s, c) && ChannelFor(s', c, k);
    }
  }

  /** A caller that owns no channel moves on; everything it shares stays as it is. */
  lemma MoveKeepsValid<K(!new), V>(s: System<K, V>, i: nat, caller: Caller<K, V>)
    requires Valid(s) && i < |s.callers|
    requires s.callers[i].phase.Start? || s.callers[i].phase.Waiting?
    requires caller.key == s.callers[i].key
    requires CallerValid(s.(callers := s.callers[i := caller]), i)
    ensures Valid(s.(callers := s.callers[i := caller]))
  {
    var s' := s.(callers := s.callers[i := caller]);
    forall c | 0 <= c < |s.owners| ensures ChannelValid(s', c) {
      assert ChannelValid(s, c);
    }
    forall k | k in s.shared.cache ensures EntryValid(s', k) {
      assert EntryValid(s, k);
      EntryFramed(s, s', k);
    }
    forall c | 0 <= c < |s.shared.chans| ensures DeliveredStays(s', c) {
      assert DeliveredStays(s, c);
    }
    forall j | 0 <= j < |s.callers| && j != i ensures CallerValid(s', j) {
      assert CallerValid(s, j);
      CallerFramed(s, s', j);
    }
  }

  lemma ArriveKeepsValid<K(!new), V>(s: System<K, V>, key: K)
    requires Valid(s)
    ensures Valid(Next(s, Arrive(key)))
  {
    var s' := Next(s, Arrive(key));
    forall c | 0 <= c < |s.owners| ensures ChannelValid(s', c) {
      assert ChannelValid(s, c);
    }
    forall k | k in s.shared.cache ensures EntryValid(s', k) {
      assert EntryValid(s, k);
      EntryFramed(s, s', k);
    }
    forall c | 0 <= c < |s.shared.chans| ensures DeliveredStays(s', c) {
      assert DeliveredStays(s, c);
    }
    forall j | 0 <= j < |s.callers| ensures CallerValid(s', j) {
      assert CallerValid(s, j);
      CallerFramed(s, s', j);
    }
  }

  /** A running caller's channel is the one its cache entry points to, so no two callers run for one key. */
  lemma RunningAlone<K(!new), V>(s: System<K, V>, i: nat, j: nat)
    requires Valid(s) && i < |s.callers| && j < |s.callers|
    requires s.callers[i].phase.Running? && s.callers[j].phase.Running? && s.callers[i].key == s.callers[j].key
    ensures i == j
  {
    assert CallerValid(s, i) && CallerValid(s, j);
  }

  /** Taking over a key whose previous owner, if any, is gone. */
  lemma InitKeepsValid<K(!new), V>(s: System<K, V>, i: nat)
    requires Valid(s) && Enabled(s, Enter(i)) && StepOf(s.shared, s.callers[i].key).Init?
    ensures Valid(Next(s, Enter(i)))
  {
    var s', key, n := Next(s, Enter(i)), s.callers[i].key, |s.shared.chans|;
    assert CallerValid(s, i);
    forall c | 0 <= c < |s'.owners| ensures ChannelValid(s', c) {
      assert c < n ==> ChannelValid(s, c);
    }
    forall k | k in s'.shared.cache ensures EntryValid(s', k) {
      if k != key {
        assert EntryValid(s, k);
        EntryFramed(s, s', k);
      }
    }
    forall c | 0 <= c < |s'.shared.chans| ensures DeliveredStays(s', c) {
      if c < n { assert DeliveredStays(s, c); }
    }
    forall c, d | 0 <= c < d < |s'.shared.chans| && s'.persist && ChannelFor(s', c, s'.owners[d].key)
      ensures s'.shared.chans[c].sent == [] || s'.shared.chans[d].sent == []
    {
      if d < n { assert ChannelFor(s, c, s.owners[d].key); }
    }
    forall j | 0 <= j < |s'.callers| ensures CallerValid(s', j) {
      assert CallerValid(s, j);
      if j != i { CallerFramed(s, s', j); }
    }
  }

  lemma FinishKeepsShared<K(!new), V>(s: System<K, V>, i: nat, v: V)
    requires Valid(s) && Enabled(s, Finish(i, v))
    ensures var s' := Next(s, Finish(i, v)); Extends(s, s') && ChannelsValid(s') && CacheValid(s')
  {
    var s', key, own := Next(s, Finish(i, v)), s.callers[i].key, s.callers[i].phase.chan;
    assert CallerValid(s, i);
    assert ChannelFor(s', own, key) && s'.shared.chans[own].sent == [v];
    forall c | 0 <= c < |s'.owners| ensures ChannelValid(s', c) {
      assert ChannelValid(s, c);
    }
    forall k | k in s'.shared.cache ensures EntryValid(s', k) {
      if k != key {
        assert EntryValid(s, k);
        EntryFramed(s, s', k);
      }
    }
    forall c | 0 <= c < |s'.shared.chans| ensures DeliveredStays(s', c) {
      assert DeliveredStays(s, c);
    }
    forall c, d | 0 <= c < d < |s'.shared.chans| && s'.persist && ChannelFor(s', c, s'.owners[d].key)
      ensures s'.shared.chans[c].sent == [] || s'.shared.chans[d].sent == []
    {
      assert ChannelFor(s, c, s.owners[d].key);
      assert DeliveredStays(s, c) && DeliveredStays(s, d);
    }
  }

  lemma FinishKeepsValid<K(!new), V>(s: System<K, V>, i: nat, v: V)
    requires Valid(s) && Enabled(s, Finish(i, v))
    ensures Valid(Next(s, Finish(i, v)))
  {
    var s', key := Next(s, Finish(i, v)), s.callers[i].key;
    FinishKeepsShared(s, i, v);
    assert CallerValid(s, i);
    forall j | 0 <= j < |s'.callers| ensures CallerValid(s', j) {
      assert CallerValid(s, j);
      if j != i {
        if s.callers[j].phase.Running? && s.callers[j].key == key { RunningAlone(s, i, j); }
        CallerFramed(s, s', j);
      }
    }
  }

  lemma AbortedRunKeepsValid<K(!new), V>(s: System<K, V>, i: nat)
    requires Valid(s) && Enabled(s, Abort(i)) && s.callers[i].phase.Running?
    ensures Valid(Next(s, Abort(i)))
  {
    var s' := Next(s, Abort(i));
    assert CallerValid(s, i);
    forall c | 0 <= c < |s'.owners| ensures ChannelValid(s', c) {
      assert ChannelValid(s, c);
    }
    forall k | k in s'.shared.cache ensures EntryValid(s', k) {
      assert EntryValid(s, k);
      EntryFramed(s, s', k);
    }
    forall c | 0 <= c < |s'.shared.chans| ensures DeliveredStays(s', c) {
      assert DeliveredStays(s, c);
    }
    forall c, d | 0 <= c < d < |s'.shared.chans| && s'.persist && ChannelFor(s', c, s'.owners[d].key)
      ensures s'.shared.chans[c].sent == [] || s'.shared.chans[d].sent == []
    {
      assert ChannelFor(s, c, s.owners[d].key);
    }
    forall j | 0 <= j < |s'.callers| ensures CallerValid(s', j) {
      assert CallerValid(s, j);
      if j != i { CallerFramed(s, s', j); }
    }
  }

  lemma EnterKeepsValid<K(!new), V>(s: System<K, V>, i: nat)
    requires Valid(s) && Enabled(s, Enter(i))
    ensures Valid(Next(s, Enter(i)))
  {
    if StepOf(s.shared, s.callers[i].key).Init? {
      InitKeepsValid(s, i);
    } else {
      assert CallerValid(s, i);
      assert EntryValid(s, s.callers[i].key);
      MoveKeepsValid(s, i, Next(s, Enter(i)).callers[i]);
    }
  }

  lemma ReceiveKeepsValid<K(!new), V>(s: System<K, V>, i: nat)
    requires Valid(s) && Enabled(s, Receive(i))
    ensures Valid(Next(s, Receive(i)))
  {
    assert CallerValid(s, i);
    assert ChannelValid(s, s.callers[i].phase.chan);
    MoveKeepsValid(s, i, Next(s, Receive(i)).callers[i]);
  }

  lemma AbortKeepsValid<K(!new), V>(s: System<K, V>, i: nat)
    requires Valid(s) && Enabled(s, Abort(i))
    ensures Valid(Next(s, Abort(i)))
  {
    if s.callers[i].phase.Running? {
      AbortedRunKeepsValid(s, i);
    } else {
      assert CallerValid(s, i);
      MoveKeepsValid(s, i, Next(s, Abort(i)).callers[i]);
    }
  }

  lemma NextKeepsValid<K(!new), V>(s: System<K, V>, e: Event<K, V>)
    requires Valid(s) && Enabled(s, e)
    ensures Valid(Next(s, e))
  {
    match e
    case Arrive(key) => ArriveKeepsValid(s, key);
    case Enter(i) => EnterKeepsValid(s, i);
    case Finish(i, v) => FinishKeepsValid(s, i, v);
    case Receive(i) => ReceiveKeepsValid(s, i);
    case Abort(i) => AbortKeepsValid(s, i);
  }

  lemma {:induction false} RunKeepsValid<K(!new), V>(s: System<K, V>, es: seq<Event<K, V>>)
    requires Valid(s) && IsRun(s, es)
    ensures Valid(After(s, es))
    decreases |es|
  {
    if es != [] {
      NextKeepsValid(s, es[0]);
      RunKeepsValid(Next(s, es[0]), es[1..]);
    }
  }

  /** The state behind a run of a fresh `Dedupe`. */
  function Reached<K, V>(persist: bool, capacity: nat, es: seq<Event<K, V>>): System<K, V>
    requires IsRun(Initial(persist, capacity), es)
  {
    After(Initial(persist, capacity), es)
  }

  /**
    At most one caller executes for a key, and while it does the entry of that key is pending on its
    channel and nobody else's: its completion cannot clobber another caller's entry.
  */
  lemma OneExecutionPerKey<K(!new), V>(persist: bool, capacity: nat, es: seq<Event<K, V>>, i: nat, j: nat)
    requires capacity > 0 && IsRun(Initial(persist, capacity), es)
    requires var s := Reached(persist, capacity, es);
             i < |s.callers| && j < |s.callers| && s.callers[i].phase.Running? && s.callers[j].phase.Running?
    ensures var s := Reached(persist, capacity, es);
            && (s.callers[i].key == s.callers[j].key ==> i == j)
            && s.callers[i].key in s.shared.cache
            && s.shared.cache[s.callers[i].key] == Pending(s.callers[i].phase.chan)
            && Upgrades(s.shared.chans, s.callers[i].phase.chan)
  {
    InitialValid<K, V>(persist, capacity);
    RunKeepsValid(Initial(persist, capacity), es);
    var s := Reached(persist, capacity, es);
    assert CallerValid(s, i);
    if s.callers[i].key == s.callers[j].key { RunningAlone(s, i, j); }
  }

  /**
    Nobody waits in vain: an awaited channel still has its executing owner, or holds the one value that
    the owner returned, or is closed because the owner was aborted. A receiver never lags.
  */
  lemma NoWaiterStranded<K(!new), V>(persist: bool, capacity: nat, es: seq<Event<K, V>>, i: nat)
    requires capacity > 0 && IsRun(Initial(persist, capacity), es)
    requires var s := Reached(persist, capacity, es); i < |s.callers| && s.callers[i].phase.Waiting?
    ensures var s := Reached(persist, capacity, es);
            var c := s.callers[i].phase.chan;
            c < |s.owners| && s.owners[c].caller < |s.callers| &&
            var owner := s.callers[s.owners[c].caller];
            owner.key == s.callers[i].key &&
            match Polled(s, i)
            case Blocked => owner.phase == Running(c)
            case Value(v) => owner.phase == Done(v, Some(c))
            case Closed => owner.phase == Aborted(Some(c))
            case Lagged => false
  {
    InitialValid<K, V>(persist, capacity);
    RunKeepsValid(Initial(persist, capacity), es);
    var s := Reached(persist, capacity, es);
    assert CallerValid(s, i);
    assert ChannelValid(s, s.callers[i].phase.chan);
  }

  /** The callers of `key` that were aborted while they executed. */
  function AbortedOwners<K(==), V>(s: System<K, V>, key: K): set<nat> {
    set j | 0 <= j < |s.callers| && s.callers[j].key == key && s.callers[j].phase.Aborted? &&
            s.callers[j].phase.owned.Some?
  }

  lemma {:induction false} DistinctOwners<K(!new), V>(s: System<K, V>, key: K, chans: seq<nat>)
    returns (owners: set<nat>)
    requires Valid(s)
    requires forall c :: c in chans ==> ChannelFor(s, c, key) && s.shared.chans[c] == Channel(false, [])
    requires forall a, b :: 0 <= a < b < |chans| ==> chans[a] != chans[b]
    ensures |owners| == |chans| && owners <= AbortedOwners(s, key)
    ensures forall o :: o in owners ==> s.callers[o].phase.owned.value in chans
  {
    owners := {};
    if chans != [] {
      var n := |chans| - 1;
      owners := DistinctOwners(s, key, chans[..n]);
      assert chans[n] in chans && ChannelValid(s, chans[n]);
      owners := owners + {s.owners[chans[n]].caller};
    }
  }

  /** A caller goes round its loop at most once for every aborted execution of its key. */
  lemma RetriesBounded<K(!new), V>(persist: bool, capacity: nat, es: seq<Event<K, V>>, i: nat)
    requires capacity > 0 && IsRun(Initial(persist, capacity), es)
    requires i < |Reached(persist, capacity, es).callers|
    ensures var s := Reached(persist, capacity, es);
            |s.callers[i].failed| <= |AbortedOwners(s, s.callers[i].key)|
  {
    InitialValid<K, V>(persist, capacity);
    RunKeepsValid(Initial(persist, capacity), es);
    var s := Reached(persist, capacity, es);
    assert CallerValid(s, i);
    var owners := DistinctOwners(s, s.callers[i].key, s.callers[i].failed);
    SubsetSize(owners, AbortedOwners(s, s.callers[i].key));
  }

  /**
    Every value that a caller returns was produced by an execution for its key. Callers that share a
    channel, the executing one included, return the same value; with `persist` all callers of a key do.
  */
  lemma Agreement<K(!new), V>(persist: bool, capacity: nat, es: seq<Event<K, V>>, i: nat, j: nat)
    requires capacity > 0 && IsRun(Initial(persist, capacity), es)
    requires var s := Reached(persist, capacity, es);
             && i < |s.callers| && j < |s.callers|
             && s.callers[i].phase.Done? && s.callers[j].phase.Done?
             && s.callers[i].key == s.callers[j].key
    ensures var s := Reached(persist, capacity, es);
            var a, b := s.callers[i].phase, s.callers[j].phase;
            && (persist || (a.via.Some? && a.via == b.via) ==> a.value == b.value)
            && (exists c :: ChannelFor(s, c, s.callers[i].key) && s.owners[c].caller < |s.callers| &&
                            s.callers[s.owners[c].caller].key == s.callers[i].key &&
                            s.callers[s.owners[c].caller].phase == Done(a.value, Some(c)))
  {
    InitialValid<K, V>(persist, capacity);
    RunKeepsValid(Initial(persist, capacity), es);
    var s := Reached(persist, capacity, es);
    RunKeepsMode(Initial(persist, capacity), es);
    forall n | n == i || n == j ensures exists c :: ChannelFor(s, c, s.callers[n].key) &&
                                                    s.shared.chans[c].sent == [s.callers[n].phase.value] {
      assert CallerValid(s, n);
      assert s.callers[n].phase.via.None? ==> EntryValid(s, s.callers[n].key);
    }
    var c :| ChannelFor(s, c, s.callers[i].key) && s.shared.chans[c].sent == [s.callers[i].phase.value];
    var d :| ChannelFor(s, d, s.callers[j].key) && s.shared.chans[d].sent == [s.callers[j].phase.value];
    assert ChannelValid(s, c);
    assert DeliveredStays(s, c) && DeliveredStays(s, d);
    assert CallerValid(s, i) && CallerValid(s, j);
  }

  lemma {:induction false} RunKeepsMode<K, V>(s: System<K, V>, es: seq<Event<K, V>>)
    requires IsRun(s, es)
    ensures After(s, es).persist == s.persist && After(s, es).capacity == s.capacity
    decreases |es|
  {
    if es != [] { RunKeepsMode(Next(s, es[0]), es[1..]); }
  }

  /** How often an operation for `key` completes in a run. */
  function Completions<K(==), V>(s: System<K, V>, es: seq<Event<K, V>>, key: K): nat
    requires IsRun(s, es)
    decreases |es|
  {
    if es == [] then 0
    else (if es[0].Finish? && s.callers[es[0].i].key == key then 1 else 0) + Completions(Next(s, es[0]), es[1..], key)
  }

  /** A stored result is final: no later event changes it, and the operation never completes again. */
  lemma {:induction false} ReadyForever<K(!new), V>(s: System<K, V>, es: seq<Event<K, V>>, key: K, v: V)
    requires Valid(s) && IsRun(s, es) && s.persist
    requires key in s.shared.cache && s.shared.cache[key] == Ready(v)
    ensures key in After(s, es).shared.cache && After(s, es).shared.cache[key] == Ready(v)
    ensures Completions(s, es, key) == 0
    decreases |es|
  {
    if es != [] {
      NextKeepsValid(s, es[0]);
      if es[0].Finish? || es[0].Abort? { assert CallerValid(s, es[0].i); }
      ReadyForever(Next(s, es[0]), es[1..], key, v);
    }
  }

  /** With `persist` the operation of a key completes at most once in any run. */
  lemma {:induction false} PersistCompletesOnce<K(!new), V>(s: System<K, V>, es: seq<Event<K, V>>, key: K)
    requires Valid(s) && IsRun(s, es) && s.persist
    ensures Completions(s, es, key) <= 1
    decreases |es|
  {
    if es != [] {
      NextKeepsValid(s, es[0]);
      if es[0].Finish? && s.callers[es[0].i].key == key {
        ReadyForever(Next(s, es[0]), es[1..], key, es[0].value);
      } else {
        PersistCompletesOnce(Next(s, es[0]), es[1..], key);
      }
    }
  }
}
