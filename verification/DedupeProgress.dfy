/** Once no caller is aborted any more, every call that is in flight returns a value. */
module DedupeProgress {
  import opened DedupeProtocol

  /** How many steps a caller can still take: a retry leads to a channel whose owner is alive. */
  function Weight<K, V>(s: System<K, V>, i: nat): nat
    requires i < |s.callers|
  {
    match s.callers[i].phase
    case Start => 2
    case Running(_) => 1
    case Waiting(_, _) => if Polled(s, i).Closed? || Polled(s, i).Lagged? then 3 else 1
    case Done(_, _) => 0
    case Aborted(_) => 0
  }

  function Total<K, V>(s: System<K, V>, n: nat): nat
    requires n <= |s.callers|
  {
    if n == 0 then 0 else Total(s, n - 1) + Weight(s, n - 1)
  }

  predicate Settled<K, V>(s: System<K, V>, i: nat)
    requires i < |s.callers|
  {
    s.callers[i].phase.Done? || s.callers[i].phase.Aborted?
  }

  /** The steps that the executor and the operations take by themselves. */
  predicate Internal<K, V>(e: Event<K, V>) {
    e.Enter? || e.Finish? || e.Receive?
  }

  function Actor<K, V>(e: Event<K, V>): nat
    requires !e.Arrive?
  {
    e.i
  }

  lemma ActorLosesWeight<K(!new), V>(s: System<K, V>, e: Event<K, V>)
    requires Valid(s) && Enabled(s, e) && Internal(e)
    ensures |Next(s, e).callers| == |s.callers|
    ensures Weight(Next(s, e), Actor(e)) < Weight(s, Actor(e))
  {
    var i := Actor(e);
    assert CallerValid(s, i);
    if e.Enter? && s.callers[i].key in s.shared.cache {
      assert EntryValid(s, s.callers[i].key);
    }
    if e.Receive? {
      assert ChannelValid(s, s.callers[i].phase.chan);
    }
  }

  /** A caller that stays as it is, on a channel that stays as it is, keeps its weight. */
  lemma SameWeight<K, V>(s: System<K, V>, s': System<K, V>, j: nat)
    requires j < |s.callers| && j < |s'.callers| && s'.callers[j] == s.callers[j] && s'.capacity == s.capacity
    requires s.callers[j].phase.Waiting? ==>
               var c := s.callers[j].phase.chan;
               c < |s.shared.chans| && c < |s'.shared.chans| && s'.shared.chans[c] == s.shared.chans[c]
    ensures Weight(s', j) == Weight(s, j)
  {
  }

  /** A completion wakes the waiters of its own channel and leaves all others waiting. */
  lemma FinishGivesNoWeight<K, V>(s: System<K, V>, i: nat, v: V, j: nat)
    requires Enabled(s, Finish(i, v)) && j < |s.callers| && j != i && s.capacity > 0
    requires s.shared.chans[s.callers[i].phase.chan].sent == []
    requires s.callers[j].phase.Waiting? ==>
               s.callers[j].phase.chan < |s.shared.chans| && s.callers[j].phase.position == 0
    ensures Weight(Next(s, Finish(i, v)), j) <= Weight(s, j)
  {
    if !(s.callers[j].phase.Waiting? && s.callers[j].phase.chan == s.callers[i].phase.chan) {
      SameWeight(s, Next(s, Finish(i, v)), j);
    }
  }

  lemma OthersGainNoWeight<K(!new), V>(s: System<K, V>, e: Event<K, V>, j: nat)
    requires Valid(s) && Enabled(s, e) && Internal(e) && j < |s.callers| && j != Actor(e)
    ensures |Next(s, e).callers| == |s.callers|
    ensures Weight(Next(s, e), j) <= Weight(s, j)
  {
    assert CallerValid(s, j) && CallerValid(s, Actor(e));
    if e.Finish? {
      FinishGivesNoWeight(s, e.i, e.value, j);
    } else {
      assert s.callers[j].phase.Waiting? ==> s.callers[j].phase.chan < |s.shared.chans|;
      hide Valid, CallerValid, Weight;
      SameWeight(s, Next(s, e), j);
    }
  }

  lemma {:induction false} TotalDrops<K(!new), V>(s: System<K, V>, e: Event<K, V>, n: nat)
    requires Valid(s) && Enabled(s, e) && Internal(e) && n <= |s.callers|
    ensures |Next(s, e).callers| == |s.callers|
    ensures Total(Next(s, e), n) <= Total(s, n)
    ensures Actor(e) < n ==> Total(Next(s, e), n) < Total(s, n)
  {
    ActorLosesWeight(s, e);
    if n > 0 {
      TotalDrops(s, e, n - 1);
      if n - 1 != Actor(e) { OthersGainNoWeight(s, e, n - 1); }
    }
  }

  /** Without new arrivals and aborts a run can only be as long as the weight of the state it starts in. */
  lemma {:induction false} QuietRunsAreShort<K(!new), V>(s: System<K, V>, es: seq<Event<K, V>>)
    requires Valid(s) && IsRun(s, es) && forall e :: e in es ==> Internal(e)
    ensures |After(s, es).callers| == |s.callers|
    ensures |es| + Total(After(s, es), |s.callers|) <= Total(s, |s.callers|)
    decreases |es|
  {
    if es != [] {
      var e := es[0];
      assert e in es;
      NextKeepsValid(s, e);
      TotalDrops(s, e, |s.callers|);
      QuietRunsAreShort(Next(s, e), es[1..]);
    }
  }

  /** No deadlock: as long as one call is in flight, some internal step is possible. */
  lemma SomeoneCanMove<K(!new), V>(s: System<K, V>, i: nat, v: V) returns (e: Event<K, V>)
    requires Valid(s) && i < |s.callers| && !Settled(s, i)
    ensures Internal(e) && Enabled(s, e)
  {
    assert CallerValid(s, i);
    match s.callers[i].phase {
      case Start => e := Enter(i);
      case Running(c) => e := Finish(i, v);
      case Waiting(c, _) =>
        assert ChannelValid(s, c);
        e := if Polled(s, i).Blocked? then Finish(s.owners[c].caller, v) else Receive(i);
    }
  }

  /**
    Whatever interleaving with arrivals and aborts came before: internal steps alone are bounded in
    number, and when none is left every call has returned or was aborted.
  */
  lemma EveryCallReturns<K(!new), V>(persist: bool, capacity: nat, past: seq<Event<K, V>>, es: seq<Event<K, V>>, v: V)
    requires capacity > 0 && IsRun(Initial(persist, capacity), past)
    requires IsRun(Reached(persist, capacity, past), es) && forall e :: e in es ==> Internal(e)
    ensures var s := Reached(persist, capacity, past); |es| <= Total(s, |s.callers|)
    ensures var s := After(Reached(persist, capacity, past), es);
            (forall e :: Internal(e) ==> !Enabled(s, e)) ==> forall i :: 0 <= i < |s.callers| ==> Settled(s, i)
  {
    InitialValid<K, V>(persist, capacity);
    RunKeepsValid(Initial(persist, capacity), past);
    var before := Reached(persist, capacity, past);
    RunKeepsValid(before, es);
    QuietRunsAreShort(before, es);
    var s := After(before, es);
    forall i | 0 <= i < |s.callers| && !Settled(s, i) ensures exists e :: Internal(e) && Enabled(s, e) {
      var e := SomeoneCanMove(s, i, v);
    }
  }
}
