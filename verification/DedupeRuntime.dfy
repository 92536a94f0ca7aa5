/**
  The calls of one `Dedupe` as an executor drives them. Polling a call runs its loop until it returns
  a value or has to wait; every poll is a run of the protocol in which only that call takes steps.
*/
module DedupeRuntime {
  import opened Options
  import opened Dedupe
  import opened DedupeProtocol
  import opened DedupeProgress

  lemma {:induction false} RunAppend<K, V>(s: System<K, V>, es: seq<Event<K, V>>, e: Event<K, V>)
    requires IsRun(s, es) && Enabled(After(s, es), e)
    ensures IsRun(s, es + [e]) && After(s, es + [e]) == Next(After(s, es), e)
    decreases |es|
  {
    if es == [] {
      assert (es + [e])[1..] == [];
    } else {
      RunAppend(Next(s, es[0]), es[1..], e);
      assert (es + [e])[1..] == es[1..] + [e];
    }
  }

  class Runtime<K(==, !new), V> {
    const dedupe: Dedupe<K, V>
    var callers: seq<Caller<K, V>>
    ghost var owners: seq<Owner<K>>

    ghost function Sys(): System<K, V>
      reads this, dedupe
    {
      System(dedupe.persist, dedupe.size, dedupe.Abs(), callers, owners)
    }

    constructor (size: nat, persist: bool)
      requires size > 0
      ensures fresh(dedupe) && Sys() == Initial(persist, size) && Valid(Sys())
    {
      dedupe := new Dedupe(size, persist);
      callers, owners := [], [];
      new;
      InitialValid<K, V>(persist, size);
    }

    method Arrive(key: K) returns (i: nat)
      requires Valid(Sys())
      modifies this
      ensures Sys() == Next(old(Sys()), DedupeProtocol.Arrive(key)) && Valid(Sys())
      ensures i == |old(callers)|
    {
      NextKeepsValid(Sys(), DedupeProtocol.Arrive(key));
      i := |callers|;
      callers := callers + [Caller(key, Start, [])];
    }

    method Enter(i: nat)
      requires Valid(Sys()) && Enabled(Sys(), DedupeProtocol.Enter(i))
      modifies this, dedupe
      ensures Sys() == Next(old(Sys()), DedupeProtocol.Enter(i)) && Valid(Sys())
    {
      NextKeepsValid(Sys(), DedupeProtocol.Enter(i));
      var key := callers[i].key;
      var step := dedupe.Step(key);
      match step {
        case Return(v) => callers := callers[i := callers[i].(phase := Done(v, None))];
        case Await(c, position) => callers := callers[i := callers[i].(phase := Waiting(c, position))];
        case Init(c) =>
          callers := callers[i := callers[i].(phase := Running(c))];
          owners := owners + [Owner(i, key)];
      }
    }

    method Finish(i: nat, v: V)
      requires Valid(Sys()) && Enabled(Sys(), DedupeProtocol.Finish(i, v))
      modifies this, dedupe
      ensures Sys() == Next(old(Sys()), DedupeProtocol.Finish(i, v)) && Valid(Sys())
    {
      NextKeepsValid(Sys(), DedupeProtocol.Finish(i, v));
      var c := callers[i].phase.chan;
      dedupe.Complete(callers[i].key, c, v);
      callers := callers[i := callers[i].(phase := Done(v, Some(c)))];
    }

    method Receive(i: nat)
      requires Valid(Sys()) && Enabled(Sys(), DedupeProtocol.Receive(i))
      modifies this
      ensures Sys() == Next(old(Sys()), DedupeProtocol.Receive(i)) && Valid(Sys())
    {
      NextKeepsValid(Sys(), DedupeProtocol.Receive(i));
      assert CallerValid(Sys(), i);
      var c := callers[i].phase.chan;
      var received := ReceiveOf(dedupe.chans[c], callers[i].phase.position, dedupe.size);
      if received.Value? {
        callers := callers[i := callers[i].(phase := Done(received.value, Some(c)))];
      } else {
        callers := callers[i := Caller(callers[i].key, Start, callers[i].failed + [c])];
      }
    }

    method Abort(i: nat)
      requires Valid(Sys()) && Enabled(Sys(), DedupeProtocol.Abort(i))
      modifies this, dedupe
      ensures Sys() == Next(old(Sys()), DedupeProtocol.Abort(i)) && Valid(Sys())
    {
      NextKeepsValid(Sys(), DedupeProtocol.Abort(i));
      if callers[i].phase.Running? {
        var c := callers[i].phase.chan;
        dedupe.DropSender(c);
        callers := callers[i := callers[i].(phase := Aborted(Some(c)))];
      } else {
        callers := callers[i := callers[i].(phase := Aborted(None))];
      }
    }

    ghost predicate HasToWait(i: nat, ready: Option<V>)
      reads this, dedupe
      requires i < |callers|
    {
      || (callers[i].phase.Running? && ready.None?)
      || (callers[i].phase.Waiting? && Polled(Sys(), i).Blocked?)
    }

    /** One round of the loop: the next step of call `i`, unless it has to wait. */
    method Advance(i: nat, ready: Option<V>) returns (moved: bool, ghost e: Event<K, V>)
      requires Valid(Sys()) && i < |callers| && !Settled(Sys(), i)
      modifies this, dedupe
      ensures Valid(Sys()) && i < |callers|
      ensures moved ==>
                && Internal(e) && Actor(e) == i && Enabled(old(Sys()), e) && Sys() == Next(old(Sys()), e)
                && Weight(Sys(), i) < Weight(old(Sys()), i)
                && !callers[i].phase.Aborted?
      ensures !moved ==> Sys() == old(Sys()) && HasToWait(i, ready)
    {
      assert CallerValid(Sys(), i);
      e := DedupeProtocol.Enter(i);
      moved := true;
      match callers[i].phase {
        case Start =>
          ActorLosesWeight(Sys(), e);
          Enter(i);
        case Running(_) =>
          if ready.Some? {
            e := DedupeProtocol.Finish(i, ready.value);
            ActorLosesWeight(Sys(), e);
            Finish(i, ready.value);
          } else {
            moved := false;
          }
        case Waiting(c, position) =>
          if !ReceiveOf(dedupe.chans[c], position, dedupe.size).Blocked? {
            e := DedupeProtocol.Receive(i);
            ActorLosesWeight(Sys(), e);
            Receive(i);
          } else {
            moved := false;
          }
      }
    }

    /** The loop of `dedupe`; `ready` is the result of the operation if this call runs it and it is done. */
    method Poll(i: nat, ready: Option<V>) returns (result: Option<V>, ghost es: seq<Event<K, V>>)
      requires Valid(Sys()) && i < |callers| && !Settled(Sys(), i)
      modifies this, dedupe
      ensures IsRun(old(Sys()), es) && Sys() == After(old(Sys()), es) && Valid(Sys())
      ensures forall e :: e in es ==> Internal(e) && Actor(e) == i
      ensures i < |callers|
      ensures result.Some? ==> callers[i].phase.Done? && callers[i].phase.value == result.value
      ensures result.None? ==> HasToWait(i, ready)
    {
      es := [];
      while true
        invariant IsRun(old(Sys()), es) && Sys() == After(old(Sys()), es) && Valid(Sys())
        invariant forall e :: e in es ==> Internal(e) && Actor(e) == i
        invariant i < |callers| && !Settled(Sys(), i)
        decreases Weight(Sys(), i)
      {
        var moved;
        ghost var e;
        moved, e := Advance(i, ready);
        if !moved {
          return None, es;
        }
        RunAppend(old(Sys()), es, e);
        es := es + [e];
        if callers[i].phase.Done? {
          return Some(callers[i].phase.value), es;
        }
      }
    }
  }
}
