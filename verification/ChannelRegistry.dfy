/**
  The registry itself: the map from channels to broadcast senders, and what each subscriber holds.
*/
module ChannelRegistry {
  import opened ChannelProtocol

  lemma ListenerCounts(s: System, i: nat)
    requires Valid(s) && PhaseOf(s, i).Listening?
    ensures Enabled(s, DropReceiver(i))
  {
    assert SubscriberOk(s, i);
    assert i in Listeners(s.subscribers, s.subscribers[i].sender);
  }

  /** A channel survives the drop of a guard only if somebody listens to it. */
  lemma DroppedUnlessHeard(s: System, i: nat)
    requires Valid(s) && Enabled(s, DropGuard(i))
    ensures var s', channel := Next(s, DropGuard(i)), s.subscribers[i].channel;
            channel in s'.entries ==> Listeners(s'.subscribers, s'.entries[channel]) != {}
  {
    DropGuardKeepsValid(s, i);
    var s', channel := Next(s, DropGuard(i)), s.subscribers[i].channel;
    if channel in s'.entries {
      assert s'.senders[s'.entries[channel]].receivers == |Listeners(s'.subscribers, s'.entries[channel])|;
    }
  }

  lemma ListenersWithout(s: System, i: nat, channel: string)
    requires Valid(s) && PhaseOf(s, i).Listening?
    ensures Enabled(s, DropReceiver(i)) && Valid(Next(s, DropReceiver(i)))
    ensures channel in s.entries ==>
              (Next(s, DropReceiver(i)).senders[s.entries[channel]].receivers == 0 <==>
               Listeners(s.subscribers, s.entries[channel]) <= {i})
  {
    ListenerCounts(s, i);
    var s' := Next(s, DropReceiver(i));
    DropReceiverKeepsValid(s, i);
    if channel in s.entries {
      var c := s.entries[channel];
      assert Listeners(s'.subscribers, c) == Listeners(s.subscribers, c) - {i};
      assert s'.senders[c].receivers == |Listeners(s'.subscribers, c)|;
    }
  }

  class Registry {
    var entries: map<string, nat>
    var senders: seq<Sender>
    var subscribers: seq<Subscriber>

    ghost function Sys(): System
      reads this
    {
      System(entries, senders, subscribers)
    }

    constructor ()
      ensures Sys() == Initial() && Valid(Sys())
    {
      entries, senders, subscribers := map[], [], [];
    }

    /** Finds the channel's sender, or enters a new one; the guard comes with the subscriber. */
    method RegisterSubscriber(channel: string) returns (i: nat)
      requires Valid(Sys())
      modifies this
      ensures Sys() == Next(old(Sys()), Register(channel)) && Valid(Sys())
      ensures i == |old(subscribers)| && |subscribers| == i + 1 && subscribers[..i] == old(subscribers)
      ensures subscribers[i].channel == channel && subscribers[i].phase.Registered? && Attached(Sys(), i)
      ensures channel in old(entries) ==> entries == old(entries) && senders == old(senders)
      ensures channel !in old(entries) ==>
                && entries == old(entries)[channel := |old(senders)|] && |senders| == |old(senders)| + 1
                && senders[..|old(senders)|] == old(senders) && senders[|old(senders)|] == Sender(channel, [], 0)
    {
      NextKeepsValid(Sys(), Register(channel));
      var c;
      if channel in entries {
        c := entries[channel];
      } else {
        c := |senders|;
        senders := senders + [Sender(channel, [], 0)];
        entries := entries[channel := c];
      }
      i := |subscribers|;
      subscribers := subscribers + [Subscriber(channel, c, Registered)];
    }

    /** `tx.subscribe()`: a receiver that starts behind the last message. */
    method Receiver(i: nat)
      requires Valid(Sys()) && Enabled(Sys(), Listen(i))
      modifies this
      ensures Sys() == Next(old(Sys()), Listen(i)) && Valid(Sys())
    {
      NextKeepsValid(Sys(), Listen(i));
      var c := subscribers[i].sender;
      subscribers := subscribers[i := subscribers[i].(phase := Listening(|senders[c].sent|, |senders[c].sent|, []))];
      senders := senders[c := senders[c].(receivers := senders[c].receivers + 1)];
    }

    /** The next item of a stream that has something to read: a message, or the number of missed ones. */
    method NextItem(i: nat) returns (item: Item)
      requires Valid(Sys()) && Enabled(Sys(), Read(i))
      modifies this
      ensures Sys() == Next(old(Sys()), Read(i)) && Valid(Sys())
      ensures PhaseOf(Sys(), i).items == PhaseOf(old(Sys()), i).items + [item]
      ensures var sent, position := senders[subscribers[i].sender].sent, old(PhaseOf(Sys(), i).position);
              && position < |sent|
              && (|sent| - position <= BROADCAST_CAPACITY ==>
                    item == Message(sent[position]) && PhaseOf(Sys(), i).position == position + 1)
              && (|sent| - position > BROADCAST_CAPACITY ==>
                    && item == Lagged(|sent| - position - BROADCAST_CAPACITY)
                    && PhaseOf(Sys(), i).position == |sent| - BROADCAST_CAPACITY)
    {
      NextKeepsValid(Sys(), Read(i));
      hide Valid;
      var sent, phase := senders[subscribers[i].sender].sent, subscribers[i].phase;
      var position := phase.position;
      if |sent| - position > BROADCAST_CAPACITY {
        item := Lagged(|sent| - position - BROADCAST_CAPACITY);
        position := |sent| - BROADCAST_CAPACITY;
      } else {
        item := Message(sent[position]);
        position := position + 1;
      }
      subscribers := subscribers[i := subscribers[i].(phase :=
          phase.(position := position, items := phase.items + [item]))];
    }

    method ReleaseReceiver(i: nat)
      requires Valid(Sys()) && PhaseOf(Sys(), i).Listening?
      modifies this
      ensures Enabled(old(Sys()), DropReceiver(i)) && Sys() == Next(old(Sys()), DropReceiver(i)) && Valid(Sys())
    {
      ListenerCounts(Sys(), i);
      NextKeepsValid(Sys(), DropReceiver(i));
      var c := subscribers[i].sender;
      subscribers := subscribers[i := subscribers[i].(phase := Deaf)];
      senders := senders[c := senders[c].(receivers := senders[c].receivers - 1)];
    }

    /** Dropping a guard removes the channel if the sender in the map has no receivers. */
    method ReleaseGuard(i: nat)
      requires Valid(Sys()) && Enabled(Sys(), DropGuard(i))
      modifies this
      ensures Sys() == Next(old(Sys()), DropGuard(i)) && Valid(Sys())
      ensures PhaseOf(Sys(), i).Gone? && senders == old(senders)
      ensures var channel := old(subscribers[i].channel);
              entries == if channel in old(entries) && Listeners(old(subscribers), old(entries[channel])) == {}
                         then old(entries) - {channel} else old(entries)
    {
      assert CountsOk(Sys());
      NextKeepsValid(Sys(), DropGuard(i));
      var channel := subscribers[i].channel;
      if channel in entries && senders[entries[channel]].receivers == 0 {
        entries := entries - {channel};
      }
      subscribers := subscribers[i := subscribers[i].(phase := Gone)];
    }

    /** A subscription stream goes away: first its receiver, then its guard. */
    method CloseStream(i: nat)
      requires Valid(Sys()) && PhaseOf(Sys(), i).Listening?
      modifies this
      ensures Valid(Sys()) && PhaseOf(Sys(), i).Gone?
      ensures var s, channel := old(Sys()), old(subscribers[i].channel);
              entries == if channel in s.entries && Listeners(s.subscribers, s.entries[channel]) <= {i}
                         then s.entries - {channel} else s.entries
    {
      var channel := subscribers[i].channel;
      assert SubscriberOk(Sys(), i);
      ListenersWithout(Sys(), i, channel);
      ReleaseReceiver(i);
      ReleaseGuard(i);
    }

    /**
      The rest of a subscription, behind its awaits and whatever others did meanwhile: without a connection, or if
      the server refuses, the guard is dropped; otherwise the subscriber listens.
    */
    method FinishSubscribe(i: nat, connected: bool, accepted: bool) returns (listening: bool)
      requires Valid(Sys()) && PhaseOf(Sys(), i).Registered?
      modifies this
      ensures Valid(Sys()) && listening == (connected && accepted)
      ensures Enabled(old(Sys()), Listen(i)) && Enabled(old(Sys()), DropGuard(i))
      ensures Sys() == Next(old(Sys()), if listening then Listen(i) else DropGuard(i))
      ensures listening ==> (Attached(Sys(), i) <==> Attached(old(Sys()), i))
      ensures !listening ==>
                var channel := subscribers[i].channel;
                channel in entries ==> Listeners(subscribers, entries[channel]) != {}
    {
      assert SubscriberOk(Sys(), i);
      if !connected || !accepted {
        DroppedUnlessHeard(Sys(), i);
        ReleaseGuard(i);
        return false;
      }
      Receiver(i);
      return true;
    }

    /** Hands a message to the receivers of the channel's sender. */
    method SendNotification(channel: string, message: string)
      requires Valid(Sys())
      modifies this
      ensures Sys() == Next(old(Sys()), Notify(channel, message)) && Valid(Sys())
      ensures entries == old(entries) && subscribers == old(subscribers) && |senders| == |old(senders)|
      ensures forall c :: 0 <= c < |senders| ==>
                senders[c].sent == old(senders)[c].sent +
                if channel in entries && entries[channel] == c then [message] else []
    {
      NextKeepsValid(Sys(), Notify(channel, message));
      NotifyMeaning(Sys(), channel, message);
      if channel in entries {
        var c := entries[channel];
        senders := senders[c := senders[c].(sent := senders[c].sent + [message])];
      }
    }
  }
}
