/**
  The channel registry behind pub/sub subscriptions, as a protocol. Subscribers of one channel share a
  broadcast sender; a guard per subscriber removes the channel when its sender has no receivers left.
*/
module ChannelProtocol {
  import opened Sequences

  /** A broadcast sender with the messages sent so far and the number of its receivers. */
  datatype Sender = Sender(channel: string, sent: seq<string>, receivers: nat)

  /** How many messages a broadcast channel keeps for a receiver that is behind. */
  const BROADCAST_CAPACITY: nat := 256

  /** What a subscription stream yields: a message, or an error that tells how many messages were missed. */
  datatype Item = Message(message: string) | Lagged(missed: nat)

  /**
    `Registered` holds a guard and a sender but no receiver yet; `Listening` has a receiver, which started at
    some position of the sender's messages, has moved on, and has yielded items; `Deaf` has dropped the
    receiver and still holds the guard.
  */
  datatype Phase = Registered | Listening(start: nat, position: nat, items: seq<Item>) | Deaf | Gone

  datatype Subscriber = Subscriber(channel: string, sender: nat, phase: Phase)

  datatype System = System(entries: map<string, nat>, senders: seq<Sender>, subscribers: seq<Subscriber>)

  datatype Event =
    | Register(channel: string)
    | Listen(i: nat)
    | DropReceiver(i: nat)
    | DropGuard(i: nat)
    | Read(i: nat)
    | Notify(channel: string, message: string)

  function Initial(): System {
    System(map[], [], [])
  }

  /** One read of a receiver that is behind `sent`: the next message, or a jump to the oldest one that is kept. */
  function AfterRead(sent: seq<string>, phase: Phase): Phase
    requires phase.Listening? && phase.position < |sent|
  {
    var behind := |sent| - phase.position;
    if behind > BROADCAST_CAPACITY
    then phase.(position := |sent| - BROADCAST_CAPACITY, items := phase.items + [Lagged(behind - BROADCAST_CAPACITY)])
    else phase.(position := phase.position + 1, items := phase.items + [Message(sent[phase.position])])
  }

  function PhaseOf(s: System, i: nat): Phase {
    if i < |s.subscribers| then s.subscribers[i].phase else Gone
  }

  /** A guard goes last: after its receiver, or instead of it when subscribing fails. */
  predicate Enabled(s: System, e: Event) {
    match e
    case Register(_) => true
    case Listen(i) => PhaseOf(s, i).Registered? && s.subscribers[i].sender < |s.senders|
    case DropReceiver(i) => PhaseOf(s, i).Listening? && s.subscribers[i].sender < |s.senders| &&
                            s.senders[s.subscribers[i].sender].receivers > 0
    case DropGuard(i) => PhaseOf(s, i).Registered? || PhaseOf(s, i).Deaf?
    case Read(i) => PhaseOf(s, i).Listening? && s.subscribers[i].sender < |s.senders| &&
                    PhaseOf(s, i).position < |s.senders[s.subscribers[i].sender].sent|
    case Notify(_, _) => true
  }

  predicate Idle(s: System, channel: string) {
    channel in s.entries && s.entries[channel] < |s.senders| && s.senders[s.entries[channel]].receivers == 0
  }

  function Next(s: System, e: Event): System
    requires Enabled(s, e)
  {
    match e
    case Register(channel) =>
      if channel in s.entries then
        s.(subscribers := s.subscribers + [Subscriber(channel, s.entries[channel], Registered)])
      else
        System(s.entries[channel := |s.senders|], s.senders + [Sender(channel, [], 0)],
               s.subscribers + [Subscriber(channel, |s.senders|, Registered)])
    case Listen(i) =>
      var c := s.subscribers[i].sender;
      s.(senders := s.senders[c := s.senders[c].(receivers := s.senders[c].receivers + 1)],
         subscribers := s.subscribers[i :=
             s.subscribers[i].(phase := Listening(|s.senders[c].sent|, |s.senders[c].sent|, []))])
    case DropReceiver(i) =>
      var c := s.subscribers[i].sender;
      s.(senders := s.senders[c := s.senders[c].(receivers := s.senders[c].receivers - 1)],
         subscribers := s.subscribers[i := s.subscribers[i].(phase := Deaf)])
    case DropGuard(i) =>
      var channel := s.subscribers[i].channel;
      s.(entries := if Idle(s, channel) then s.entries - {channel} else s.entries,
         subscribers := s.subscribers[i := s.subscribers[i].(phase := Gone)])
    case Read(i) =>
      var sent := s.senders[s.subscribers[i].sender].sent;
      s.(subscribers := s.subscribers[i := s.subscribers[i].(phase := AfterRead(sent, s.subscribers[i].phase))])
    case Notify(channel, message) =>
      if channel in s.entries && s.entries[channel] < |s.senders| then
        var c := s.entries[channel];
        s.(senders := s.senders[c := s.senders[c].(sent := s.senders[c].sent + [message])])
      else s
  }

  predicate IsRun(s: System, es: seq<Event>)
    decreases |es|
  {
    es != [] ==> Enabled(s, es[0]) && IsRun(Next(s, es[0]), es[1..])
  }

  function After(s: System, es: seq<Event>): System
    requires IsRun(s, es)
    decreases |es|
  {
    if es == [] then s else After(Next(s, es[0]), es[1..])
  }

  // ---------------------------------------------------------------------------------------------
  // The invariant

  /** The sender of subscriber `i` is the one the map holds for its channel. */
  predicate Attached(s: System, i: nat)
    requires i < |s.subscribers|
  {
    s.subscribers[i].channel in s.entries && s.entries[s.subscribers[i].channel] == s.subscribers[i].sender
  }

  /** Some guard of the channel, for the very sender in the map, is still alive. */
  ghost predicate Guarded(s: System, channel: string)
    requires channel in s.entries
  {
    exists i :: 0 <= i < |s.subscribers| && s.subscribers[i].channel == channel &&
                s.subscribers[i].sender == s.entries[channel] && !s.subscribers[i].phase.Gone?
  }

  ghost function Listeners(subscribers: seq<Subscriber>, c: nat): set<nat> {
    set i | 0 <= i < |subscribers| && subscribers[i].sender == c && subscribers[i].phase.Listening?
  }

  ghost predicate MapOk(s: System) {
    forall channel :: channel in s.entries ==>
      s.entries[channel] < |s.senders| && s.senders[s.entries[channel]].channel == channel && Guarded(s, channel)
  }

  /** The messages that were sent to a listening subscriber so far. */
  function SentTo(s: System, i: nat): seq<string>
    requires i < |s.subscribers| && s.subscribers[i].sender < |s.senders| && s.subscribers[i].phase.Listening?
    requires s.subscribers[i].phase.start <= |s.senders[s.subscribers[i].sender].sent|
  {
    s.senders[s.subscribers[i].sender].sent[s.subscribers[i].phase.start..]
  }

  /** The items tell of every message from `start` to `position`, in order: it is there, or counted as missed. */
  ghost predicate Accounts(sent: seq<string>, start: nat, position: nat, items: seq<Item>)
    decreases |items|
  {
    if items == [] then position == start
    else
      var front, last := items[..|items| - 1], items[|items| - 1];
      match last
      case Message(m) => 0 < position <= |sent| && sent[position - 1] == m && Accounts(sent, start, position - 1, front)
      case Lagged(n) => 0 < n <= position && Accounts(sent, start, position - n, front)
  }

  ghost predicate SubscriberOk(s: System, i: nat)
    requires i < |s.subscribers|
  {
    var subscriber := s.subscribers[i];
    && subscriber.sender < |s.senders|
    && s.senders[subscriber.sender].channel == subscriber.channel
    && (subscriber.phase.Listening? ==>
         var phase, sent := subscriber.phase, s.senders[subscriber.sender].sent;
         phase.start <= phase.position <= |sent| && Accounts(sent, phase.start, phase.position, phase.items))
  }

  ghost predicate CountsOk(s: System) {
    forall c :: 0 <= c < |s.senders| ==> s.senders[c].receivers == |Listeners(s.subscribers, c)|
  }

  ghost predicate Valid(s: System) {
    && MapOk(s)
    && (forall i :: 0 <= i < |s.subscribers| ==> SubscriberOk(s, i))
    && CountsOk(s)
  }

  lemma NewSubscriber(subscribers: seq<Subscriber>, subscriber: Subscriber, c: nat)
    requires !subscriber.phase.Listening?
    ensures Listeners(subscribers + [subscriber], c) == Listeners(subscribers, c)
  {
  }

  lemma ChangedSubscriber(subscribers: seq<Subscriber>, i: nat, subscriber: Subscriber, c: nat)
    requires i < |subscribers| && subscriber.sender == subscribers[i].sender
    ensures var before, now := Listeners(subscribers, c), Listeners(subscribers[i := subscriber], c);
            |now| + (if i in before then 1 else 0) == |before| + (if i in now then 1 else 0)
  {
    var before, now := Listeners(subscribers, c), Listeners(subscribers[i := subscriber], c);
    assert before - {i} == now - {i};
    assert i in before ==> before == (before - {i}) + {i};
    assert i in now ==> now == (now - {i}) + {i};
  }

  /** A sender without receivers has no listener. */
  lemma NoListeners(s: System, c: nat, i: nat)
    requires CountsOk(s) && c < |s.senders| && s.senders[c].receivers == 0
    requires i < |s.subscribers| && s.subscribers[i].sender == c
    ensures !s.subscribers[i].phase.Listening?
  {
    assert i !in Listeners(s.subscribers, c);
  }

  lemma NobodyListensYet(s: System)
    requires Valid(s)
    ensures Listeners(s.subscribers, |s.senders|) == {}
  {
    forall i | 0 <= i < |s.subscribers| ensures s.subscribers[i].sender != |s.senders| {
      assert SubscriberOk(s, i);
    }
  }

  lemma RegisterKeepsValid(s: System, channel: string)
    requires Valid(s)
    ensures Valid(Next(s, Register(channel)))
  {
    var s' := Next(s, Register(channel));
    var n := |s.subscribers|;
    forall c | 0 <= c < |s'.senders| ensures s'.senders[c].receivers == |Listeners(s'.subscribers, c)| {
      NewSubscriber(s.subscribers, s'.subscribers[n], c);
      if c == |s.senders| { NobodyListensYet(s); }
    }
    forall ch | ch in s'.entries
      ensures s'.entries[ch] < |s'.senders| && s'.senders[s'.entries[ch]].channel == ch && Guarded(s', ch)
    {
      if ch in s.entries {
        var i :| 0 <= i < n && s.subscribers[i].channel == ch &&
                 s.subscribers[i].sender == s.entries[ch] && !s.subscribers[i].phase.Gone?;
        assert s'.subscribers[i] == s.subscribers[i];
      } else {
        assert s'.subscribers[n].channel == ch;
      }
    }
    forall i | 0 <= i < |s'.subscribers| ensures SubscriberOk(s', i) {
      if i < n { assert SubscriberOk(s, i); }
    }
  }

  lemma ListenKeepsValid(s: System, i: nat)
    requires Valid(s) && Enabled(s, Listen(i))
    ensures Valid(Next(s, Listen(i)))
  {
    var s' := Next(s, Listen(i));
    forall c | 0 <= c < |s'.senders| ensures s'.senders[c].receivers == |Listeners(s'.subscribers, c)| {
      ChangedSubscriber(s.subscribers, i, s'.subscribers[i], c);
    }
    SamePhasesGuard(s, s');
    forall j | 0 <= j < |s'.subscribers| ensures SubscriberOk(s', j) {
      assert SubscriberOk(s, j);
    }
  }

  lemma DropReceiverKeepsValid(s: System, i: nat)
    requires Valid(s) && Enabled(s, DropReceiver(i))
    ensures Valid(Next(s, DropReceiver(i)))
  {
    var s' := Next(s, DropReceiver(i));
    forall c | 0 <= c < |s'.senders| ensures s'.senders[c].receivers == |Listeners(s'.subscribers, c)| {
      ChangedSubscriber(s.subscribers, i, s'.subscribers[i], c);
    }
    SamePhasesGuard(s, s');
    forall j | 0 <= j < |s'.subscribers| ensures SubscriberOk(s', j) {
      assert SubscriberOk(s, j);
    }
  }

  /** As long as no guard goes away, every channel in the map stays guarded. */
  lemma SamePhasesGuard(s: System, s': System)
    requires MapOk(s) && s'.entries == s.entries && |s'.subscribers| == |s.subscribers| && |s'.senders| == |s.senders|
    requires forall c :: 0 <= c < |s.senders| ==> s'.senders[c].channel == s.senders[c].channel
    requires forall i :: 0 <= i < |s.subscribers| ==>
               s'.subscribers[i].channel == s.subscribers[i].channel &&
               s'.subscribers[i].sender == s.subscribers[i].sender &&
               (s'.subscribers[i].phase.Gone? ==> s.subscribers[i].phase.Gone?)
    ensures MapOk(s')
  {
    forall ch | ch in s'.entries ensures Guarded(s', ch) {
      var i :| 0 <= i < |s.subscribers| && s.subscribers[i].channel == ch &&
               s.subscribers[i].sender == s.entries[ch] && !s.subscribers[i].phase.Gone?;
      assert s'.subscribers[i].channel == ch;
    }
  }

  /** A channel that stays in the map has a listener, and that listener has a guard of its own. */
  lemma DropGuardKeepsGuarded(s: System, i: nat, channel: string)
    requires Valid(s) && Enabled(s, DropGuard(i)) && channel in Next(s, DropGuard(i)).entries
    ensures Guarded(Next(s, DropGuard(i)), channel)
  {
    var s' := Next(s, DropGuard(i));
    if channel == s.subscribers[i].channel {
      var c := s.entries[channel];
      assert Listeners(s.subscribers, c) != {};
      var j :| j in Listeners(s.subscribers, c);
      assert SubscriberOk(s, j);
      assert s'.subscribers[j] == s.subscribers[j];
    } else {
      var j :| 0 <= j < |s.subscribers| && s.subscribers[j].channel == channel &&
               s.subscribers[j].sender == s.entries[channel] && !s.subscribers[j].phase.Gone?;
      assert s'.subscribers[j] == s.subscribers[j];
    }
  }

  lemma DropGuardKeepsValid(s: System, i: nat)
    requires Valid(s) && Enabled(s, DropGuard(i))
    ensures Valid(Next(s, DropGuard(i)))
  {
    var s' := Next(s, DropGuard(i));
    forall c | 0 <= c < |s'.senders| ensures s'.senders[c].receivers == |Listeners(s'.subscribers, c)| {
      ChangedSubscriber(s.subscribers, i, s'.subscribers[i], c);
    }
    forall ch | ch in s'.entries ensures Guarded(s', ch) {
      DropGuardKeepsGuarded(s, i, ch);
    }
    forall j | 0 <= j < |s'.subscribers| ensures SubscriberOk(s', j) {
      assert SubscriberOk(s, j);
    }
  }

  lemma {:induction false} AccountsOn(sent: seq<string>, more: seq<string>, start: nat, position: nat, items: seq<Item>)
    requires Accounts(sent, start, position, items)
    ensures Accounts(sent + more, start, position, items)
    decreases |items|
  {
    if items != [] {
      var front, last := items[..|items| - 1], items[|items| - 1];
      AccountsOn(sent, more, start, if last.Message? then position - 1 else position - last.missed, front);
    }
  }

  lemma NotifyKeepsValid(s: System, channel: string, message: string)
    requires Valid(s)
    ensures Valid(Next(s, Notify(channel, message)))
  {
    var s' := Next(s, Notify(channel, message));
    SamePhasesGuard(s, s');
    forall j | 0 <= j < |s'.subscribers| ensures SubscriberOk(s', j) {
      assert SubscriberOk(s, j);
      var subscriber := s.subscribers[j];
      if subscriber.phase.Listening? {
        AccountsOn(s.senders[subscriber.sender].sent, [message], subscriber.phase.start, subscriber.phase.position,
                   subscriber.phase.items);
      }
    }
  }

  lemma AccountsForOneMore(sent: seq<string>, start: nat, position: nat, items: seq<Item>, last: Item)
    requires Accounts(sent, start, position, items)
    requires last.Message? ==> position < |sent| && sent[position] == last.message
    requires last.Lagged? ==> last.missed > 0
    ensures Accounts(sent, start, position + (if last.Message? then 1 else last.missed), items + [last])
  {
    assert (items + [last])[..|items|] == items;
  }

  lemma ReadAccounts(sent: seq<string>, phase: Phase)
    requires phase.Listening? && phase.start <= phase.position < |sent|
    requires Accounts(sent, phase.start, phase.position, phase.items)
    ensures var phase' := AfterRead(sent, phase);
            && phase'.start == phase.start && phase.position < phase'.position <= |sent|
            && Accounts(sent, phase.start, phase'.position, phase'.items)
  {
    var behind := |sent| - phase.position;
    var last := if behind > BROADCAST_CAPACITY then Lagged(behind - BROADCAST_CAPACITY)
                else Message(sent[phase.position]);
    AccountsForOneMore(sent, phase.start, phase.position, phase.items, last);
    hide Accounts;
  }

  lemma ReadKeepsValid(s: System, i: nat)
    requires Valid(s) && Enabled(s, Read(i))
    ensures Valid(Next(s, Read(i)))
  {
    var s' := Next(s, Read(i));
    assert SubscriberOk(s, i);
    ReadAccounts(s.senders[s.subscribers[i].sender].sent, s.subscribers[i].phase);
    forall c | 0 <= c < |s'.senders| ensures s'.senders[c].receivers == |Listeners(s'.subscribers, c)| {
      ChangedSubscriber(s.subscribers, i, s'.subscribers[i], c);
    }
    SamePhasesGuard(s, s');
    forall j | 0 <= j < |s'.subscribers| ensures SubscriberOk(s', j) {
      assert SubscriberOk(s, j);
    }
  }

  lemma NextKeepsValid(s: System, e: Event)
    requires Valid(s) && Enabled(s, e)
    ensures Valid(Next(s, e))
  {
    match e
    case Register(channel) => RegisterKeepsValid(s, channel);
    case Listen(i) => ListenKeepsValid(s, i);
    case DropReceiver(i) => DropReceiverKeepsValid(s, i);
    case DropGuard(i) => DropGuardKeepsValid(s, i);
    case Read(i) => ReadKeepsValid(s, i);
    case Notify(channel, message) => NotifyKeepsValid(s, channel, message);
  }

  lemma {:induction false} RunKeepsValid(s: System, es: seq<Event>)
    requires Valid(s) && IsRun(s, es)
    ensures Valid(After(s, es)) && |After(s, es).subscribers| >= |s.subscribers|
    decreases |es|
  {
    if es != [] {
      NextKeepsValid(s, es[0]);
      RunKeepsValid(Next(s, es[0]), es[1..]);
    }
  }

  // ---------------------------------------------------------------------------------------------
  // Main results

  /** No leak: every channel in the map has a live guard, and without guards the map is empty. */
  lemma NoLeak(es: seq<Event>)
    requires IsRun(Initial(), es)
    ensures var s := After(Initial(), es);
            && (forall channel :: channel in s.entries ==> Guarded(s, channel))
            && ((forall i :: 0 <= i < |s.subscribers| ==> s.subscribers[i].phase.Gone?) ==> s.entries == map[])
  {
    RunKeepsValid(Initial(), es);
    var s := After(Initial(), es);
    if s.entries != map[] {
      var channel :| channel in s.entries;
      assert Guarded(s, channel);
    }
  }

  /** The steps that end the subscription of `i`. */
  predicate Leaves(e: Event, i: nat) {
    e == DropReceiver(i) || e == DropGuard(i)
  }

  /** A listening subscriber that is attached stays attached, whatever the others do. */
  lemma ListenerStaysAttached(s: System, e: Event, i: nat)
    requires Valid(s) && Enabled(s, e) && i < |s.subscribers| && s.subscribers[i].phase.Listening? && !Leaves(e, i)
    ensures Attached(s, i) ==> Attached(Next(s, e), i)
  {
    assert SubscriberOk(s, i);
    if e.DropGuard? && Attached(s, i) && Idle(s, s.subscribers[i].channel) {
      NoListeners(s, s.subscribers[i].sender, i);
    }
  }

  /** A subscriber whose sender left the map never gets back in: senders are not reused. */
  lemma DetachedForever(s: System, e: Event, i: nat)
    requires Valid(s) && Enabled(s, e) && i < |s.subscribers| && !Attached(s, i)
    ensures !Attached(Next(s, e), i)
  {
    assert SubscriberOk(s, i);
  }

  /** The messages for a channel that come in during a run. */
  function MessagesFor(es: seq<Event>, channel: string): seq<string> {
    if es == [] then []
    else (if es[0].Notify? && es[0].channel == channel then [es[0].message] else []) + MessagesFor(es[1..], channel)
  }

  lemma MessagesOfFirst(es: seq<Event>, channel: string)
    requires es != []
    ensures MessagesFor(es, channel) == MessagesFor([es[0]], channel) + MessagesFor(es[1..], channel)
  {
  }

  lemma {:induction false} MessagesOfBoth(a: seq<Event>, b: seq<Event>, channel: string)
    ensures MessagesFor(a + b, channel) == MessagesFor(a, channel) + MessagesFor(b, channel)
  {
    if a == [] {
      assert a + b == b;
    } else {
      assert (a + b)[1..] == a[1..] + b;
      MessagesOfBoth(a[1..], b, channel);
    }
  }

  /** One event by itself: only a notification counts, and only for its own channel. */
  lemma MessagesOfOne(e: Event, channel: string)
    ensures MessagesFor([e], channel) == (match e case Notify(c, m) => if c == channel then [m] else [] case _ => [])
  {
    assert MessagesFor([], channel) == [];
  }

  /** A message reaches the sender in the map and no other; without a sender in the map it reaches nobody. */
  lemma NotifyMeaning(s: System, channel: string, message: string)
    requires Valid(s)
    ensures var s' := Next(s, Notify(channel, message));
            && s'.entries == s.entries && s'.subscribers == s.subscribers && |s'.senders| == |s.senders|
            && (channel !in s.entries ==> s' == s)
            && forall c :: 0 <= c < |s.senders| ==>
                 && s'.senders[c].channel == s.senders[c].channel && s'.senders[c].receivers == s.senders[c].receivers
                 && s'.senders[c].sent == s.senders[c].sent +
                    if channel in s.entries && s.entries[channel] == c then [message] else []
  {
    var s' := Next(s, Notify(channel, message));
    assert channel in s.entries ==> s.entries[channel] < |s.senders|;
    forall c | 0 <= c < |s.senders| && !(channel in s.entries && s.entries[channel] == c)
      ensures s'.senders[c].sent == s.senders[c].sent + []
    {
      assert s'.senders[c] == s.senders[c];
    }
  }

  /** The same receiver at the same sender, possibly further on. */
  ghost predicate SameListener(before: Subscriber, after: Subscriber) {
    && before.channel == after.channel && before.sender == after.sender
    && before.phase.Listening? && after.phase.Listening? && before.phase.start == after.phase.start
  }

  lemma ListenerStep(s: System, e: Event, i: nat)
    requires Valid(s) && Enabled(s, e) && i < |s.subscribers| && s.subscribers[i].phase.Listening? && !Leaves(e, i)
    ensures var s' := Next(s, e);
            && |s'.subscribers| >= |s.subscribers| && SubscriberOk(s, i) && SubscriberOk(s', i)
            && SameListener(s.subscribers[i], s'.subscribers[i])
            && SentTo(s', i) == SentTo(s, i) +
               if Attached(s, i) then MessagesFor([e], s.subscribers[i].channel) else []
  {
    NextKeepsValid(s, e);
    assert SubscriberOk(s, i);
    assert SubscriberOk(Next(s, e), i);
    assert MessagesFor([e], s.subscribers[i].channel) ==
           if e.Notify? && e.channel == s.subscribers[i].channel then [e.message] else [];
    hide MessagesFor, Valid, Accounts;
  }

  /** A subscriber starts with nothing sent to it and nothing yielded. */
  lemma ListenStartsEmpty(s: System, i: nat)
    requires Valid(s) && Enabled(s, Listen(i))
    ensures var s' := Next(s, Listen(i));
            && SubscriberOk(s', i) && s'.subscribers[i].phase.Listening?
            && SentTo(s', i) == [] && s'.subscribers[i].phase.items == []
    ensures Attached(Next(s, Listen(i)), i) <==> Attached(s, i)
  {
    ListenKeepsValid(s, i);
    assert SubscriberOk(Next(s, Listen(i)), i);
  }

  /**
    Over any run during which it keeps listening, a subscriber that is attached at the start is sent every
    message of its channel, once and in order; a detached one is sent none of them, ever.
  */
  lemma {:induction false} HearsAllOrNothing(s: System, es: seq<Event>, i: nat)
    requires Valid(s) && IsRun(s, es) && i < |s.subscribers| && s.subscribers[i].phase.Listening?
    requires forall e :: e in es ==> !Leaves(e, i)
    ensures var s' := After(s, es);
            && |s'.subscribers| >= |s.subscribers| && SubscriberOk(s, i) && SubscriberOk(s', i)
            && SameListener(s.subscribers[i], s'.subscribers[i])
            && (Attached(s', i) <==> Attached(s, i))
            && SentTo(s', i) == SentTo(s, i) +
               if Attached(s, i) then MessagesFor(es, s.subscribers[i].channel) else []
    decreases |es|
  {
    assert SubscriberOk(s, i);
    if es != [] {
      var e, channel := es[0], s.subscribers[i].channel;
      assert e in es;
      NextKeepsValid(s, e);
      ListenerStep(s, e, i);
      ListenerStaysAttached(s, e, i);
      if !Attached(s, i) { DetachedForever(s, e, i); }
      MessagesOfFirst(es, channel);
      hide Next, Enabled, Valid, SubscriberOk, Attached, MessagesFor;
      HearsAllOrNothing(Next(s, e), es[1..], i);
      Regroup(SentTo(s, i), MessagesFor([e], channel), MessagesFor(es[1..], channel));
    }
  }

  function Messages(sent: seq<string>): seq<Item> {
    seq(|sent|, k requires 0 <= k < |sent| => Message(sent[k]))
  }

  /** Without a lag the items are the messages themselves. */
  lemma {:induction false} NoLagMeansAll(sent: seq<string>, start: nat, position: nat, items: seq<Item>)
    requires Accounts(sent, start, position, items) && forall item :: item in items ==> item.Message?
    ensures start <= position && (position <= |sent| ==> items == Messages(sent[start..position]))
    decreases |items|
  {
    if items != [] {
      var n := |items| - 1;
      NoLagMeansAll(sent, start, position - 1, items[..n]);
      assert items == items[..n] + [items[n]];
      assert position <= |sent| ==>
          Messages(sent[start..position]) == Messages(sent[start..position - 1]) + [Message(sent[position - 1])];
    }
  }

  /** Some read of `i` happens while more messages are waiting than the channel keeps. */
  ghost predicate FallsBehind(s: System, es: seq<Event>, i: nat)
    requires IsRun(s, es)
    decreases |es|
  {
    es != [] &&
    (|| (es[0] == Read(i) &&
         |s.senders[s.subscribers[i].sender].sent| - s.subscribers[i].phase.position > BROADCAST_CAPACITY)
     || FallsBehind(Next(s, es[0]), es[1..], i))
  }

  predicate HasLagged(items: seq<Item>) {
    exists k :: 0 <= k < |items| && items[k].Lagged?
  }

  lemma OneMoreItem(items: seq<Item>, last: Item)
    ensures HasLagged(items + [last]) <==> HasLagged(items) || last.Lagged?
  {
    var all := items + [last];
    assert all[|items|] == last;
    assert forall k :: 0 <= k < |items| ==> all[k] == items[k];
  }

  lemma ItemsStep(s: System, e: Event, i: nat)
    requires Valid(s) && Enabled(s, e) && i < |s.subscribers| && s.subscribers[i].phase.Listening? && !Leaves(e, i)
    ensures |Next(s, e).subscribers| >= |s.subscribers| && Next(s, e).subscribers[i].phase.Listening?
    ensures HasLagged(Next(s, e).subscribers[i].phase.items) <==>
            || HasLagged(s.subscribers[i].phase.items)
            || (e == Read(i) &&
                |s.senders[s.subscribers[i].sender].sent| - s.subscribers[i].phase.position > BROADCAST_CAPACITY)
  {
    var before, after := s.subscribers[i].phase.items, Next(s, e).subscribers[i].phase.items;
    assert e != Read(i) ==> after == before;
    if e == Read(i) { OneMoreItem(before, after[|after| - 1]); }
    hide HasLagged;
  }

  /**
    A stream without lag errors so far yields one exactly when some read comes too late; until then
    its items are all messages that were sent to it, up to where it has read.
  */
  lemma {:induction false} LosesExactlyWhenBehind(s: System, es: seq<Event>, i: nat)
    requires Valid(s) && IsRun(s, es) && i < |s.subscribers| && s.subscribers[i].phase.Listening?
    requires forall e :: e in es ==> !Leaves(e, i)
    ensures var s' := After(s, es);
            && |s'.subscribers| >= |s.subscribers| && SubscriberOk(s', i) && s'.subscribers[i].phase.Listening?
            && (HasLagged(s'.subscribers[i].phase.items) <==>
                HasLagged(s.subscribers[i].phase.items) || FallsBehind(s, es, i))
            && (!HasLagged(s'.subscribers[i].phase.items) ==>
                 s'.subscribers[i].phase.items ==
                 Messages(SentTo(s', i)[..s'.subscribers[i].phase.position - s'.subscribers[i].phase.start]))
    decreases |es|
  {
    if es == [] {
      assert SubscriberOk(s, i);
      var phase, sent := s.subscribers[i].phase, s.senders[s.subscribers[i].sender].sent;
      if !HasLagged(phase.items) {
        NoLagMeansAll(sent, phase.start, phase.position, phase.items);
        assert sent[phase.start..][..phase.position - phase.start] == sent[phase.start..phase.position];
      }
    } else {
      assert es[0] in es;
      NextKeepsValid(s, es[0]);
      ItemsStep(s, es[0], i);
      LosesExactlyWhenBehind(Next(s, es[0]), es[1..], i);
    }
  }

  /** Nobody holds the sender any more: it is not in the map, and no subscriber is about to listen to it. */
  ghost predicate SenderGone(s: System, c: nat) {
    && (forall channel :: channel in s.entries ==> s.entries[channel] != c)
    && (forall j :: 0 <= j < |s.subscribers| && s.subscribers[j].sender == c ==> !s.subscribers[j].phase.Registered?)
  }

  /** The stream of `i` yields nothing more: everything was read and the sender is gone. */
  ghost predicate IsOver(s: System, i: nat)
    requires i < |s.subscribers| && s.subscribers[i].sender < |s.senders| && s.subscribers[i].phase.Listening?
  {
    SenderGone(s, s.subscribers[i].sender) &&
    s.subscribers[i].phase.position == |s.senders[s.subscribers[i].sender].sent|
  }

  /** A sender that nobody holds is not found again, and nothing is sent to it. */
  lemma GoneForGood(s: System, e: Event, c: nat)
    requires Enabled(s, e) && c < |s.senders| && SenderGone(s, c)
    ensures |Next(s, e).senders| >= |s.senders| && SenderGone(Next(s, e), c)
    ensures Next(s, e).senders[c].sent == s.senders[c].sent
  {
  }

  /** A receiver that has read everything stays where it is unless more is sent. */
  lemma NothingLeft(s: System, e: Event, i: nat)
    requires Enabled(s, e) && i < |s.subscribers| && s.subscribers[i].phase.Listening? && !Leaves(e, i)
    requires s.subscribers[i].sender < |s.senders|
    requires s.subscribers[i].phase.position == |s.senders[s.subscribers[i].sender].sent|
    ensures |Next(s, e).subscribers| >= |s.subscribers| && Next(s, e).subscribers[i] == s.subscribers[i]
  {
  }

  /** The stream of an attached listener is never over; one that is over stays over and yields no more items. */
  lemma OverForever(s: System, e: Event, i: nat)
    requires Valid(s) && Enabled(s, e) && i < |s.subscribers| && s.subscribers[i].phase.Listening? && !Leaves(e, i)
    ensures var s' := Next(s, e);
            && |s'.subscribers| >= |s.subscribers| && SubscriberOk(s, i) && SubscriberOk(s', i)
            && s'.subscribers[i].phase.Listening?
            && (Attached(s, i) ==> !IsOver(s, i))
            && (IsOver(s, i) ==> IsOver(s', i) && s'.subscribers[i].phase.items == s.subscribers[i].phase.items)
  {
    ListenerStep(s, e, i);
    assert Attached(s, i) ==> !IsOver(s, i);
    hide Valid, SubscriberOk, MessagesFor;
    if IsOver(s, i) {
      GoneForGood(s, e, s.subscribers[i].sender);
      NothingLeft(s, e, i);
    }
  }

  /** A guard of the channel of `i` is dropped while nobody listens. */
  ghost predicate TakesAway(s: System, e: Event, i: nat)
    requires Enabled(s, e) && i < |s.subscribers|
  {
    e.DropGuard? && s.subscribers[e.i].channel == s.subscribers[i].channel &&
    Listeners(s.subscribers, s.subscribers[i].sender) == {}
  }

  /**
    Between registering and listening there is no receiver to protect the channel. A step takes it away
    exactly when it drops a guard of the channel, whosever it is, and nobody listens.
  */
  lemma RegisteredLosesPlace(s: System, e: Event, i: nat)
    requires Valid(s) && Enabled(s, e) && i < |s.subscribers| && s.subscribers[i].phase.Registered? && Attached(s, i)
    ensures !Attached(Next(s, e), i) <==> TakesAway(s, e, i)
  {
    assert SubscriberOk(s, i);
    assert |Listeners(s.subscribers, s.subscribers[i].sender)| == s.senders[s.subscribers[i].sender].receivers;
  }

  /** Some step of the run does that, while `i` is still attached. */
  ghost predicate IsTakenAway(s: System, es: seq<Event>, i: nat)
    requires IsRun(s, es) && i < |s.subscribers|
    decreases |es|
  {
    es != [] &&
    (TakesAway(s, es[0], i) ||
     (i < |Next(s, es[0]).subscribers| && IsTakenAway(Next(s, es[0]), es[1..], i)))
  }

  /** Over any run in which it stays registered, a subscriber loses its place exactly when some step takes it away. */
  lemma {:induction false} RegisteredLosesPlaceInRun(s: System, es: seq<Event>, i: nat)
    requires Valid(s) && IsRun(s, es) && i < |s.subscribers| && s.subscribers[i].phase.Registered? && Attached(s, i)
    requires forall e :: e in es ==> e != Listen(i) && e != DropGuard(i)
    ensures |After(s, es).subscribers| >= |s.subscribers|
    ensures !Attached(After(s, es), i) <==> IsTakenAway(s, es, i)
    decreases |es|
  {
    if es != [] {
      var e := es[0];
      assert e in es && forall d :: d in es[1..] ==> d in es;
      NextKeepsValid(s, e);
      RegisteredLosesPlace(s, e, i);
      assert |Next(s, e).subscribers| >= |s.subscribers| && Next(s, e).subscribers[i] == s.subscribers[i];
      hide Next, Enabled, Attached, TakesAway, Valid;
      if Attached(Next(s, e), i) {
        RegisteredLosesPlaceInRun(Next(s, e), es[1..], i);
      } else {
        DetachedOverRun(Next(s, e), es[1..], i);
      }
    }
  }

  lemma {:induction false} DetachedOverRun(s: System, es: seq<Event>, i: nat)
    requires Valid(s) && IsRun(s, es) && i < |s.subscribers| && !Attached(s, i)
    ensures |After(s, es).subscribers| >= |s.subscribers| && !Attached(After(s, es), i)
    decreases |es|
  {
    if es != [] {
      NextKeepsValid(s, es[0]);
      DetachedForever(s, es[0], i);
      DetachedOverRun(Next(s, es[0]), es[1..], i);
    }
  }

  lemma RunCons(s: System, e: Event, next: System, es: seq<Event>, end: System)
    requires Enabled(s, e) && Next(s, e) == next && IsRun(next, es) && After(next, es) == end
    ensures IsRun(s, [e] + es) && After(s, [e] + es) == end
  {
    assert ([e] + es)[1..] == es;
  }

  lemma NoSteps(s: System)
    ensures IsRun(s, []) && After(s, []) == s
  {
  }

  /** Two subscribers share a channel; the first leaves before the second listens: it listens in vain. */
  function Handover(): seq<Event> {
    [Register("c"), Register("c"), Listen(0), DropReceiver(0), DropGuard(0), Listen(1)]
  }

  /** The second half: the listener leaves and takes the channel along. */
  lemma LastGuardTakesChannel(s: System, end: System)
    requires s == System(map["c" := 0], [Sender("c", [], 1)],
                         [Subscriber("c", 0, Listening(0, 0, [])), Subscriber("c", 0, Registered)])
    requires end == System(map[], [Sender("c", [], 1)],
                           [Subscriber("c", 0, Gone), Subscriber("c", 0, Listening(0, 0, []))])
    ensures IsRun(s, [DropReceiver(0), DropGuard(0), Listen(1)])
    ensures After(s, [DropReceiver(0), DropGuard(0), Listen(1)]) == end
  {
    var r := Subscriber("c", 0, Registered);
    var four := System(map["c" := 0], [Sender("c", [], 0)], [r.(phase := Deaf), r]);
    var five := System(map[], [Sender("c", [], 0)], [r.(phase := Gone), r]);
    assert four.entries - {"c"} == map[];
    NoSteps(end);
    hide IsRun, After;
    RunCons(five, Listen(1), end, [], end);
    RunCons(four, DropGuard(0), five, [Listen(1)], end);
    RunCons(s, DropReceiver(0), four, [DropGuard(0), Listen(1)], end);
  }

  /** The first half: both register. */
  lemma BothRegister(es: seq<Event>, two: System, end: System)
    requires two == System(map["c" := 0], [Sender("c", [], 0)],
                           [Subscriber("c", 0, Registered), Subscriber("c", 0, Registered)])
    requires IsRun(two, es) && After(two, es) == end
    ensures IsRun(Initial(), [Register("c"), Register("c")] + es)
    ensures After(Initial(), [Register("c"), Register("c")] + es) == end
  {
    var one := System(map["c" := 0], [Sender("c", [], 0)], [Subscriber("c", 0, Registered)]);
    assert Next(Initial(), Register("c")) == one;
    assert Next(one, Register("c")) == two;
    hide IsRun, After, Next;
    RunCons(one, Register("c"), two, es, end);
    RunCons(Initial(), Register("c"), one, [Register("c")] + es, end);
    assert [Register("c")] + ([Register("c")] + es) == [Register("c"), Register("c")] + es;
  }

  lemma HandoverStrandsListener()
    ensures IsRun(Initial(), Handover())
    ensures var s := After(Initial(), Handover());
            |s.subscribers| == 2 && s.subscribers[1].phase.Listening? && s.entries == map[]
  {
    var r := Subscriber("c", 0, Registered);
    var two := System(map["c" := 0], [Sender("c", [], 0)], [r, r]);
    var three := System(map["c" := 0], [Sender("c", [], 1)], [r.(phase := Listening(0, 0, [])), r]);
    var end := System(map[], [Sender("c", [], 1)], [r.(phase := Gone), r.(phase := Listening(0, 0, []))]);
    assert Enabled(two, Listen(0)) && Next(two, Listen(0)) == three;
    LastGuardTakesChannel(three, end);
    hide IsRun, After, Next, Enabled;
    RunCons(two, Listen(0), three, [DropReceiver(0), DropGuard(0), Listen(1)], end);
    BothRegister([Listen(0), DropReceiver(0), DropGuard(0), Listen(1)], two, end);
    assert [Register("c"), Register("c")] + [Listen(0), DropReceiver(0), DropGuard(0), Listen(1)] == Handover();
  }
}
