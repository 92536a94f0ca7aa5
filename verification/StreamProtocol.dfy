/**
  Reading an append-only Redis stream through a connection that may fail at any time. The reader asks
  for entries after the last one it delivered, so that nothing is lost or repeated across reconnects.
*/
module StreamProtocol {
  const INITIAL_RECONNECT_DELAY_MS: nat := 1000
  const MAX_RECONNECT_DELAY_MS: nat := 30000
  const XREAD_COUNT: nat := 100

  /** A stream id: milliseconds, then a counter within the millisecond. */
  datatype Id = Id(ms: nat, counter: nat)

  predicate Before(a: Id, b: Id) {
    a.ms < b.ms || (a.ms == b.ms && a.counter < b.counter)
  }

  /** Ids are totally ordered: by time first, and within one millisecond by the counter. */
  lemma IdsAreOrdered(a: Id, b: Id, c: Id)
    ensures !Before(a, a)
    ensures Before(a, b) && Before(b, c) ==> Before(a, c)
    ensures Before(a, b) || a == b || Before(b, a)
    ensures a.ms < b.ms ==> Before(a, b)
    ensures Before(Id(a.ms, a.counter), Id(a.ms, b.counter)) <==> a.counter < b.counter
  {
  }

  datatype Entry<P> = Entry(id: Id, payload: P)

  type Log<P> = seq<Entry<P>>

  ghost predicate Increasing<P>(log: Log<P>) {
    forall i, j :: 0 <= i < j < |log| ==> Before(log[i].id, log[j].id)
  }

  /** The server accepts an entry only with an id after all others. */
  predicate Fits<P>(log: Log<P>, entry: Entry<P>) {
    log != [] ==> Before(log[|log| - 1].id, entry.id)
  }

  /** What a subscriber sees: the item made from an entry (a value or a conversion error), or a fatal error. */
  datatype Item<P> = FromEntry(entry: Entry<P>) | Failure(message: string)

  function Items<P>(log: Log<P>): seq<Item<P>> {
    seq(|log|, i requires 0 <= i < |log| => FromEntry(log[i]))
  }

  /** A failed request, with the four questions that decide whether a new connection may help. */
  datatype RedisError = RedisError(io: bool, timeout: bool, dropped: bool, refused: bool, message: string) {
    predicate Transient() {
      io || timeout || dropped || refused
    }
  }

  /** `Reading` holds the rest of the last reply; an empty rest means that the next request is out. */
  datatype Phase<P> = Connecting | Reading(reply: Log<P>) | Sleeping(delay: nat) | Ended

  datatype System<P> = System(start: Id, log: Log<P>, lastId: Id, phase: Phase<P>, emitted: seq<Item<P>>,
                              backoff: nat, failures: nat)

  datatype Event<P> =
    | Append(entry: Entry<P>)
    | Connect
    | ConnectFails(jitter: nat, up: bool)
    | Reply(n: nat)
    | Yield
    | ReadFails(error: RedisError, jitter: nat, up: bool)
    | Wake

  function Initial<P>(start: Id, log: Log<P>): System<P> {
    System(start, log, start, Connecting, [], INITIAL_RECONNECT_DELAY_MS, 0)
  }

  /** How many entries of the log are not after `id`. */
  function Position<P>(log: Log<P>, id: Id): (k: nat)
    ensures k <= |log|
  {
    if log == [] then 0
    else if Before(id, log[|log| - 1].id) then Position(log[..|log| - 1], id)
    else |log|
  }

  /** What the server would answer: the entries after `id`. */
  function EntriesAfter<P>(log: Log<P>, id: Id): Log<P> {
    log[Position(log, id)..]
  }

  predicate InRange(jitter: nat, backoff: nat) {
    jitter <= backoff / 4
  }

  function Jittered(backoff: nat, jitter: nat, up: bool): nat
    requires InRange(jitter, backoff)
  {
    if up then backoff + jitter else backoff - jitter
  }

  function Doubled(backoff: nat): nat {
    if backoff * 2 < MAX_RECONNECT_DELAY_MS then backoff * 2 else MAX_RECONNECT_DELAY_MS
  }

  predicate Enabled<P>(s: System<P>, e: Event<P>) {
    match e
    case Append(entry) => Fits(s.log, entry)
    case Connect => s.phase.Connecting?
    case ConnectFails(jitter, _) => s.phase.Connecting? && InRange(jitter, s.backoff)
    case Reply(n) => s.phase == Reading([]) && n <= XREAD_COUNT && n <= |EntriesAfter(s.log, s.lastId)|
    case Yield => s.phase.Reading? && s.phase.reply != []
    case ReadFails(_, jitter, _) => s.phase == Reading([]) && InRange(jitter, s.backoff)
    case Wake => s.phase.Sleeping?
  }

  function FallAsleep<P>(s: System<P>, jitter: nat, up: bool): System<P>
    requires InRange(jitter, s.backoff)
  {
    s.(phase := Sleeping(Jittered(s.backoff, jitter, up)), backoff := Doubled(s.backoff), failures := s.failures + 1)
  }

  function Next<P>(s: System<P>, e: Event<P>): System<P>
    requires Enabled(s, e)
  {
    match e
    case Append(entry) => s.(log := s.log + [entry])
    case Connect => s.(phase := Reading([]), backoff := INITIAL_RECONNECT_DELAY_MS, failures := 0)
    case ConnectFails(jitter, up) => FallAsleep(s, jitter, up)
    case Reply(n) => s.(phase := Reading(EntriesAfter(s.log, s.lastId)[..n]))
    case Yield =>
      var entry := s.phase.reply[0];
      s.(lastId := entry.id, emitted := s.emitted + [FromEntry(entry)], phase := Reading(s.phase.reply[1..]))
    case ReadFails(error, jitter, up) =>
      if error.Transient() then FallAsleep(s, jitter, up)
      else s.(emitted := s.emitted + [Failure(error.message)], phase := Ended)
    case Wake => s.(phase := Connecting)
  }

  predicate IsRun<P>(s: System<P>, es: seq<Event<P>>)
    decreases |es|
  {
    es != [] ==> Enabled(s, es[0]) && IsRun(Next(s, es[0]), es[1..])
  }

  function After<P>(s: System<P>, es: seq<Event<P>>): System<P>
    requires IsRun(s, es)
    decreases |es|
  {
    if es == [] then s else After(Next(s, es[0]), es[1..])
  }

  lemma {:induction false} RunAppend<P>(s: System<P>, es: seq<Event<P>>, e: Event<P>)
    requires IsRun(s, es) && Enabled(After(s, es), e)
    ensures IsRun(s, es + [e]) && After(s, es + [e]) == Next(After(s, es), e)
    decreases |es|
  {
    if es == [] {
      assert (es + [e])[1..] == [];
    } else {
      RunAppend(Next(s, es[0]), es[1..], e);
      assert (es + [e])[1..] == es[1..] + [e];
    }
  }

  // ---------------------------------------------------------------------------------------------
  // Positions in an increasing log

  /** The entries before the position are exactly those that are not after `id`. */
  lemma {:induction false} PositionSplits<P>(log: Log<P>, id: Id)
    requires Increasing(log)
    ensures forall i :: 0 <= i < |log| ==> (i < Position(log, id) <==> !Before(id, log[i].id))
  {
    if log != [] {
      var n := |log| - 1;
      if Before(id, log[n].id) {
        PositionSplits(log[..n], id);
        assert forall i :: 0 <= i < n ==> log[..n][i] == log[i];
      } else {
        assert forall i :: 0 <= i < n ==> Before(log[i].id, log[n].id);
      }
    }
  }

  lemma PositionOfEntry<P>(log: Log<P>, k: nat)
    requires Increasing(log) && k < |log|
    ensures Position(log, log[k].id) == k + 1
  {
    PositionSplits(log, log[k].id);
    assert !Before(log[k].id, log[k].id);
    if k + 1 < |log| {
      assert Before(log[k].id, log[k + 1].id);
    }
  }

  lemma PositionAppended<P>(log: Log<P>, entry: Entry<P>, id: Id)
    ensures Position(log + [entry], id) == if Before(id, entry.id) then Position(log, id) else |log| + 1
  {
    assert (log + [entry])[..|log|] == log;
  }

  lemma AppendedAfter<P>(log: Log<P>, entry: Entry<P>, id: Id)
    requires Before(id, entry.id)
    ensures EntriesAfter(log + [entry], id) == EntriesAfter(log, id) + [entry]
  {
    PositionAppended(log, entry, id);
  }

  // ---------------------------------------------------------------------------------------------
  // The invariant

  /** The entries delivered so far. */
  function Delivered<P>(s: System<P>): Log<P>
    requires Position(s.log, s.start) <= Position(s.log, s.lastId)
  {
    s.log[Position(s.log, s.start)..Position(s.log, s.lastId)]
  }

  ghost predicate IsTail<P>(tail: seq<Item<P>>, phase: Phase<P>) {
    if phase.Ended? then |tail| == 1 && tail[0].Failure? else tail == []
  }

  /** Where the reader stands in the log. */
  ghost predicate Placed<P>(s: System<P>) {
    && !Before(s.lastId, s.start)
    && Position(s.log, s.start) <= Position(s.log, s.lastId)
    && (s.lastId != s.start ==> Position(s.log, s.lastId) > 0 && s.log[Position(s.log, s.lastId) - 1].id == s.lastId)
    && (s.phase.Reading? ==> s.phase.reply <= EntriesAfter(s.log, s.lastId))
  }

  /** The items so far are those of the delivered entries, one each, in order, and a fatal error comes last. */
  ghost predicate Faithful<P>(s: System<P>)
    requires Position(s.log, s.start) <= Position(s.log, s.lastId)
  {
    var items := Items(Delivered(s));
    items <= s.emitted && IsTail(s.emitted[|items|..], s.phase)
  }

  function Power(n: nat): nat {
    if n == 0 then 1 else 2 * Power(n - 1)
  }

  /** The delay after `n` failures in a row: doubled each time, up to a ceiling. */
  function BackoffAfter(n: nat): nat {
    if INITIAL_RECONNECT_DELAY_MS * Power(n) < MAX_RECONNECT_DELAY_MS
    then INITIAL_RECONNECT_DELAY_MS * Power(n)
    else MAX_RECONNECT_DELAY_MS
  }

  /** One second, two, four, eight, sixteen, and half a minute ever after. */
  lemma BackoffValues(n: nat)
    ensures BackoffAfter(0) == 1000 && BackoffAfter(1) == 2000 && BackoffAfter(2) == 4000
    ensures BackoffAfter(3) == 8000 && BackoffAfter(4) == 16000
    ensures n >= 5 ==> BackoffAfter(n) == 30000
  {
    if n >= 5 { PowerAtLeast(n); }
    assert Power(1) == 2 && Power(2) == 4 && Power(3) == 8 && Power(4) == 16;
  }

  lemma {:induction false} PowerAtLeast(n: nat)
    requires n >= 5
    ensures Power(n) >= 32
  {
    if n == 5 {
      assert Power(1) == 2 && Power(2) == 4 && Power(3) == 8 && Power(4) == 16;
    } else {
      PowerAtLeast(n - 1);
    }
  }

  ghost predicate Paced<P>(s: System<P>) {
    && s.backoff == BackoffAfter(s.failures)
    && (s.phase.Sleeping? ==>
         && s.failures > 0
         && 3 * BackoffAfter(s.failures - 1) <= 4 * s.phase.delay <= 5 * BackoffAfter(s.failures - 1))
  }

  ghost predicate Valid<P>(s: System<P>) {
    Increasing(s.log) && Placed(s) && Faithful(s) && Paced(s)
  }

  lemma NextKeepsPaced<P>(s: System<P>, e: Event<P>)
    requires Paced(s) && Enabled(s, e)
    ensures Paced(Next(s, e))
  {
  }

  lemma AppendKeepsIncreasing<P>(log: Log<P>, entry: Entry<P>)
    requires Increasing(log) && Fits(log, entry)
    ensures Increasing(log + [entry])
  {
    var n := |log|;
    assert forall i :: 0 <= i < n ==> Before(log[i].id, entry.id) by {
      assert forall i :: 0 <= i < n - 1 ==> Before(log[i].id, log[n - 1].id);
    }
  }

  /** The usual case: the new entry is behind everything the reader has seen. */
  lemma AppendBehind<P>(s: System<P>, entry: Entry<P>)
    requires Placed(s) && Faithful(s) && Before(s.lastId, entry.id)
    ensures var s' := s.(log := s.log + [entry]); Placed(s') && Faithful(s')
  {
    var s' := s.(log := s.log + [entry]);
    PositionAppended(s.log, entry, s.start);
    PositionAppended(s.log, entry, s.lastId);
    AppendedAfter(s.log, entry, s.lastId);
    assert Delivered(s') == Delivered(s);
  }

  /** The log has not reached the start id yet: nothing was delivered, and the new entry is not wanted. */
  lemma AppendBeforeStart<P>(s: System<P>, entry: Entry<P>)
    requires Increasing(s.log) && Placed(s) && Faithful(s) && Fits(s.log, entry) && !Before(s.lastId, entry.id)
    ensures s.lastId == s.start && Position(s.log, s.lastId) == |s.log|
    ensures var s' := s.(log := s.log + [entry]); Placed(s') && Faithful(s')
  {
    PositionSplits(s.log, s.lastId);
    PositionAppended(s.log, entry, s.lastId);
    assert s.lastId == s.start;
    var s' := s.(log := s.log + [entry]);
    assert Delivered(s') == [] == Delivered(s);
  }

  lemma AppendKeepsPlace<P>(s: System<P>, entry: Entry<P>)
    requires Increasing(s.log) && Placed(s) && Faithful(s) && Enabled(s, Append(entry))
    ensures Increasing(Next(s, Append(entry)).log) && Placed(Next(s, Append(entry))) && Faithful(Next(s, Append(entry)))
  {
    AppendKeepsIncreasing(s.log, entry);
    hide Increasing, Placed, Faithful, Fits, Before;
    if Before(s.lastId, entry.id) {
      AppendBehind(s, entry);
    } else {
      AppendBeforeStart(s, entry);
    }
  }

  /** The next entry of the reply is the entry at the reader's place in the log. */
  lemma YieldedEntry<P>(s: System<P>)
    requires Increasing(s.log) && Placed(s) && Enabled(s, Yield)
    ensures var q := Position(s.log, s.lastId);
            && q < |s.log| && s.phase.reply[0] == s.log[q]
            && Position(s.log, s.log[q].id) == q + 1 && Before(s.lastId, s.log[q].id)
  {
    var q := Position(s.log, s.lastId);
    assert s.phase.reply[0] == EntriesAfter(s.log, s.lastId)[0];
    PositionOfEntry(s.log, q);
    PositionSplits(s.log, s.lastId);
  }

  lemma YieldKeepsPlaced<P>(s: System<P>)
    requires Increasing(s.log) && Placed(s) && Enabled(s, Yield)
    ensures Placed(Next(s, Yield))
  {
    YieldedEntry(s);
    hide Increasing, Position;
    assert EntriesAfter(s.log, Next(s, Yield).lastId) == EntriesAfter(s.log, s.lastId)[1..];
  }

  lemma OneMoreDelivered<P>(log: Log<P>, from: nat, to: nat)
    requires from <= to < |log|
    ensures log[from..to + 1] == log[from..to] + [log[to]]
    ensures Items(log[from..to + 1]) == Items(log[from..to]) + [FromEntry(log[to])]
  {
  }

  lemma YieldKeepsPlace<P>(s: System<P>)
    requires Increasing(s.log) && Placed(s) && Faithful(s) && Enabled(s, Yield)
    ensures Placed(Next(s, Yield)) && Faithful(Next(s, Yield))
  {
    YieldKeepsPlaced(s);
    YieldedEntry(s);
    assert Position(s.log, s.start) <= Position(s.log, s.lastId);
    hide Increasing, Position, Placed, Before, EntriesAfter;
    var q := Position(s.log, s.lastId);
    OneMoreDelivered(s.log, Position(s.log, s.start), q);
  }

  lemma NextKeepsValid<P>(s: System<P>, e: Event<P>)
    requires Valid(s) && Enabled(s, e)
    ensures Valid(Next(s, e)) && Next(s, e).start == s.start
  {
    NextKeepsPaced(s, e);
    match e
    case Append(entry) => AppendKeepsPlace(s, entry);
    case Yield => YieldKeepsPlace(s);
    case ReadFails(error, _, _) =>
      var last: seq<Item<P>> := [Failure(error.message)];
      assert (s.emitted + last)[|Items(Delivered(s))|..] == last;
    case Connect =>
    case ConnectFails(_, _) =>
    case Reply(_) =>
    case Wake =>
  }

  lemma InitialValid<P>(start: Id, log: Log<P>)
    requires Increasing(log)
    ensures Valid(Initial(start, log))
  {
  }

  lemma {:induction false} RunKeepsValid<P>(s: System<P>, es: seq<Event<P>>)
    requires Valid(s) && IsRun(s, es)
    ensures Valid(After(s, es)) && After(s, es).start == s.start
    decreases |es|
  {
    if es != [] {
      NextKeepsValid(s, es[0]);
      RunKeepsValid(Next(s, es[0]), es[1..]);
    }
  }

  // ---------------------------------------------------------------------------------------------
  // Main results

  /**
    Whatever appends, timeouts, lost replies and reconnects a run interleaves: what the subscriber got
    is one item for each of the first `n` entries after the start id, in log order, and nothing else
    except one last failure.
  */
  lemma EmitsContiguousRun<P>(start: Id, log: Log<P>, es: seq<Event<P>>) returns (n: nat)
    requires Increasing(log) && IsRun(Initial(start, log), es)
    ensures var s := After(Initial(start, log), es); var wanted := EntriesAfter(s.log, start);
            && n <= |wanted|
            && Items(wanted[..n]) <= s.emitted
            && (if s.phase.Ended? then |s.emitted| == n + 1 && s.emitted[n].Failure? else |s.emitted| == n)
            && (forall i :: 0 <= i < |s.log| ==> (s.log[i] in wanted <==> Before(start, s.log[i].id)))
  {
    InitialValid(start, log);
    RunKeepsValid(Initial(start, log), es);
    var s := After(Initial(start, log), es);
    PositionSplits(s.log, start);
    n := |Delivered(s)|;
    assert EntriesAfter(s.log, start)[..n] == Delivered(s);
    AfterMeansBehind(s.log, start);
  }

  lemma AfterMeansBehind<P>(log: Log<P>, id: Id)
    requires Increasing(log)
    ensures forall i :: 0 <= i < |log| ==> (log[i] in EntriesAfter(log, id) <==> Before(id, log[i].id))
  {
    PositionSplits(log, id);
    var wanted := EntriesAfter(log, id);
    forall i | 0 <= i < |log| ensures log[i] in wanted <==> Before(id, log[i].id) {
      if Before(id, log[i].id) {
        assert wanted[i - Position(log, id)] == log[i];
      }
    }
  }

  /** Delays stay within a quarter of the doubled delay, and a successful connection starts over. */
  lemma ReconnectsArePaced<P>(start: Id, log: Log<P>, es: seq<Event<P>>)
    requires Increasing(log) && IsRun(Initial(start, log), es)
    ensures var s := After(Initial(start, log), es);
            && s.backoff == BackoffAfter(s.failures) <= MAX_RECONNECT_DELAY_MS
            && (s.phase.Sleeping? ==>
                 && s.failures > 0
                 && 3 * BackoffAfter(s.failures - 1) <= 4 * s.phase.delay <= 5 * BackoffAfter(s.failures - 1)
                 && 750 <= s.phase.delay <= 37500)
  {
    InitialValid(start, log);
    RunKeepsValid(Initial(start, log), es);
    var s := After(Initial(start, log), es);
    if s.phase.Sleeping? { BackoffAtLeastInitial(s.failures - 1); }
  }

  lemma {:induction false} BackoffAtLeastInitial(n: nat)
    ensures Power(n) >= 1 && BackoffAfter(n) >= INITIAL_RECONNECT_DELAY_MS
  {
    if n > 0 { BackoffAtLeastInitial(n - 1); }
  }

  /** A failed request that a new connection cannot help with. */
  predicate FailsForGood<P>(e: Event<P>) {
    e.ReadFails? && !e.error.io && !e.error.timeout && !e.error.dropped && !e.error.refused
  }

  /** The stream has ended exactly when some request failed for good: not on I/O, a timeout, a drop or a refusal. */
  lemma {:induction false} EndsExactly<P>(s: System<P>, es: seq<Event<P>>)
    requires IsRun(s, es)
    ensures After(s, es).phase.Ended? <==> s.phase.Ended? || exists e :: e in es && FailsForGood(e)
    decreases |es|
  {
    if es != [] {
      EndsExactly(Next(s, es[0]), es[1..]);
      assert Next(s, es[0]).phase.Ended? <==> s.phase.Ended? || FailsForGood(es[0]);
      assert forall e :: e in es <==> e == es[0] || e in es[1..];
      if e :| e in es && FailsForGood(e) {
        assert e == es[0] || e in es[1..];
      }
    }
  }

  /** How many attempts have failed since the last connection, going by the events alone. */
  function FailuresFrom<P>(n: nat, es: seq<Event<P>>): nat
    decreases |es|
  {
    if es == [] then n
    else if es[0].Connect? then FailuresFrom(0, es[1..])
    else if es[0].ConnectFails? || (es[0].ReadFails? && !FailsForGood(es[0])) then FailuresFrom(n + 1, es[1..])
    else FailuresFrom(n, es[1..])
  }

  lemma {:induction false} FailuresAreCounted<P>(s: System<P>, es: seq<Event<P>>)
    requires IsRun(s, es)
    ensures After(s, es).failures == FailuresFrom(s.failures, es)
    decreases |es|
  {
    if es != [] {
      FailuresAreCounted(Next(s, es[0]), es[1..]);
    }
  }

  function Missing<P>(s: System<P>): nat {
    |EntriesAfter(s.log, s.lastId)|
  }

  function Distance<P>(phase: Phase<P>): nat {
    match phase
    case Reading(reply) => if reply == [] then 1 else 0
    case Connecting => 2
    case Sleeping(_) => 3
    case Ended => 4
  }

  /** How many steps a reader can take that does not fail and gets no empty replies. */
  function Remaining<P>(s: System<P>): nat {
    2 * Missing(s) + Distance(s.phase)
  }

  /** The steps that bring a reader forward: it wakes up, connects, gets some entries, hands one out. */
  predicate Progresses<P>(e: Event<P>) {
    e.Wake? || e.Connect? || e.Yield? || (e.Reply? && e.n > 0)
  }

  lemma ProgressDrops<P>(s: System<P>, e: Event<P>)
    requires Valid(s) && Enabled(s, e) && Progresses(e)
    ensures Valid(Next(s, e)) && Remaining(Next(s, e)) < Remaining(s)
    ensures Next(s, e).log == s.log && Next(s, e).start == s.start
    ensures !s.phase.Ended? && !Next(s, e).phase.Ended?
  {
    NextKeepsValid(s, e);
    if e.Yield? {
      YieldedEntry(s);
    }
    if e.Reply? {
      assert |EntriesAfter(s.log, s.lastId)[..e.n]| == e.n;
    }
  }

  /** A reader that has not ended and misses something can go forward. */
  lemma Advance<P>(s: System<P>) returns (e: Event<P>)
    requires Valid(s) && !s.phase.Ended? && Missing(s) > 0
    ensures Enabled(s, e) && Progresses(e)
  {
    match s.phase {
      case Sleeping(_) => e := Wake;
      case Connecting => e := Connect;
      case Reading(reply) => e := if reply == [] then Reply(1) else Yield;
    }
  }

  lemma NothingMissing<P>(s: System<P>)
    requires Valid(s) && !s.phase.Ended? && Missing(s) == 0
    ensures s.emitted == Items(EntriesAfter(s.log, s.start))
  {
    assert Delivered(s) == EntriesAfter(s.log, s.start);
  }

  /** Every run of such steps is short, and where no further one is possible everything has been delivered. */
  lemma {:induction false} ProgressDelivers<P>(s: System<P>, es: seq<Event<P>>)
    requires Valid(s) && !s.phase.Ended? && IsRun(s, es) && forall e :: e in es ==> Progresses(e)
    ensures |es| + Remaining(After(s, es)) <= Remaining(s)
    ensures After(s, es).log == s.log
    ensures (forall e :: Progresses(e) ==> !Enabled(After(s, es), e)) ==>
              After(s, es).emitted == Items(EntriesAfter(s.log, s.start))
    decreases |es|
  {
    if es == [] {
      if Missing(s) == 0 {
        NothingMissing(s);
      } else {
        var e := Advance(s);
      }
    } else {
      assert es[0] in es;
      ProgressDrops(s, es[0]);
      ProgressDelivers(Next(s, es[0]), es[1..]);
    }
  }

  /**
    After any past, failures included: a reader that has not ended takes a bounded number of steps forward, and
    when it can take no more the subscriber has an item for every entry after the start id.
  */
  lemma CatchesUp<P>(start: Id, log: Log<P>, past: seq<Event<P>>, es: seq<Event<P>>)
    requires Increasing(log) && IsRun(Initial(start, log), past) && IsRun(After(Initial(start, log), past), es)
    requires !After(Initial(start, log), past).phase.Ended? && forall e :: e in es ==> Progresses(e)
    ensures var s := After(Initial(start, log), past);
            && |es| <= Remaining(s)
            && ((forall e :: Progresses(e) ==> !Enabled(After(s, es), e)) ==>
                 After(s, es).emitted == Items(EntriesAfter(s.log, start)))
  {
    InitialValid(start, log);
    RunKeepsValid(Initial(start, log), past);
    ProgressDelivers(After(Initial(start, log), past), es);
  }
}
