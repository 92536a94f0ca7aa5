/**
  The generator behind a stream subscription: an outer loop that connects and an inner loop that reads.
  Everything the generator waits for is an outcome that the environment chooses.
*/
module StreamReader {
  import opened StreamProtocol

  datatype Answer = Replied(n: nat) | Failed(error: RedisError)

  /** How one request ends, what is sent to the server meanwhile, and the jitter of a delay behind it. */
  datatype Read<P> = Read(sent: Log<P>, answer: Answer, jitter: nat, up: bool)

  /** One attempt to connect and, if it succeeds, the requests on that connection. */
  datatype Attempt<P> = Attempt(sent: Log<P>, connected: bool, requests: seq<Read<P>>, jitter: nat, up: bool)

  /** How the inner loop ends: still waiting, with an error worth a new connection, or for good. */
  datatype Leaving = Waiting | Broken(jitter: nat, up: bool) | Fatal

  /** The log after some entries were sent; the server refuses those that do not fit. */
  function Accepting<P>(log: Log<P>, sent: Log<P>): (r: Log<P>)
    ensures log <= r
    decreases |sent|
  {
    if sent == [] then log
    else Accepting(if Fits(log, sent[0]) then log + [sent[0]] else log, sent[1..])
  }

  ghost predicate Follows<P>(init: System<P>, es: seq<Event<P>>, s: System<P>) {
    IsRun(init, es) && After(init, es) == s
  }

  lemma FollowsNext<P>(init: System<P>, es: seq<Event<P>>, s: System<P>, e: Event<P>)
    requires Follows(init, es, s) && Enabled(s, e)
    ensures Follows(init, es + [e], Next(s, e))
  {
    RunAppend(init, es, e);
  }

  lemma {:induction false} FollowsArrivals<P>(init: System<P>, es: seq<Event<P>>, s: System<P>, sent: Log<P>)
    returns (es': seq<Event<P>>)
    requires Follows(init, es, s)
    ensures Follows(init, es', s.(log := Accepting(s.log, sent)))
    decreases |sent|
  {
    es' := es;
    if sent != [] {
      var s' := s;
      if Fits(s.log, sent[0]) {
        FollowsNext(init, es, s, Append(sent[0]));
        es', s' := es + [Append(sent[0])], Next(s, Append(sent[0]));
      }
      es' := FollowsArrivals(init, es', s', sent[1..]);
    }
  }

  function JitterOf(jitter: nat, backoff: nat): (r: nat)
    ensures InRange(r, backoff)
  {
    if jitter <= backoff / 4 then jitter else backoff / 4
  }

  function ReplyTo<P>(log: Log<P>, lastId: Id, n: nat): (reply: Log<P>)
    ensures |reply| <= XREAD_COUNT && reply <= EntriesAfter(log, lastId)
    ensures |reply| == n || |reply| == XREAD_COUNT || reply == EntriesAfter(log, lastId)
    ensures |reply| <= n
  {
    var found := EntriesAfter(log, lastId);
    var k := if n < XREAD_COUNT then n else XREAD_COUNT;
    if k < |found| then found[..k] else found
  }

  /** What one request on an open connection does. */
  function AfterRead<P>(s: System<P>, read: Read<P>): System<P> {
    var now := s.(log := Accepting(s.log, read.sent));
    match read.answer
    case Replied(n) =>
      var reply := ReplyTo(now.log, now.lastId, n);
      now.(lastId := if reply == [] then now.lastId else reply[|reply| - 1].id, emitted := now.emitted + Items(reply))
    case Failed(error) =>
      if error.Transient() then FallAsleep(now, JitterOf(read.jitter, now.backoff), read.up)
      else now.(emitted := now.emitted + [Failure(error.message)], phase := Ended)
  }

  /** Requests go on until one fails. */
  function AfterReads<P>(s: System<P>, requests: seq<Read<P>>): System<P>
    decreases |requests|
  {
    if requests == [] || s.phase != Reading([]) then s
    else AfterReads(AfterRead(s, requests[0]), requests[1..])
  }

  function AfterAttempt<P>(s: System<P>, attempt: Attempt<P>): System<P> {
    var now := s.(log := Accepting(s.log, attempt.sent));
    if attempt.connected
    then AfterReads(now.(phase := Reading([]), backoff := INITIAL_RECONNECT_DELAY_MS, failures := 0), attempt.requests)
    else FallAsleep(now, JitterOf(attempt.jitter, now.backoff), attempt.up)
  }

  function Awake<P>(s: System<P>): System<P> {
    if s.phase.Sleeping? then s.(phase := Connecting) else s
  }

  /** Attempts go on until a request fails for good, or is still waiting. */
  function AfterAttempts<P>(s: System<P>, attempts: seq<Attempt<P>>): System<P>
    decreases |attempts|
  {
    if attempts == [] || !s.phase.Connecting? then s
    else AfterAttempts(Awake(AfterAttempt(s, attempts[0])), attempts[1..])
  }

  /** Entries are accepted one after the other, each exactly if it fits behind the last one. */
  lemma {:induction false} AcceptingInTurn<P>(log: Log<P>, sent: Log<P>, entry: Entry<P>)
    ensures Accepting(log, []) == log
    ensures var before := Accepting(log, sent);
            Accepting(log, sent + [entry]) == if Fits(before, entry) then before + [entry] else before
    decreases |sent|
  {
    if sent == [] {
      assert sent + [entry] == [entry];
      assert [entry][1..] == [];
    } else {
      assert (sent + [entry])[1..] == sent[1..] + [entry];
      AcceptingInTurn(if Fits(log, sent[0]) then log + [sent[0]] else log, sent[1..], entry);
    }
  }

  /** Requests are made in turn: one does what it does on an open connection, and nothing happens on a closed one. */
  lemma {:induction false} ReadsInTurn<P>(s: System<P>, requests: seq<Read<P>>, read: Read<P>)
    ensures AfterReads(s, []) == s
    ensures var before := AfterReads(s, requests);
            AfterReads(s, requests + [read]) == if before.phase == Reading([]) then AfterRead(before, read) else before
    decreases |requests|
  {
    if requests == [] {
      assert requests + [read] == [read];
      assert [read][1..] == [];
    } else {
      assert (requests + [read])[1..] == requests[1..] + [read];
      if s.phase == Reading([]) {
        ReadsInTurn(AfterRead(s, requests[0]), requests[1..], read);
      }
    }
  }

  /** An attempt that fails delivers nothing; one that succeeds makes its requests, the first from the last id. */
  lemma AttemptMeaning<P>(s: System<P>, attempt: Attempt<P>, read: Read<P>, n: nat)
    ensures var s' := AfterAttempt(s, attempt);
            !attempt.connected ==>
              && s'.emitted == s.emitted && s'.lastId == s.lastId && s'.phase.Sleeping?
              && s'.log == Accepting(s.log, attempt.sent)
    ensures attempt.connected && attempt.requests == [read] && read.answer == Replied(n) ==>
              var s', log := AfterAttempt(s, attempt), Accepting(Accepting(s.log, attempt.sent), read.sent);
              && s'.log == log && s'.emitted == s.emitted + Items(ReplyTo(log, s.lastId, n))
              && s'.backoff == 1000 && s'.phase == Reading([])
    ensures attempt.connected && attempt.requests == [] ==> AfterAttempt(s, attempt).phase == Reading([])
  {
    var ready := s.(log := Accepting(s.log, attempt.sent), phase := Reading([]),
                    backoff := INITIAL_RECONNECT_DELAY_MS, failures := 0);
    ReadsInTurn(ready, [], read);
    assert [] + [read] == [read];
    assert attempt.connected ==> AfterAttempt(s, attempt) == AfterReads(ready, attempt.requests);
    hide AfterReads, Accepting;
  }

  /** Attempts are made in turn, and a reader that has to wait for the next one wakes up first. */
  lemma {:induction false} AttemptsInTurn<P>(s: System<P>, attempts: seq<Attempt<P>>, attempt: Attempt<P>)
    ensures AfterAttempts(s, []) == s
    ensures var before := AfterAttempts(s, attempts);
            AfterAttempts(s, attempts + [attempt]) ==
            if before.phase.Connecting? then Awake(AfterAttempt(before, attempt)) else before
    decreases |attempts|
  {
    if attempts == [] {
      assert attempts + [attempt] == [attempt];
      assert [attempt][1..] == [];
    } else {
      assert (attempts + [attempt])[1..] == attempts[1..] + [attempt];
      if s.phase.Connecting? {
        AttemptsInTurn(Awake(AfterAttempt(s, attempts[0])), attempts[1..], attempt);
      }
    }
  }

  class Reader<P(!new)> {
    const start: Id
    const initialLog: Log<P>
    var log: Log<P>
    var lastId: Id
    var backoff: nat
    var emitted: seq<Item<P>>
    ghost var failures: nat
    ghost var trace: seq<Event<P>>

    constructor (start: Id, log: Log<P>)
      ensures At(Connecting) && this.start == start && initialLog == log && this.log == log
      ensures Sys(Connecting) == Initial(start, log)
    {
      this.start, initialLog, this.log := start, log, log;
      lastId, backoff, emitted := start, INITIAL_RECONNECT_DELAY_MS, [];
      failures, trace := 0, [];
    }

    ghost function Sys(phase: Phase<P>): System<P>
      reads this
    {
      System(start, log, lastId, phase, emitted, backoff, failures)
    }

    /** The trace is a run of the protocol, from the first log to state `s`. */
    ghost predicate Reached(s: System<P>)
      reads this
    {
      Follows(Initial(start, initialLog), trace, s)
    }

    ghost predicate At(phase: Phase<P>)
      reads this
    {
      Reached(Sys(phase))
    }

    /** Entries arrive at the server while the generator waits. */
    method Wait(sent: Log<P>, ghost phase: Phase<P>)
      requires At(phase)
      modifies this`log, this`trace
      ensures At(phase) && log == Accepting(old(log), sent)
    {
      trace := FollowsArrivals(Initial(start, initialLog), trace, Sys(phase), sent);
      log := Accepting(log, sent);
    }

    /** Records one step of the generator itself. */
    ghost method Record(phase: Phase<P>, e: Event<P>)
      requires At(phase) && Enabled(Sys(phase), e)
      modifies this`trace
      ensures Reached(Next(Sys(phase), e))
    {
      FollowsNext(Initial(start, initialLog), trace, Sys(phase), e);
      trace := trace + [e];
    }

    /** Delivers a reply entry by entry; the last id moves on before each item is handed out. */
    method Deliver(reply: Log<P>)
      requires At(Reading(reply))
      modifies this`lastId, this`emitted, this`trace
      ensures At(Reading([])) && emitted == old(emitted) + Items(reply)
      ensures lastId == if reply == [] then old(lastId) else reply[|reply| - 1].id
    {
      hide Follows;
      assert reply[0..] == reply;
      for i := 0 to |reply|
        invariant emitted == old(emitted) + Items(reply[..i])
        invariant lastId == if i == 0 then old(lastId) else reply[i - 1].id
        invariant At(Reading(reply[i..]))
      {
        Record(Reading(reply[i..]), Yield);
        lastId := reply[i].id;
        emitted := emitted + [FromEntry(reply[i])];
        assert Items(reply[..i + 1]) == Items(reply[..i]) + [FromEntry(reply[i])];
        assert reply[i..][1..] == reply[i + 1..];
      }
      assert reply[..|reply|] == reply && reply[|reply|..] == [];
    }

    /** The state of the protocol when the inner loop is left in the given way. */
    ghost function Left(leaving: Leaving): System<P>
      requires leaving.Broken? ==> InRange(leaving.jitter, backoff)
      reads this
    {
      match leaving
      case Waiting => Sys(Reading([]))
      case Fatal => Sys(Ended)
      case Broken(jitter, up) => FallAsleep(Sys(Connecting), jitter, up)
    }

    /** The delay before the next attempt to connect. */
    method Sleep(jitter: nat, up: bool) returns (delay: nat)
      requires InRange(jitter, backoff) && Reached(FallAsleep(Sys(Connecting), jitter, up))
      modifies this`backoff, this`failures, this`trace
      ensures delay == Jittered(old(backoff), jitter, up)
      ensures At(Connecting) && Sys(Sleeping(delay)) == FallAsleep(old(Sys(Connecting)), jitter, up)
    {
      hide Follows;
      delay := Jittered(backoff, jitter, up);
      backoff := Doubled(backoff);
      failures := failures + 1;
      Record(Sleeping(delay), Wake);
    }

    /** One request on an open connection. */
    method ReadOnce(read: Read<P>) returns (leaving: Leaving)
      requires At(Reading([]))
      modifies this`log, this`lastId, this`emitted, this`trace
      ensures leaving.Broken? ==> InRange(leaving.jitter, backoff)
      ensures Reached(Left(leaving)) && Left(leaving) == AfterRead(old(Sys(Reading([]))), read)
      ensures log == Accepting(old(log), read.sent)
      ensures read.answer.Replied? ==>
                var reply := ReplyTo(log, old(lastId), read.answer.n);
                && leaving.Waiting? && emitted == old(emitted) + Items(reply)
                && lastId == if reply == [] then old(lastId) else reply[|reply| - 1].id
      ensures read.answer.Failed? ==>
                var error := read.answer.error;
                if error.io || error.timeout || error.dropped || error.refused
                then leaving.Broken? && emitted == old(emitted) && lastId == old(lastId)
                else leaving.Fatal? && emitted == old(emitted) + [Failure(error.message)] && lastId == old(lastId)
    {
      hide Follows;
      Wait(read.sent, Reading([]));
      match read.answer {
        case Replied(n) =>
          var reply := ReplyTo(log, lastId, n);
          assert reply == EntriesAfter(log, lastId)[..|reply|];
          Record(Reading([]), Reply(|reply|));
          Deliver(reply);
          leaving := Waiting;
        case Failed(error) =>
          var jitter := JitterOf(read.jitter, backoff);
          Record(Reading([]), ReadFails(error, jitter, read.up));
          if error.Transient() {
            leaving := Broken(jitter, read.up);
          } else {
            emitted := emitted + [Failure(error.message)];
            leaving := Fatal;
          }
      }
    }

    /** The inner loop. */
    method ReadAll(requests: seq<Read<P>>) returns (leaving: Leaving)
      requires At(Reading([]))
      modifies this`log, this`lastId, this`emitted, this`trace
      ensures leaving.Broken? ==> InRange(leaving.jitter, backoff)
      ensures Reached(Left(leaving)) && Left(leaving) == AfterReads(old(Sys(Reading([]))), requests)
    {
      hide Follows, AfterRead;
      leaving := Waiting;
      assert requests[0..] == requests;
      for k := 0 to |requests|
        invariant leaving.Waiting? && At(Reading([]))
        invariant AfterReads(Sys(Reading([])), requests[k..]) == AfterReads(old(Sys(Reading([]))), requests)
      {
        assert requests[k..][1..] == requests[k + 1..];
        leaving := ReadOnce(requests[k]);
        if !leaving.Waiting? {
          break;
        }
      }
    }

    /** The outer loop: runs for as long as the environment answers, or until a read fails for good. */
    method ReadStream(attempts: seq<Attempt<P>>) returns (ghost phase: Phase<P>)
      requires At(Connecting)
      modifies this
      ensures At(phase) && Sys(phase) == AfterAttempts(old(Sys(Connecting)), attempts)
    {
      hide Follows, AfterReads, FallAsleep;
      assert attempts[0..] == attempts;
      for k := 0 to |attempts|
        invariant At(Connecting)
        invariant AfterAttempts(Sys(Connecting), attempts[k..]) == AfterAttempts(old(Sys(Connecting)), attempts)
      {
        assert attempts[k..][1..] == attempts[k + 1..];
        var attempt := attempts[k];
        ghost var before := Sys(Connecting);
        Wait(attempt.sent, Connecting);
        var jitter, up := JitterOf(attempt.jitter, backoff), attempt.up;
        if attempt.connected {
          Record(Connecting, Connect);
          backoff := INITIAL_RECONNECT_DELAY_MS;
          failures := 0;
          var leaving := ReadAll(attempt.requests);
          assert Left(leaving) == AfterAttempt(before, attempt);
          if !leaving.Broken? {
            return if leaving.Waiting? then Reading([]) else Ended;
          }
          jitter, up := leaving.jitter, leaving.up;
        } else {
          Record(Connecting, ConnectFails(jitter, up));
        }
        assert FallAsleep(Sys(Connecting), jitter, up) == AfterAttempt(before, attempt);
        var delay := Sleep(jitter, up);
      }
      return Connecting;
    }
  }

  lemma {:induction false} LogGrows<P>(s: System<P>, requests: seq<Read<P>>)
    ensures s.log <= AfterReads(s, requests).log
    decreases |requests|
  {
    if requests != [] && s.phase == Reading([]) {
      LogGrows(AfterRead(s, requests[0]), requests[1..]);
    }
  }

  lemma {:induction false} LogGrowsOverAttempts<P>(s: System<P>, attempts: seq<Attempt<P>>)
    ensures s.log <= AfterAttempts(s, attempts).log
    decreases |attempts|
  {
    if attempts != [] && s.phase.Connecting? {
      var attempt := attempts[0];
      var now := s.(log := Accepting(s.log, attempt.sent));
      LogGrows(now.(phase := Reading([]), backoff := INITIAL_RECONNECT_DELAY_MS, failures := 0), attempt.requests);
      LogGrowsOverAttempts(Awake(AfterAttempt(s, attempt)), attempts[1..]);
    }
  }

  /** What the subscriber of a finished or interrupted generator has received. */
  method ReceivedItems<P(!new)>(start: Id, log: Log<P>, attempts: seq<Attempt<P>>)
    returns (items: seq<Item<P>>, final: Log<P>, ghost n: nat)
    requires Increasing(log)
    ensures log <= final && n <= |EntriesAfter(final, start)|
    ensures Items(EntriesAfter(final, start)[..n]) <= items
    ensures |items| == n || (|items| == n + 1 && items[n].Failure?)
    ensures items == AfterAttempts(Initial(start, log), attempts).emitted
  {
    var reader := new Reader(start, log);
    assert reader.Sys(Connecting) == Initial(start, log);
    ghost var phase := reader.ReadStream(attempts);
    LogGrowsOverAttempts(Initial(start, log), attempts);
    items, final := reader.emitted, reader.log;
    n := EmitsContiguousRun(start, log, reader.trace);
  }
}
