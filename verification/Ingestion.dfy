/**
  From delivered logs to the events table. Popping a log, reading the chain head and writing or putting the log
  back are separate steps, and subscriptions deliver logs between any two of them.
*/
module Ingestion {
  import opened Chain
  import opened Queue

  // ------------------------------------------------------- the events table

  /** A stored row with the log's block number and log index. */
  predicate HasKey(events: seq<Log>, log: Log) {
    exists i :: 0 <= i < |events| && events[i].block == log.block && events[i].index == log.index
  }

  /** Insert unless a row with the same block number and log index is there. */
  function WriteIdempotentEvent(events: seq<Log>, log: Log): seq<Log> {
    if HasKey(events, log) then events else events + [log]
  }

  // --------------------------------------------------------- the protocol

  datatype Phase =
    | Idle
    | Popped(event: Log, headAtPop: nat)
    | Read(event: Log, head: nat)

  /** The lost logs are those dropped by an error since the last restart. */
  datatype State = State(head: nat, queue: multiset<Log>, phase: Phase, events: seq<Log>, lost: set<Log>)

  datatype Action =
    | Deliver(log: Log)                    // a subscription inserts a log, possibly once more
    | Advance(blocks: nat)                 // the chain grows
    | Pop(event: Log)
    | ReadHead
    | Finish                               // write the popped log or put it back
    | Fail                                 // reading the head or writing fails, and the popped log is dropped
    | Restart(backfill: multiset<Log>)     // a crash empties memory, a restart fills the queue again

  /**
    What the environment promises: live logs come at most `delay` blocks late, and the head moves at most `lag`
    between pop and read. An error is sent to another goroutine, which stops the loop; `prompt` says that this
    happens before the loop finishes another log.
  */
  datatype Timing = Timing(live: iset<Log>, delay: nat, lag: nat, prompt: bool)

  /** No two live logs share block and log index. */
  ghost predicate UniqueKeys(live: iset<Log>) {
    forall a, b :: a in live && b in live && !a.Less(b) && !b.Less(a) ==> a == b
  }

  ghost predicate Known(s: State, log: Log) {
    log in s.queue || log in s.events || log in s.lost || (!s.phase.Idle? && s.phase.event == log)
  }

  /** Every live log whose delivery is overdue at the given head is known. */
  ghost predicate Punctual(t: Timing, s: State, head: nat) {
    forall log :: log in t.live && log.block + t.delay < head ==> Known(s, log)
  }

  ghost predicate Enabled(t: Timing, s: State, a: Action) {
    match a
    case Deliver(log) => log in t.live
    case Advance(blocks) => Punctual(t, s, s.head + blocks)
    case Pop(event) => s.phase.Idle? && event in s.queue && forall x :: x in s.queue ==> !x.Less(event)
    case ReadHead => s.phase.Popped? && s.head <= s.phase.headAtPop + t.lag
    case Finish => s.phase.Read? && (t.prompt ==> s.lost == {})
    case Fail => !s.phase.Idle?
    case Restart(backfill) =>
      && (forall log :: log in backfill ==> log in t.live)
      && (forall log :: log in t.live && log.block <= s.head ==> log in backfill || log in s.events)
  }

  function After(confirmations: nat, s: State, a: Action): State {
    match a
    case Deliver(log) => s.(queue := s.queue + multiset{log})
    case Advance(blocks) => s.(head := s.head + blocks)
    case Pop(event) => s.(queue := s.queue - multiset{event}, phase := Popped(event, s.head))
    case ReadHead => if s.phase.Popped? then s.(phase := Read(s.phase.event, s.head)) else s
    case Finish =>
      if !s.phase.Read? then s
      else if s.phase.event.block + confirmations > s.phase.head
      then s.(queue := s.queue + multiset{s.phase.event}, phase := Idle)
      else s.(phase := Idle, events := WriteIdempotentEvent(s.events, s.phase.event))
    case Fail => if s.phase.Idle? then s else s.(phase := Idle, lost := s.lost + {s.phase.event})
    case Restart(backfill) => s.(queue := backfill, phase := Idle, lost := {})
  }

  function Execute(confirmations: nat, s: State, actions: seq<Action>): State {
    if actions == [] then s
    else After(confirmations, Execute(confirmations, s, actions[..|actions| - 1]), actions[|actions| - 1])
  }

  /** Every action is enabled when it happens. */
  ghost predicate Allowed(t: Timing, confirmations: nat, s: State, actions: seq<Action>) {
    actions == [] ||
    (Allowed(t, confirmations, s, actions[..|actions| - 1]) &&
     Enabled(t, Execute(confirmations, s, actions[..|actions| - 1]), actions[|actions| - 1]))
  }

  /** The stored logs are live, in strict order, and no live log below a stored one is missing. */
  ghost predicate OrderedPrefix(live: iset<Log>, events: seq<Log>) {
    && StrictlyIncreasing(events)
    && (forall log :: log in events ==> log in live)
    && (forall w, log :: w in events && log in live && log.Less(w) ==> log in events)
  }

  /** Nothing in memory but queued live logs, and an ordered prefix in the table. */
  ghost predicate Initial(t: Timing, s: State) {
    && UniqueKeys(t.live) && OrderedPrefix(t.live, s.events)
    && s.phase.Idle? && s.lost == {} && (forall log :: log in s.queue ==> log in t.live)
    && Punctual(t, s, s.head)
  }

  /** All live logs below this one are stored or lost. */
  ghost predicate IsNext(t: Timing, s: State, event: Log) {
    forall log :: log in t.live && log.Less(event) ==> log in s.events || log in s.lost
  }

  ghost predicate Inv(t: Timing, confirmations: nat, s: State) {
    && UniqueKeys(t.live) && OrderedPrefix(t.live, s.events)
    && (forall log :: log in s.queue ==> log in t.live)
    && (!s.phase.Idle? ==> s.phase.event in t.live)
    && Punctual(t, s, s.head)
    && (s.phase.Popped? && s.phase.event.block + t.delay < s.phase.headAtPop ==> IsNext(t, s, s.phase.event))
    && (s.phase.Read? && s.phase.event.block + confirmations <= s.phase.head ==> IsNext(t, s, s.phase.event))
  }

  /** Writing the next live log extends the ordered prefix; a log that is already stored is not stored again. */
  lemma WriteKeepsPrefix(live: iset<Log>, events: seq<Log>, event: Log)
    requires UniqueKeys(live) && OrderedPrefix(live, events) && event in live
    requires forall log :: log in live && log.Less(event) ==> log in events
    ensures OrderedPrefix(live, WriteIdempotentEvent(events, event))
    ensures event in WriteIdempotentEvent(events, event)
  {
    if HasKey(events, event) {
      var i :| 0 <= i < |events| && events[i].block == event.block && events[i].index == event.index;
      assert events[i] in events;
    } else {
      forall i | 0 <= i < |events| ensures events[i].Less(event) {
        assert events[i] in events;
        assert event.Less(events[i]) ==> event in events;
      }
    }
  }

  lemma FinishKeepsInv(t: Timing, confirmations: nat, s: State)
    requires Inv(t, confirmations, s) && s.phase.Read? && s.lost == {}
    ensures Inv(t, confirmations, After(confirmations, s, Finish))
  {
    hide OrderedPrefix, UniqueKeys;
    var u := After(confirmations, s, Finish);
    if s.phase.event.block + confirmations <= s.phase.head {
      WriteKeepsPrefix(t.live, s.events, s.phase.event);
    }
    forall log | Known(s, log) ensures Known(u, log) {
    }
  }

  lemma PopKeepsInv(t: Timing, confirmations: nat, s: State, event: Log)
    requires Inv(t, confirmations, s) && Enabled(t, s, Pop(event))
    ensures Inv(t, confirmations, After(confirmations, s, Pop(event)))
  {
    hide OrderedPrefix, UniqueKeys;
    var u := After(confirmations, s, Pop(event));
    forall log | Known(s, log) ensures Known(u, log) {
    }
    forall log | log in t.live && log.Less(event) && event.block + t.delay < s.head
      ensures log in s.events || log in s.lost
    {
      assert Known(s, log);
    }
  }

  lemma StepKeepsInv(t: Timing, confirmations: nat, s: State, a: Action)
    requires t.delay + t.lag < confirmations && t.prompt
    requires Inv(t, confirmations, s) && Enabled(t, s, a)
    ensures Inv(t, confirmations, After(confirmations, s, a))
  {
    var u := After(confirmations, s, a);
    if a.Finish? {
      FinishKeepsInv(t, confirmations, s);
    } else if a.Pop? {
      PopKeepsInv(t, confirmations, s, a.event);
    } else if a.Restart? {
      forall log | log in t.live && log.block + t.delay < s.head ensures Known(u, log) {
      }
    } else {
      forall log | Known(s, log) ensures Known(u, log) {
      }
    }
  }

  /** The invariant over whole runs. */
  lemma {:induction false} RunKeepsInv(t: Timing, confirmations: nat, s: State, actions: seq<Action>)
    requires t.delay + t.lag < confirmations && t.prompt
    requires Initial(t, s) && Allowed(t, confirmations, s, actions)
    ensures Inv(t, confirmations, Execute(confirmations, s, actions))
  {
    hide Inv, Enabled, After;
    if actions == [] {
      InitialHasInv(t, confirmations, s);
    } else {
      var init := actions[..|actions| - 1];
      RunKeepsInv(t, confirmations, s, init);
      StepKeepsInv(t, confirmations, Execute(confirmations, s, init), actions[|actions| - 1]);
    }
  }

  lemma InitialHasInv(t: Timing, confirmations: nat, s: State)
    requires Initial(t, s)
    ensures Inv(t, confirmations, s)
  {
  }

  /**
    With delay + lag below the confirmation depth and errors that stop the loop at once, the events table is always
    an ordered prefix of the live logs, whatever fails and restarts.
  */
  lemma InOrderIngestion(t: Timing, confirmations: nat, s: State, actions: seq<Action>)
    requires t.delay + t.lag < confirmations && t.prompt
    requires Initial(t, s) && Allowed(t, confirmations, s, actions)
    ensures OrderedPrefix(t.live, Execute(confirmations, s, actions).events)
  {
    hide Initial, Allowed, Execute;
    RunKeepsInv(t, confirmations, s, actions);
  }

  // ------------------------------------------------------------- tightness

  function LateLog(index: nat): Log {
    Log(0, index, "", "", OtherEvent(""))
  }

  function LateTiming(delay: nat, lag: nat, prompt: bool): Timing {
    Timing(iset{LateLog(0), LateLog(1)}, delay, lag, prompt)
  }

  lemma {:induction false} AllowedStep(t: Timing, confirmations: nat, s: State, actions: seq<Action>, a: Action)
    requires Allowed(t, confirmations, s, actions) && Enabled(t, Execute(confirmations, s, actions), a)
    ensures Allowed(t, confirmations, s, actions + [a])
    ensures Execute(confirmations, s, actions + [a]) == After(confirmations, Execute(confirmations, s, actions), a)
  {
    assert (actions + [a])[..|actions + [a]| - 1] == actions;
  }

  lemma OvertakingPops(delay: nat, lag: nat, prompt: bool, confirmations: nat, s: State) returns (actions: seq<Action>)
    requires s == State(delay, multiset{}, Idle, [], {})
    ensures Allowed(LateTiming(delay, lag, prompt), confirmations, s, actions)
    ensures Execute(confirmations, s, actions)
      == State(delay + lag, multiset{LateLog(0)}, Popped(LateLog(1), delay), [], {})
  {
    hide Allowed, Execute;
    var t, a, b := LateTiming(delay, lag, prompt), LateLog(0), LateLog(1);
    actions := Nothing(t, confirmations, s);
    actions := Extend(t, confirmations, s, actions, Deliver(b), State(delay, multiset{b}, Idle, [], {}));
    actions := Extend(t, confirmations, s, actions, Pop(b), State(delay, multiset{}, Popped(b, delay), [], {}));
    actions := Extend(t, confirmations, s, actions, Deliver(a), State(delay, multiset{a}, Popped(b, delay), [], {}));
    actions := Extend(t, confirmations, s, actions, Advance(lag),
      State(delay + lag, multiset{a}, Popped(b, delay), [], {}));
  }

  lemma OvertakingWrites(delay: nat, lag: nat, prompt: bool, confirmations: nat, s: State)
    returns (actions: seq<Action>)
    requires delay + lag >= confirmations && s == State(delay, multiset{}, Idle, [], {})
    ensures Allowed(LateTiming(delay, lag, prompt), confirmations, s, actions)
    ensures Execute(confirmations, s, actions) == State(delay + lag, multiset{LateLog(0)}, Idle, [LateLog(1)], {})
  {
    hide Allowed, Execute;
    var t, a, b, h := LateTiming(delay, lag, prompt), LateLog(0), LateLog(1), delay + lag;
    actions := OvertakingPops(delay, lag, prompt, confirmations, s);
    actions := Extend(t, confirmations, s, actions, ReadHead, State(h, multiset{a}, Read(b, h), [], {}));
    actions := Extend(t, confirmations, s, actions, Finish, State(h, multiset{a}, Idle, [b], {}));
  }

  /**
    If delay + lag reaches the confirmation depth, the second log of a block can overtake the first, which is
    delivered just in time but after the second was popped.
  */
  lemma LateLogsAreOvertaken(delay: nat, lag: nat, prompt: bool, confirmations: nat)
    returns (s: State, actions: seq<Action>)
    requires delay + lag >= confirmations
    ensures Initial(LateTiming(delay, lag, prompt), s) &&
      Allowed(LateTiming(delay, lag, prompt), confirmations, s, actions)
    ensures Execute(confirmations, s, actions).events == [LateLog(1), LateLog(0)]
  {
    hide Allowed, Execute;
    var t, a, b, h := LateTiming(delay, lag, prompt), LateLog(0), LateLog(1), delay + lag;
    s := State(delay, multiset{}, Idle, [], {});
    actions := OvertakingWrites(delay, lag, prompt, confirmations, s);
    actions := Extend(t, confirmations, s, actions, Pop(a), State(h, multiset{}, Popped(a, h), [b], {}));
    actions := Extend(t, confirmations, s, actions, ReadHead, State(h, multiset{}, Read(a, h), [b], {}));
    actions := Extend(t, confirmations, s, actions, Finish, State(h, multiset{}, Idle, [b, a], {}));
  }

  lemma DroppedLogIsLost(delay: nat, lag: nat, confirmations: nat, s: State) returns (actions: seq<Action>)
    requires s == State(confirmations, multiset{LateLog(0), LateLog(1)}, Idle, [], {})
    ensures Allowed(LateTiming(delay, lag, false), confirmations, s, actions)
    ensures Execute(confirmations, s, actions) == State(confirmations, multiset{LateLog(1)}, Idle, [], {LateLog(0)})
  {
    hide Allowed, Execute;
    var t, a, b, h := LateTiming(delay, lag, false), LateLog(0), LateLog(1), confirmations;
    actions := Nothing(t, confirmations, s);
    actions := Extend(t, confirmations, s, actions, Pop(a), State(h, multiset{b}, Popped(a, h), [], {}));
    actions := Extend(t, confirmations, s, actions, Fail, State(h, multiset{b}, Idle, [], {a}));
  }

  /** If an error does not stop the loop at once, the next log is written without the one that was dropped. */
  lemma DroppedLogIsSkipped(delay: nat, lag: nat, confirmations: nat) returns (s: State, actions: seq<Action>)
    ensures Initial(LateTiming(delay, lag, false), s) &&
      Allowed(LateTiming(delay, lag, false), confirmations, s, actions)
    ensures Execute(confirmations, s, actions).events == [LateLog(1)]
  {
    hide Allowed, Execute;
    var t, a, b, h := LateTiming(delay, lag, false), LateLog(0), LateLog(1), confirmations;
    s := State(h, multiset{a, b}, Idle, [], {});
    actions := DroppedLogIsLost(delay, lag, confirmations, s);
    actions := Extend(t, confirmations, s, actions, Pop(b), State(h, multiset{}, Popped(b, h), [], {a}));
    actions := Extend(t, confirmations, s, actions, ReadHead, State(h, multiset{}, Read(b, h), [], {a}));
    actions := Extend(t, confirmations, s, actions, Finish, State(h, multiset{}, Idle, [b], {a}));
  }

  lemma Nothing(t: Timing, confirmations: nat, s: State) returns (actions: seq<Action>)
    ensures actions == [] && Allowed(t, confirmations, s, actions) && Execute(confirmations, s, actions) == s
  {
    actions := [];
  }

  lemma Extend(t: Timing, confirmations: nat, s: State, actions: seq<Action>, a: Action, u: State)
    returns (longer: seq<Action>)
    requires Allowed(t, confirmations, s, actions) && Enabled(t, Execute(confirmations, s, actions), a)
    requires After(confirmations, Execute(confirmations, s, actions), a) == u
    ensures longer == actions + [a]
    ensures Allowed(t, confirmations, s, longer) && Execute(confirmations, s, longer) == u
  {
    longer := actions + [a];
    AllowedStep(t, confirmations, s, actions, a);
  }

  /** Every run over any live logs with these parameters keeps the events table an ordered prefix. */
  ghost predicate AlwaysInOrder(delay: nat, lag: nat, prompt: bool, confirmations: nat) {
    forall live, s, actions ::
      Initial(Timing(live, delay, lag, prompt), s) &&
        Allowed(Timing(live, delay, lag, prompt), confirmations, s, actions) ==>
        OrderedPrefix(live, Execute(confirmations, s, actions).events)
  }

  /**
    The assumptions are exactly right: every run ingests in order if and only if delay + lag stays below the
    confirmation depth and errors stop the loop at once.
  */
  lemma ConfirmationsAreTight(delay: nat, lag: nat, prompt: bool, confirmations: nat)
    ensures AlwaysInOrder(delay, lag, prompt, confirmations) <==> delay + lag < confirmations && prompt
  {
    hide Initial, Allowed, Execute;
    if delay + lag < confirmations && prompt {
      forall live, s, actions |
        Initial(Timing(live, delay, lag, prompt), s) &&
          Allowed(Timing(live, delay, lag, prompt), confirmations, s, actions)
        ensures OrderedPrefix(live, Execute(confirmations, s, actions).events)
      {
        InOrderIngestion(Timing(live, delay, lag, prompt), confirmations, s, actions);
      }
    } else {
      var live := LateTiming(delay, lag, prompt).live;
      assert Timing(live, delay, lag, prompt) == LateTiming(delay, lag, prompt);
      var s: State, actions: seq<Action>;
      if prompt || delay + lag >= confirmations {
        s, actions := LateLogsAreOvertaken(delay, lag, prompt, confirmations);
        var events := Execute(confirmations, s, actions).events;
        assert !events[0].Less(events[1]);
      } else {
        s, actions := DroppedLogIsSkipped(delay, lag, confirmations);
        assert LateLog(0).Less(LateLog(1)) && LateLog(1) in Execute(confirmations, s, actions).events;
      }
      assert !OrderedPrefix(live, Execute(confirmations, s, actions).events);
    }
  }

  // ------------------------------------------------------- the program's loop

  const REQUIRED_CONFIRMATIONS: nat := 4

  class EventProcessor {
    const queue: EventQueue
    var events: seq<Log>

    constructor (queue: EventQueue, events: seq<Log>)
      ensures this.queue == queue && this.events == events
    {
      this.queue := queue;
      this.events := events;
    }

    /**
      One cycle of the main loop. Without a head the node could not be reached, and a failed write stores nothing;
      CycleFollowsProtocol says what the outcome means.
    */
    method Cycle(currentBlock: Option<nat>, writeFails: bool) returns (ok: bool, ghost popped: Option<Log>)
      requires queue.Valid()
      modifies this, queue
      ensures queue.Valid()
      ensures popped.None? <==> old(queue.Contents()) == multiset{}
      ensures popped.None? ==> ok && queue.Contents() == multiset{} && events == old(events)
      ensures popped.Some? ==>
        && popped.value in old(queue.Contents())
        && (forall x :: x in old(queue.Contents()) ==> !x.Less(popped.value))
        && Outcome(queue.Contents(), events, ok)
           == OutcomeOf(old(queue.Contents()), old(events), popped.value, currentBlock, writeFails)
    {
      hide WriteIdempotentEvent;
      var event := queue.Next();
      popped := event;
      if event.None? {
        return true, popped;
      }
      if currentBlock.None? {
        return false, popped;
      }
      if event.value.block + REQUIRED_CONFIRMATIONS > currentBlock.value {
        queue.Insert(event.value);
      } else if writeFails {
        return false, popped;
      } else {
        events := WriteIdempotentEvent(events, event.value);
      }
      return true, popped;
    }
  }

  datatype Outcome = Outcome(queue: multiset<Log>, events: seq<Log>, ok: bool)

  /** What handling one popped log leaves behind. */
  function OutcomeOf(
    queue: multiset<Log>, events: seq<Log>, event: Log, currentBlock: Option<nat>, writeFails: bool): Outcome
    requires event in queue
  {
    if currentBlock.None? then Outcome(queue - multiset{event}, events, false)
    else if event.block + REQUIRED_CONFIRMATIONS > currentBlock.value then Outcome(queue, events, true)
    else if writeFails then Outcome(queue - multiset{event}, events, false)
    else Outcome(queue - multiset{event}, WriteIdempotentEvent(events, event), true)
  }

  /** The state while a popped log is in hand, and after the head was read. */
  function InHand(s: State, event: Log, read: bool): State {
    s.(queue := s.queue - multiset{event}, phase := if read then Read(event, s.head) else Popped(event, s.head))
  }

  lemma CycleEnds(s: State, event: Log, currentBlock: Option<nat>, writeFails: bool)
    requires s.phase.Idle? && event in s.queue && (currentBlock.Some? ==> s.head == currentBlock.value)
    ensures
      var o := OutcomeOf(s.queue, s.events, event, currentBlock, writeFails);
      After(REQUIRED_CONFIRMATIONS, InHand(s, event, currentBlock.Some?), if o.ok then Finish else Fail)
        == s.(queue := o.queue, events := o.events, lost := if o.ok then s.lost else s.lost + {event})
  {
    hide WriteIdempotentEvent;
    assert s.queue - multiset{event} + multiset{event} == s.queue;
  }

  /**
    A cycle that takes a smallest log is a run of the protocol: a pop, followed by a failure, or by a head read and then
    a finish or a failure. With a prompt stop, it starts with nothing lost.
  */
  lemma CycleFollowsProtocol(t: Timing, s: State, event: Log, currentBlock: Option<nat>, writeFails: bool)
    returns (actions: seq<Action>)
    requires s.phase.Idle? && event in s.queue && (forall x :: x in s.queue ==> !x.Less(event))
    requires (currentBlock.Some? ==> s.head == currentBlock.value) && (t.prompt ==> s.lost == {})
    ensures
      var o := OutcomeOf(s.queue, s.events, event, currentBlock, writeFails);
      && actions == [Pop(event)] + (if currentBlock.Some? then [ReadHead] else []) + [if o.ok then Finish else Fail]
      && Allowed(t, REQUIRED_CONFIRMATIONS, s, actions)
      && Execute(REQUIRED_CONFIRMATIONS, s, actions)
         == s.(queue := o.queue, events := o.events, lost := if o.ok then s.lost else s.lost + {event})
  {
    hide Execute, Allowed, OutcomeOf;
    var o := OutcomeOf(s.queue, s.events, event, currentBlock, writeFails);
    actions := Nothing(t, REQUIRED_CONFIRMATIONS, s);
    actions := Extend(t, REQUIRED_CONFIRMATIONS, s, actions, Pop(event), InHand(s, event, false));
    if currentBlock.Some? {
      actions := Extend(t, REQUIRED_CONFIRMATIONS, s, actions, ReadHead, InHand(s, event, true));
    }
    CycleEnds(s, event, currentBlock, writeFails);
    var end := s.(queue := o.queue, events := o.events, lost := if o.ok then s.lost else s.lost + {event});
    OnlyReadsSucceed(s, event, currentBlock, writeFails);
    actions := Extend(t, REQUIRED_CONFIRMATIONS, s, actions, if o.ok then Finish else Fail, end);
  }

  lemma OnlyReadsSucceed(s: State, event: Log, currentBlock: Option<nat>, writeFails: bool)
    requires event in s.queue
    ensures OutcomeOf(s.queue, s.events, event, currentBlock, writeFails).ok ==> currentBlock.Some?
  {
  }

  /** A popped log is stored from four blocks on, and goes back before. */
  lemma FourConfirmations(queue: multiset<Log>, events: seq<Log>, event: Log, currentBlock: nat)
    requires event in queue
    ensures
      var o := OutcomeOf(queue, events, event, Some(currentBlock), false);
      && o.ok
      && (if event.block + 4 <= currentBlock
          then HasKey(o.events, event) && o.queue == queue - multiset{event}
          else o.events == events && o.queue == queue)
  {
    if event.block + 4 <= currentBlock && !HasKey(events, event) {
      assert (events + [event])[|events|] == event;
    }
  }

  /** An error loses the popped log: the head cannot be read, or a log that is deep enough cannot be written. */
  lemma ErrorsLoseTheLog(queue: multiset<Log>, events: seq<Log>, event: Log, head: nat)
    requires event in queue
    ensures OutcomeOf(queue, events, event, None, false) == Outcome(queue - multiset{event}, events, false)
    ensures OutcomeOf(queue, events, event, Some(head), true)
         == if event.block + 4 <= head then Outcome(queue - multiset{event}, events, false)
           else Outcome(queue, events, true)
  {
  }

  /** A restart keeps the stored events only; everything in memory is what the backfill queues. */
  lemma RestartForgets(confirmations: nat, s: State, backfill: multiset<Log>)
    ensures
      var u := After(confirmations, s, Restart(backfill));
      u.events == s.events && u.head == s.head && u.queue == backfill && u.phase.Idle? && u.lost == {}
  {
  }
}
