/** Turning stored events into rows: polls, batches, one transaction per event, retries and restarts. */
module Transforming {
  import opened Chain
  import opened Positions
  import opened Processing

  datatype EventRow = EventRow(log: Log, isProcessed: bool)

  const BATCH_LIMIT: nat := 100

  /** The events table, the derived rows, and what is left of the batch in hand. */
  datatype State = State(rows: seq<EventRow>, derived: Derived, batch: seq<Log>)

  datatype Action =
    | Append(log: Log)        // ingestion stores an event
    | Poll(batch: seq<Log>)
    | Commit                  // the next event's transaction goes through
    | RollBack                // it fails, and the rest of the batch is dropped
    | CommitUnreported        // it goes through but the commit reports an error, and the rest of the batch is dropped
    | Restart

  function Logs(rows: seq<EventRow>): seq<Log> {
    seq(|rows|, i requires 0 <= i < |rows| => rows[i].log)
  }

  /** UPDATE events SET is_processed = true for the row of this log. */
  function MarkProcessed(rows: seq<EventRow>, log: Log): seq<EventRow> {
    seq(|rows|, i requires 0 <= i < |rows| => if rows[i].log == log then EventRow(log, true) else rows[i])
  }

  /** The answer of the poll query: unprocessed events, in block and log index order, at most the limit. */
  ghost predicate IsBatch(rows: seq<EventRow>, batch: seq<Log>) {
    && StrictlyIncreasing(batch) && |batch| <= BATCH_LIMIT
    && (forall log :: log in batch ==> EventRow(log, false) in rows)
    && (forall r :: r in rows && !r.isProcessed && r.log !in batch ==>
          |batch| == BATCH_LIMIT && forall log :: log in batch ==> log.Less(r.log))
  }

  ghost predicate Enabled(mode: Mode, s: State, a: Action) {
    match a
    case Append(log) => forall r :: r in s.rows ==> r.log.Less(log)
    case Poll(batch) => s.batch == [] && IsBatch(s.rows, batch)
    case Commit => s.batch != [] && Process(mode, s.derived, s.batch[0]).Ok?
    case RollBack => s.batch != []
    case CommitUnreported => s.batch != [] && Process(mode, s.derived, s.batch[0]).Ok?
    case Restart => true
  }

  /** The one transaction of an event: its row changes and its processed flag, together or not at all. */
  function Transact(mode: Mode, s: State): State
    requires s.batch != []
  {
    match Process(mode, s.derived, s.batch[0])
    case Err(_) => s.(batch := [])
    case Ok(derived) => State(MarkProcessed(s.rows, s.batch[0]), derived, s.batch[1..])
  }

  function After(mode: Mode, s: State, a: Action): State {
    match a
    case Append(log) => s.(rows := s.rows + [EventRow(log, false)])
    case Poll(batch) => s.(batch := batch)
    case Commit => if s.batch == [] then s else Transact(mode, s)
    case RollBack => s.(batch := [])
    case CommitUnreported => if s.batch == [] then s else Transact(mode, s).(batch := [])
    case Restart => s.(batch := [])
  }

  function Execute(mode: Mode, s: State, actions: seq<Action>): State {
    if actions == [] then s
    else After(mode, Execute(mode, s, actions[..|actions| - 1]), actions[|actions| - 1])
  }

  ghost predicate Allowed(mode: Mode, s: State, actions: seq<Action>) {
    actions == [] ||
    (Allowed(mode, s, actions[..|actions| - 1]) &&
     Enabled(mode, Execute(mode, s, actions[..|actions| - 1]), actions[|actions| - 1]))
  }

  const START := State([], NOTHING_DERIVED, [])

  // -------------------------------------------------------------- invariant

  /** The first n events are processed, no other one is, and the derived rows are the fold of exactly those n. */
  ghost predicate ProcessedUpTo(mode: Mode, s: State, n: nat) {
    && n <= |s.rows|
    && StrictlyIncreasing(Logs(s.rows))
    && (forall i :: 0 <= i < |s.rows| ==> (s.rows[i].isProcessed <==> i < n))
    && ProcessAll(mode, Logs(s.rows)[..n]) == Ok(s.derived)
    && n + |s.batch| <= |s.rows| && s.batch == Logs(s.rows)[n..n + |s.batch|]
  }

  /** If whatever the smaller sequence leaves out is greater than all of it, it is a prefix of the larger one. */
  lemma {:induction false} IncreasingPrefix(all: seq<Log>, some: seq<Log>)
    requires StrictlyIncreasing(all) && StrictlyIncreasing(some)
    requires forall log :: log in some ==> log in all
    requires forall x, log :: x in all && x !in some && log in some ==> log.Less(x)
    ensures some <= all
    decreases |some|
  {
    if some != [] {
      var first := some[0];
      assert first in some;
      var i :| 0 <= i < |all| && all[i] == first;
      var least := all[0];
      assert least in all;
      assert i > 0 ==> least.Less(all[i]);
      if least in some {
        var j :| 0 <= j < |some| && some[j] == least;
        assert j > 0 ==> some[0].Less(some[j]);
      }
      assert first == least;
      forall log | log in some[1..] ensures log in all[1..] {
        var k :| 0 <= k < |some| - 1 && some[1..][k] == log;
        assert some[0].Less(some[k + 1]) && log in some;
        var m :| 0 <= m < |all| && all[m] == log;
        assert all[1..][m - 1] == log;
      }
      IncreasingPrefix(all[1..], some[1..]);
    }
  }

  /** In an ordered table the poll query returns the events right after the processed ones. */
  lemma BatchIsNextSlice(rows: seq<EventRow>, n: nat, batch: seq<Log>)
    requires n <= |rows| && StrictlyIncreasing(Logs(rows))
    requires forall i :: 0 <= i < |rows| ==> (rows[i].isProcessed <==> i < n)
    requires IsBatch(rows, batch)
    ensures n + |batch| <= |rows| && batch == Logs(rows)[n..n + |batch|]
  {
    var waiting := Logs(rows)[n..];
    forall log | log in batch ensures log in waiting {
      var i :| 0 <= i < |rows| && rows[i] == EventRow(log, false);
      assert waiting[i - n] == log;
    }
    forall x, log | x in waiting && x !in batch && log in batch ensures log.Less(x) {
      var k :| 0 <= k < |waiting| && waiting[k] == x;
      assert rows[n + k] in rows;
    }
    IncreasingPrefix(waiting, batch);
  }

  lemma CommitAdvances(mode: Mode, s: State, n: nat)
    requires ProcessedUpTo(mode, s, n) && s.batch != [] && Process(mode, s.derived, s.batch[0]).Ok?
    ensures ProcessedUpTo(mode, Transact(mode, s), n + 1)
  {
    hide Process;
    var u, logs := Transact(mode, s), Logs(s.rows);
    assert s.batch[0] == logs[n];
    forall i | 0 <= i < |s.rows| && i != n ensures s.rows[i].log != s.batch[0] {
      assert logs[i].Less(logs[n]) || logs[n].Less(logs[i]);
    }
    assert Logs(u.rows) == logs;
    assert logs[..n + 1][..n] == logs[..n];
    assert u.batch == logs[n + 1..n + 1 + |u.batch|];
  }

  lemma AppendKeeps(mode: Mode, s: State, n: nat, log: Log)
    requires ProcessedUpTo(mode, s, n) && forall r :: r in s.rows ==> r.log.Less(log)
    ensures ProcessedUpTo(mode, s.(rows := s.rows + [EventRow(log, false)]), n)
  {
    hide Process;
    var u := s.(rows := s.rows + [EventRow(log, false)]);
    assert Logs(u.rows) == Logs(s.rows) + [log];
    assert Logs(u.rows)[..n] == Logs(s.rows)[..n];
    forall i | 0 <= i < |s.rows| ensures Logs(s.rows)[i].Less(log) {
      assert s.rows[i] in s.rows;
    }
  }

  /** One action moves the processed prefix by at most one event. */
  lemma StepKeepsPrefix(mode: Mode, s: State, n: nat, a: Action) returns (m: nat)
    requires ProcessedUpTo(mode, s, n) && Enabled(mode, s, a)
    ensures n <= m <= n + 1 && ProcessedUpTo(mode, After(mode, s, a), m)
  {
    hide Process, ProcessFrom;
    m := n;
    match a
    case Append(log) => AppendKeeps(mode, s, n, log);
    case Poll(batch) => BatchIsNextSlice(s.rows, n, batch);
    case Commit => CommitAdvances(mode, s, n); m := n + 1;
    case RollBack =>
    case CommitUnreported => CommitAdvances(mode, s, n); m := n + 1;
    case Restart =>
  }

  /**
    Exactly once, whatever the schedule: after any run of polls, appends, commits, failures and restarts, the
    processed events are a prefix of the stored order and the derived rows are the fold of exactly that prefix.
  */
  lemma {:induction false} ExactlyOnce(mode: Mode, actions: seq<Action>) returns (n: nat)
    requires Allowed(mode, START, actions)
    ensures ProcessedUpTo(mode, Execute(mode, START, actions), n)
  {
    hide ProcessedUpTo, Enabled, After;
    if actions == [] {
      n := 0;
      StartIsProcessed(mode);
    } else {
      var init := actions[..|actions| - 1];
      var k := ExactlyOnce(mode, init);
      n := StepKeepsPrefix(mode, Execute(mode, START, init), k, actions[|actions| - 1]);
    }
  }

  lemma StartIsProcessed(mode: Mode)
    ensures ProcessedUpTo(mode, START, 0)
  {
    assert Logs(START.rows)[..0] == [];
  }

  /** Once nothing is unprocessed, the derived rows are those of all stored events. */
  lemma AllProcessed(mode: Mode, actions: seq<Action>)
    requires Allowed(mode, START, actions)
    requires forall r :: r in Execute(mode, START, actions).rows ==> r.isProcessed
    ensures
      var s := Execute(mode, START, actions);
      ProcessAll(mode, Logs(s.rows)) == Ok(s.derived)
  {
    hide Allowed, Execute, ProcessFrom;
    var s := Execute(mode, START, actions);
    var n := ExactlyOnce(mode, actions);
    if s.rows != [] {
      assert s.rows[|s.rows| - 1] in s.rows;
    }
    assert Logs(s.rows)[..n] == Logs(s.rows);
  }

  /** Two runs that store the same events and leave none unprocessed end with the same derived rows. */
  lemma ScheduleDoesNotMatter(mode: Mode, a: seq<Action>, b: seq<Action>)
    requires Allowed(mode, START, a) && Allowed(mode, START, b)
    requires forall r :: r in Execute(mode, START, a).rows ==> r.isProcessed
    requires forall r :: r in Execute(mode, START, b).rows ==> r.isProcessed
    requires Logs(Execute(mode, START, a).rows) == Logs(Execute(mode, START, b).rows)
    ensures Execute(mode, START, a).derived == Execute(mode, START, b).derived
  {
    hide Allowed, Execute, ProcessFrom;
    AllProcessed(mode, a);
    AllProcessed(mode, b);
  }

  /** An event that cannot be processed is never skipped: nothing after it is ever marked processed. */
  lemma RejectedEventBlocks(mode: Mode, actions: seq<Action>, bad: nat)
    requires Allowed(mode, START, actions)
    requires bad < |Execute(mode, START, actions).rows|
    requires ProcessAll(mode, Logs(Execute(mode, START, actions).rows)[..bad + 1]).Err?
    ensures forall i :: bad <= i < |Execute(mode, START, actions).rows| ==>
      !Execute(mode, START, actions).rows[i].isProcessed
  {
    hide Allowed, Execute, ProcessFrom;
    var s := Execute(mode, START, actions);
    var n := ExactlyOnce(mode, actions);
    var logs := Logs(s.rows);
    assert n > bad ==> logs[..n][..bad + 1] == logs[..bad + 1];
    if n > bad {
      ErrorsPersist(mode, logs[..n], bad + 1);
    }
  }

  lemma {:induction false} ErrorsPersist(mode: Mode, events: seq<Log>, k: nat)
    requires k <= |events| && ProcessAll(mode, events[..k]).Err?
    ensures ProcessAll(mode, events).Err?
  {
    hide Process;
    if k == |events| {
      assert events[..k] == events;
    } else {
      var init := events[..|events| - 1];
      assert init[..k] == events[..k];
      ErrorsPersist(mode, init, k);
    }
  }

  // ------------------------------------------------------------ the program

  /** What the database does to one transaction, apart from the event's own errors. */
  datatype Fault = NoFault | Fails | CommitsWithError

  /** What becomes of the k-th event of a batch: its own error and a failing database roll it back. */
  ghost predicate IsOutcome(mode: Mode, start: State, faults: nat -> Fault, trace: seq<Action>, k: nat)
    requires k < |trace| <= |start.batch|
  {
    trace[k] ==
      if faults(k) == Fails || Process(mode, Execute(mode, start, trace[..k]).derived, start.batch[k]).Err?
      then RollBack
      else if faults(k) == CommitsWithError then CommitUnreported
      else Commit
  }

  /** The actions of one batch: an outcome per event, up to the first that is not a plain commit. */
  ghost predicate IsBatchRun(mode: Mode, start: State, faults: nat -> Fault, trace: seq<Action>, failed: bool) {
    && |trace| <= |start.batch|
    && (forall k: nat {:trigger IsOutcome(mode, start, faults, trace, k)} :: k < |trace| ==>
      IsOutcome(mode, start, faults, trace, k))
    && (forall k :: 0 <= k < |trace| - 1 ==> trace[k] == Commit)
    && (failed <==> trace != [] && trace[|trace| - 1] != Commit)
    && (!failed ==> |trace| == |start.batch|)
  }

  lemma OutcomesSnoc(mode: Mode, start: State, faults: nat -> Fault, trace: seq<Action>, a: Action)
    requires |trace| < |start.batch|
    requires forall k: nat {:trigger IsOutcome(mode, start, faults, trace, k)} :: k < |trace| ==>
      IsOutcome(mode, start, faults, trace, k)
    requires forall k :: 0 <= k < |trace| ==> trace[k] == Commit
    requires a ==
      if faults(|trace|) == Fails || Process(mode, Execute(mode, start, trace).derived, start.batch[|trace|]).Err?
      then RollBack
      else if faults(|trace|) == CommitsWithError then CommitUnreported
      else Commit
    ensures forall k: nat {:trigger IsOutcome(mode, start, faults, trace + [a], k)} ::
      k < |trace| + 1 ==> IsOutcome(mode, start, faults, trace + [a], k)
  {
    hide Process, Execute;
    forall k: nat | k < |trace| + 1 ensures IsOutcome(mode, start, faults, trace + [a], k) {
      if k < |trace| {
        assert IsOutcome(mode, start, faults, trace, k);
        assert (trace + [a])[..k] == trace[..k];
      } else {
        assert (trace + [a])[..k] == trace;
      }
    }
  }

  class Transformer {
    const mode: Mode
    var rows: seq<EventRow>
    var derived: Derived
    var retryCount: nat
    var hasLastError: bool
    var stopped: bool

    const maxRetries: nat := 0

    constructor (mode: Mode)
      ensures this.mode == mode && rows == [] && derived == NOTHING_DERIVED && !hasLastError && !stopped
    {
      this.mode := mode;
      rows, derived := [], NOTHING_DERIVED;
      retryCount, hasLastError, stopped := 0, false, false;
    }

    ghost function Holding(batch: seq<Log>): State
      reads this
    {
      State(rows, derived, batch)
    }

    /** The poll query; the table is kept in order by ingestion, so the first unprocessed rows are the answer. */
    method QueryUnprocessed() returns (batch: seq<Log>)
      requires StrictlyIncreasing(Logs(rows))
      ensures IsBatch(rows, batch)
    {
      batch := [];
      var i := 0;
      while i < |rows| && |batch| < BATCH_LIMIT
        invariant 0 <= i <= |rows| && |batch| <= BATCH_LIMIT && StrictlyIncreasing(batch)
        invariant forall log :: log in batch ==> EventRow(log, false) in rows[..i]
        invariant forall k :: 0 <= k < i && !rows[k].isProcessed ==> rows[k].log in batch
      {
        if !rows[i].isProcessed {
          EarlierIsLess(rows, i, batch);
          batch := batch + [rows[i].log];
        }
        i := i + 1;
      }
      forall r | r in rows && !r.isProcessed && r.log !in batch
        ensures |batch| == BATCH_LIMIT && forall log :: log in batch ==> log.Less(r.log)
      {
        var k :| 0 <= k < |rows| && rows[k] == r;
        assert k >= i;
        LaterIsGreater(rows, i, k, batch);
      }
    }

    /**
      Each event in its own transaction; the first failure abandons the rest. The method is a run of the protocol
      from the state holding the batch, made of commits and at most one failure at the end.
    */
    method ProcessBatch(batch: seq<Log>, faults: nat -> Fault) returns (failed: bool, ghost trace: seq<Action>)
      modifies this`rows, this`derived
      ensures Execute(mode, old(Holding(batch)), trace) == Holding([])
      ensures Allowed(mode, old(Holding(batch)), trace)
      ensures IsBatchRun(mode, old(Holding(batch)), faults, trace, failed)
    {
      hide Process, MarkProcessed, Execute, Allowed, IsOutcome;
      ghost var start := Holding(batch);
      trace := Unstarted(mode, start);
      for i := 0 to |batch|
        invariant Execute(mode, start, trace) == Holding(batch[i..]) && Allowed(mode, start, trace)
        invariant |trace| == i && forall k :: 0 <= k < i ==> trace[k] == Commit
        invariant forall k: nat {:trigger IsOutcome(mode, start, faults, trace, k)} :: k < i ==>
          IsOutcome(mode, start, faults, trace, k)
      {
        assert batch[i..][0] == batch[i] && batch[i..][1..] == batch[i + 1..];
        var transformed := Process(mode, derived, batch[i]);
        if transformed.Err? || faults(i) == Fails {
          OutcomesSnoc(mode, start, faults, trace, RollBack);
          trace := Recorded(mode, start, trace, RollBack);
          return true, trace;
        }
        OutcomesSnoc(mode, start, faults, trace, if faults(i) == CommitsWithError then CommitUnreported else Commit);
        rows, derived := MarkProcessed(rows, batch[i]), transformed.value;
        if faults(i) == CommitsWithError {
          trace := Recorded(mode, start, trace, CommitUnreported);
          return true, trace;
        }
        trace := Recorded(mode, start, trace, Commit);
      }
      return false, trace;
    }

    /** With no retries allowed, the second failure without a successful batch in between stops the transformer. */
    method HandleError()
      modifies this`retryCount, this`hasLastError, this`stopped
      ensures hasLastError && retryCount == (if old(hasLastError) then old(retryCount) + 1 else 0)
      ensures stopped <==> old(stopped) || old(hasLastError)
    {
      if hasLastError {
        retryCount := retryCount + 1;
        if retryCount >= maxRetries {
          stopped := true;
          return;
        }
      } else {
        hasLastError := true;
        retryCount := 0;
      }
    }

    /** One round of the polling loop; a round that finds nothing neither counts as a success nor as a failure. */
    method Cycle(queryFails: bool, faults: nat -> Fault)
      returns (failed: bool, ghost batch: seq<Log>, ghost trace: seq<Action>)
      requires StrictlyIncreasing(Logs(rows))
      modifies this
      ensures !queryFails ==> IsBatch(old(rows), batch)
      ensures queryFails ==> batch == []
      ensures Execute(mode, old(Holding(batch)), trace) == Holding([]) && Allowed(mode, old(Holding(batch)), trace)
      ensures IsBatchRun(mode, old(Holding(batch)), faults, trace, failed)
      ensures queryFails || failed ==>
        && hasLastError && retryCount == (if old(hasLastError) then old(retryCount) + 1 else 0)
        && (stopped <==> old(stopped) || old(hasLastError))
      ensures !queryFails && batch == [] ==>
        hasLastError == old(hasLastError) && retryCount == old(retryCount) && stopped == old(stopped)
      ensures batch != [] && !failed ==> !hasLastError && retryCount == 0 && stopped == old(stopped)
    {
      failed := false;
      batch, trace := [], [];
      if queryFails {
        HandleError();
        return;
      }
      var events := QueryUnprocessed();
      batch := events;
      if |events| == 0 {
        return;
      }
      failed, trace := ProcessBatch(events, faults);
      if failed {
        HandleError();
        return;
      }
      retryCount := 0;
      hasLastError := false;
    }
  }

  lemma Unstarted(mode: Mode, s: State) returns (trace: seq<Action>)
    ensures trace == [] && Allowed(mode, s, trace) && Execute(mode, s, trace) == s
  {
    trace := [];
  }

  lemma Recorded(mode: Mode, s: State, trace: seq<Action>, a: Action) returns (longer: seq<Action>)
    requires Allowed(mode, s, trace) && Enabled(mode, Execute(mode, s, trace), a)
    ensures longer == trace + [a] && Allowed(mode, s, longer)
    ensures Execute(mode, s, longer) == After(mode, Execute(mode, s, trace), a)
  {
    longer := trace + [a];
    assert longer[..|longer| - 1] == trace;
  }

  lemma EarlierIsLess(rows: seq<EventRow>, i: nat, batch: seq<Log>)
    requires i < |rows| && StrictlyIncreasing(Logs(rows))
    requires forall log :: log in batch ==> EventRow(log, false) in rows[..i]
    ensures forall log :: log in batch ==> log.Less(rows[i].log)
  {
    LaterIsGreater(rows, i, i, batch);
  }

  lemma LaterIsGreater(rows: seq<EventRow>, i: nat, k: nat, batch: seq<Log>)
    requires i <= k < |rows| && StrictlyIncreasing(Logs(rows))
    requires forall log :: log in batch ==> EventRow(log, false) in rows[..i]
    ensures forall log :: log in batch ==> log.Less(rows[k].log)
  {
    forall log | log in batch ensures log.Less(rows[k].log) {
      var j :| 0 <= j < i && rows[j] == EventRow(log, false);
      assert Logs(rows)[j].Less(Logs(rows)[k]);
    }
  }

  // --------------------------------------------------------------- progress

  /** The answer of the poll query has as many events as there are unprocessed ones, up to a hundred. */
  lemma BatchSize(rows: seq<EventRow>, n: nat, batch: seq<Log>)
    requires n <= |rows| && StrictlyIncreasing(Logs(rows)) && IsBatch(rows, batch)
    requires forall i :: 0 <= i < |rows| ==> (rows[i].isProcessed <==> i < n)
    ensures |batch| == if |rows| - n <= 100 then |rows| - n else 100
  {
    BatchIsNextSlice(rows, n, batch);
    if |batch| < |rows| - n && |batch| < 100 {
      var missed := rows[n + |batch|];
      assert missed in rows;
      MissedByBatch(rows, n, batch);
    }
  }

  lemma MissedByBatch(rows: seq<EventRow>, n: nat, batch: seq<Log>)
    requires n + |batch| < |rows| && StrictlyIncreasing(Logs(rows)) && batch == Logs(rows)[n..n + |batch|]
    ensures rows[n + |batch|].log !in batch
  {
    forall i | 0 <= i < |batch| ensures batch[i] != rows[n + |batch|].log {
      assert Logs(rows)[n + i].Less(Logs(rows)[n + |batch|]);
    }
  }

  function Commits(k: nat): seq<Action> {
    seq(k, i => Commit)
  }

  /** One commit of an event that can be processed. */
  lemma CommitProcesses(mode: Mode, s: State, n: nat)
    requires ProcessedUpTo(mode, s, n) && s.batch != [] && ProcessAll(mode, Logs(s.rows)).Ok?
    ensures Enabled(mode, s, Commit) && ProcessedUpTo(mode, After(mode, s, Commit), n + 1)
    ensures Logs(After(mode, s, Commit).rows) == Logs(s.rows) && After(mode, s, Commit).batch == s.batch[1..]
  {
    hide Process, ProcessFrom, ProcessedUpTo, MarkProcessed;
    NextCanBeProcessed(mode, s, n);
    CommitAdvances(mode, s, n);
    KeepsLogs(mode, s);
  }

  /** As long as events can be processed, committing processes them one after the other. */
  lemma {:induction false} CommitsProcess(mode: Mode, s: State, n: nat, k: nat)
    requires ProcessedUpTo(mode, s, n) && k <= |s.batch| && ProcessAll(mode, Logs(s.rows)).Ok?
    ensures
      var u := Execute(mode, s, Commits(k));
      && Allowed(mode, s, Commits(k)) && ProcessedUpTo(mode, u, n + k)
      && Logs(u.rows) == Logs(s.rows) && |u.batch| == |s.batch| - k
  {
    hide ProcessAll, ProcessedUpTo, Enabled, After, Logs;
    if k > 0 {
      CommitsProcess(mode, s, n, k - 1);
      assert Commits(k)[..k - 1] == Commits(k - 1);
      CommitProcesses(mode, Execute(mode, s, Commits(k - 1)), n + k - 1);
    }
  }

  lemma KeepsLogs(mode: Mode, s: State)
    requires s.batch != [] && Process(mode, s.derived, s.batch[0]).Ok?
    ensures Logs(Transact(mode, s).rows) == Logs(s.rows) && Transact(mode, s).batch == s.batch[1..]
  {
    hide Process;
  }

  /** If all stored events can be processed, so can the next one. */
  lemma NextCanBeProcessed(mode: Mode, s: State, n: nat)
    requires ProcessedUpTo(mode, s, n) && s.batch != [] && ProcessAll(mode, Logs(s.rows)).Ok?
    ensures Process(mode, s.derived, s.batch[0]).Ok?
  {
    hide Process;
    var logs := Logs(s.rows);
    assert s.batch[0] == logs[n] && logs[..n + 1][..n] == logs[..n];
    if ProcessAll(mode, logs[..n + 1]).Err? {
      ErrorsPersist(mode, logs, n + 1);
    }
  }

  /**
    Nothing waits for ever: between batches, when all stored events can be processed, one poll and its commits process
    the next hundred events, or all that are left.
  */
  lemma RoundProcesses(mode: Mode, s: State, n: nat, batch: seq<Log>)
    requires ProcessedUpTo(mode, s, n) && s.batch == [] && IsBatch(s.rows, batch) && ProcessAll(mode, Logs(s.rows)).Ok?
    ensures
      var round := [Poll(batch)] + Commits(|batch|);
      var u := Execute(mode, s, round);
      var m := if |s.rows| - n <= 100 then |s.rows| else n + 100;
      Allowed(mode, s, round) && ProcessedUpTo(mode, u, m) && Logs(u.rows) == Logs(s.rows) && u.batch == []
  {
    hide ProcessAll, Execute, Allowed, ProcessedUpTo, IsBatch, Logs;
    var trace := Unstarted(mode, s);
    trace := Recorded(mode, s, trace, Poll(batch));
    PollKeeps(mode, s, n, batch);
    CommitsProcess(mode, s.(batch := batch), n, |batch|);
    RunsJoin(mode, s, [Poll(batch)], Commits(|batch|));
  }

  lemma PollKeeps(mode: Mode, s: State, n: nat, batch: seq<Log>)
    requires ProcessedUpTo(mode, s, n) && IsBatch(s.rows, batch)
    ensures ProcessedUpTo(mode, s.(batch := batch), n)
    ensures |batch| == if |s.rows| - n <= 100 then |s.rows| - n else 100
  {
    hide ProcessAll, IsBatch;
    BatchSize(s.rows, n, batch);
    BatchIsNextSlice(s.rows, n, batch);
  }

  lemma {:induction false} RunsJoin(mode: Mode, s: State, a: seq<Action>, b: seq<Action>)
    requires Allowed(mode, s, a) && Allowed(mode, Execute(mode, s, a), b)
    ensures Allowed(mode, s, a + b) && Execute(mode, s, a + b) == Execute(mode, Execute(mode, s, a), b)
  {
    hide Enabled, After;
    if b == [] {
      assert a + b == a;
    } else {
      RunsJoin(mode, s, a, b[..|b| - 1]);
      assert (a + b)[..|a + b| - 1] == a + b[..|b| - 1];
    }
  }

  /** A failed transaction and a restart change nothing that is stored, and the batch in hand is forgotten. */
  lemma FailuresForget(mode: Mode, s: State)
    ensures After(mode, s, RollBack) == After(mode, s, Restart) == State(s.rows, s.derived, [])
  {
  }
}
