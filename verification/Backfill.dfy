/** After a restart, the historical logs of every configured contract and event are queued again and written. */
module Backfill {
  import opened Chain
  import opened Queue
  import opened Ingestion

  datatype ContractConfig = ContractConfig(address: Address, startBlock: nat, events: seq<string>)

  function EventName(log: Log): string {
    match log.body
    case Deposit(_, _, _) => "Deposit"
    case Transfer(_, _, _) => "Transfer"
    case WithdrawRequested(_, _, _, _) => "WithdrawRequested"
    case RateUpdated(_) => "RateUpdated"
    case OtherEvent(name) => name
  }

  function LowerChar(c: char): char {
    if 'A' <= c <= 'Z' then c - 'A' + 'a' else c
  }

  /** Addresses are compared without case by the node and stored in lower case. */
  function ToLower(a: Address): Address {
    seq(|a|, i requires 0 <= i < |a| => LowerChar(a[i]))
  }

  predicate IsOf(log: Log, address: Address, name: string) {
    log.vault == address && EventName(log) == name
  }

  /** The greatest stored block of the pair; the configured address is compared as it is written. */
  function GetLastIndexedBlock(stored: seq<Log>, address: Address, name: string): Option<int> {
    if stored == [] then None
    else
      var last := stored[|stored| - 1];
      var best := GetLastIndexedBlock(stored[..|stored| - 1], address, name);
      if IsOf(last, address, name) && (best.Some? ==> best.value < last.block) then Some(last.block) else best
  }

  /** What the node answers: the pair's logs with from <= block <= to. */
  function FilterLogs(chain: seq<Log>, address: Address, name: string, from: int, to: int): seq<Log> {
    if chain == [] then []
    else
      var last := chain[|chain| - 1];
      FilterLogs(chain[..|chain| - 1], address, name, from, to) +
        if IsOf(last, ToLower(address), name) && from <= last.block <= to then [last] else []
  }

  /** The first block to fetch for a pair. */
  function FromBlock(stored: seq<Log>, c: ContractConfig, name: string): int {
    var last := GetLastIndexedBlock(stored, c.address, name);
    if last.Some? then last.value else c.startBlock
  }

  function Fetched(chain: seq<Log>, stored: seq<Log>, c: ContractConfig, name: string, to: int): seq<Log> {
    FilterLogs(chain, c.address, name, FromBlock(stored, c, name), to)
  }

  // ------------------------------------------------------------ letter case

  /** No letter A to Z. */
  predicate IsLowerCase(a: string) {
    forall i :: 0 <= i < |a| ==> a[i] !in "ABCDEFGHIJKLMNOPQRSTUVWXYZ"
  }

  /** The same texts up to the case of letters. */
  predicate SameButCase(a: string, b: string) {
    |a| == |b| && forall i :: 0 <= i < |a| ==> a[i] == b[i] || IsLetterPair(a[i], b[i]) || IsLetterPair(b[i], a[i])
  }

  /** An upper-case letter and its lower-case form. */
  predicate IsLetterPair(upper: char, lower: char) {
    exists i :: 0 <= i < 26 && upper == "ABCDEFGHIJKLMNOPQRSTUVWXYZ"[i] && lower == "abcdefghijklmnopqrstuvwxyz"[i]
  }

  lemma AlphabetIsContiguous(i: nat)
    requires i < 26
    ensures "ABCDEFGHIJKLMNOPQRSTUVWXYZ"[i] == 'A' + i as char && "abcdefghijklmnopqrstuvwxyz"[i] == 'a' + i as char
  {
  }

  lemma LowerOfPair(upper: char, lower: char)
    requires IsLetterPair(upper, lower)
    ensures LowerChar(upper) == LowerChar(lower) == lower
  {
    var i :| 0 <= i < 26 && upper == "ABCDEFGHIJKLMNOPQRSTUVWXYZ"[i] && lower == "abcdefghijklmnopqrstuvwxyz"[i];
    AlphabetIsContiguous(i);
  }

  lemma UpperIsListed(c: char)
    requires 'A' <= c <= 'Z'
    ensures c in "ABCDEFGHIJKLMNOPQRSTUVWXYZ"
  {
    var i := (c - 'A') as int;
    AlphabetIsContiguous(i);
    assert "ABCDEFGHIJKLMNOPQRSTUVWXYZ"[i] == c;
  }

  lemma NotUpperIsKept(c: char)
    requires c !in "ABCDEFGHIJKLMNOPQRSTUVWXYZ"
    ensures LowerChar(c) == c
  {
    if 'A' <= c <= 'Z' {
      UpperIsListed(c);
    }
  }

  lemma LowerCaseIsKept(a: Address)
    requires IsLowerCase(a)
    ensures ToLower(a) == a
  {
    hide LowerChar;
    forall i | 0 <= i < |a| ensures LowerChar(a[i]) == a[i] {
      NotUpperIsKept(a[i]);
    }
  }

  /** The node is asked for the same logs however the letters of the address are written. */
  lemma CaseDoesNotMatter(chain: seq<Log>, a: Address, b: Address, name: string, from: int, to: int)
    requires SameButCase(a, b)
    ensures FilterLogs(chain, a, name, from, to) == FilterLogs(chain, b, name, from, to)
  {
    hide LowerChar, IsOf, IsLetterPair;
    forall i | 0 <= i < |a| ensures LowerChar(a[i]) == LowerChar(b[i]) {
      if IsLetterPair(a[i], b[i]) { LowerOfPair(a[i], b[i]); }
      if IsLetterPair(b[i], a[i]) { LowerOfPair(b[i], a[i]); }
    }
    assert ToLower(a) == ToLower(b);
    SameFilter(chain, a, b, name, from, to);
  }

  lemma {:induction false} SameFilter(chain: seq<Log>, a: Address, b: Address, name: string, from: int, to: int)
    requires ToLower(a) == ToLower(b)
    ensures FilterLogs(chain, a, name, from, to) == FilterLogs(chain, b, name, from, to)
  {
    hide ToLower, IsOf;
    if chain != [] {
      SameFilter(chain[..|chain| - 1], a, b, name, from, to);
    }
  }

  // ------------------------------------------------------ what is requested

  function FetchedForEvents(chain: seq<Log>, stored: seq<Log>, c: ContractConfig, n: nat, to: int): multiset<Log>
    requires n <= |c.events|
  {
    if n == 0 then multiset{}
    else FetchedForEvents(chain, stored, c, n - 1, to) + multiset(Fetched(chain, stored, c, c.events[n - 1], to))
  }

  function FetchedForContracts(
    chain: seq<Log>, stored: seq<Log>, configs: seq<ContractConfig>, n: nat, to: int): multiset<Log>
    requires n <= |configs|
  {
    if n == 0 then multiset{}
    else
      FetchedForContracts(chain, stored, configs, n - 1, to)
        + FetchedForEvents(chain, stored, configs[n - 1], |configs[n - 1].events|, to)
  }

  /** Some configured pair asks for this log. */
  predicate IsConfigured(configs: seq<ContractConfig>, log: Log) {
    exists c, name :: c in configs && name in c.events && c.startBlock <= log.block &&
      IsOf(log, ToLower(c.address), name)
  }

  lemma {:induction false} FilterMembers(chain: seq<Log>, address: Address, name: string, from: int, to: int, log: Log)
    ensures log in FilterLogs(chain, address, name, from, to) <==>
      (log in chain && IsOf(log, ToLower(address), name) && from <= log.block <= to)
  {
    hide IsOf, ToLower;
    if chain != [] {
      FilterMembers(chain[..|chain| - 1], address, name, from, to, log);
      assert chain == chain[..|chain| - 1] + [chain[|chain| - 1]];
    }
  }

  /** The names of the vault events. */
  lemma EventNames(log: Log)
    ensures log.body.Deposit? ==> EventName(log) == "Deposit"
    ensures log.body.Transfer? ==> EventName(log) == "Transfer"
    ensures log.body.WithdrawRequested? ==> EventName(log) == "WithdrawRequested"
    ensures log.body.RateUpdated? ==> EventName(log) == "RateUpdated"
    ensures log.body.OtherEvent? ==> EventName(log) == log.body.name
  {
  }

  /**
    The log is a configured event of a vault that is configured in lower case, as the configuration is after loading.
  */
  ghost predicate IsListed(configs: seq<ContractConfig>, log: Log) {
    exists c :: c in configs && IsLowerCase(c.address) && c.address == log.vault && EventName(log) in c.events
      && c.startBlock <= log.block
  }

  lemma ListedIsConfigured(configs: seq<ContractConfig>, log: Log)
    requires IsListed(configs, log)
    ensures IsConfigured(configs, log)
  {
    hide EventName, ToLower, IsLowerCase;
    var c :| c in configs && IsLowerCase(c.address) && c.address == log.vault && EventName(log) in c.events
      && c.startBlock <= log.block;
    LowerCaseIsKept(c.address);
    assert IsOf(log, ToLower(c.address), EventName(log));
  }

  /** A listed log up to the head is fetched as long as nothing of its vault and event is stored. */
  lemma ListedIsFetched(chain: seq<Log>, stored: seq<Log>, configs: seq<ContractConfig>, to: int, log: Log)
    requires IsListed(configs, log) && log in chain && log.block <= to
    requires forall s :: s in stored ==> s.vault != log.vault || EventName(s) != EventName(log)
    ensures log in FetchedForContracts(chain, stored, configs, |configs|, to)
  {
    hide EventName, ToLower, IsLowerCase, FetchedForContracts, FilterLogs, GetLastIndexedBlock;
    var c :| c in configs && IsLowerCase(c.address) && c.address == log.vault && EventName(log) in c.events
      && c.startBlock <= log.block;
    var name := EventName(log);
    LowerCaseIsKept(c.address);
    LastIndexedIsGreatest(stored, c.address, name);
    FilterMembers(chain, c.address, name, FromBlock(stored, c, name), to, log);
    FetchedMembers(chain, stored, configs, |configs|, to, log);
    assert configs[..|configs|] == configs;
  }

  lemma {:induction false} FetchedEventsMembers(
    chain: seq<Log>, stored: seq<Log>, c: ContractConfig, n: nat, to: int, log: Log)
    requires n <= |c.events|
    ensures log in FetchedForEvents(chain, stored, c, n, to) <==>
      exists name :: name in c.events[..n] && log in Fetched(chain, stored, c, name, to)
  {
    hide Fetched;
    if n > 0 {
      FetchedEventsMembers(chain, stored, c, n - 1, to, log);
      assert c.events[..n] == c.events[..n - 1] + [c.events[n - 1]];
    }
  }

  lemma {:induction false} FetchedMembers(
    chain: seq<Log>, stored: seq<Log>, configs: seq<ContractConfig>, n: nat, to: int, log: Log)
    requires n <= |configs|
    ensures log in FetchedForContracts(chain, stored, configs, n, to) <==>
      exists c, name :: c in configs[..n] && name in c.events && log in Fetched(chain, stored, c, name, to)
  {
    hide Fetched;
    if n > 0 {
      var c := configs[n - 1];
      FetchedMembers(chain, stored, configs, n - 1, to, log);
      FetchedEventsMembers(chain, stored, c, |c.events|, to, log);
      assert c.events[..|c.events|] == c.events;
      assert configs[..n] == configs[..n - 1] + [c];
    }
  }

  // ----------------------------------------------------------- completeness

  /** For the pair, no log from the start block on and below a stored one is missing. */
  ghost predicate PairIsPrefix(chain: seq<Log>, stored: seq<Log>, c: ContractConfig, name: string) {
    forall s, log | s in stored && log in chain ::
      (IsOf(s, ToLower(c.address), name) && IsOf(log, ToLower(c.address), name) && c.startBlock <= log.block &&
        log.Less(s)
      ==> log in stored)
  }

  ghost predicate StoredIsPrefix(chain: seq<Log>, stored: seq<Log>, configs: seq<ContractConfig>) {
    && (forall s :: s in stored ==> s in chain)
    && (forall c, name :: c in configs && name in c.events ==> PairIsPrefix(chain, stored, c, name))
  }

  lemma {:induction false} LastIndexedIsGreatest(stored: seq<Log>, address: Address, name: string)
    ensures GetLastIndexedBlock(stored, address, name).Some? ==>
      exists s :: s in stored && IsOf(s, address, name) && s.block == GetLastIndexedBlock(stored, address, name).value
    ensures forall s :: s in stored && IsOf(s, address, name) ==>
      GetLastIndexedBlock(stored, address, name).Some? && s.block <= GetLastIndexedBlock(stored, address, name).value
  {
    hide IsOf;
    if stored != [] {
      LastIndexedIsGreatest(stored[..|stored| - 1], address, name);
      assert stored == stored[..|stored| - 1] + [stored[|stored| - 1]];
    }
  }

  /** Starting at the last indexed block itself loses nothing, not even inside a half-written block. */
  lemma PairIsComplete(chain: seq<Log>, stored: seq<Log>, c: ContractConfig, name: string, to: int, log: Log)
    requires (forall s :: s in stored ==> s in chain && s.vault == ToLower(s.vault)) &&
      PairIsPrefix(chain, stored, c, name)
    requires log in chain && IsOf(log, ToLower(c.address), name) && c.startBlock <= log.block <= to
    ensures log in stored || log in Fetched(chain, stored, c, name, to)
  {
    hide ToLower;
    FilterMembers(chain, c.address, name, FromBlock(stored, c, name), to, log);
    LastIndexedIsGreatest(stored, c.address, name);
    var last := GetLastIndexedBlock(stored, c.address, name);
    if last.Some? && log.block < last.value {
      var s :| s in stored && IsOf(s, c.address, name) && s.block == last.value;
      assert log.Less(s);
    }
  }

  /**
    The backfill asks for logs of the chain only, and together with the stored ones they are all the configured logs.
  */
  lemma BackfillIsComplete(chain: seq<Log>, stored: seq<Log>, configs: seq<ContractConfig>, to: int)
    requires StoredIsPrefix(chain, stored, configs)
    requires forall s :: s in stored ==> s.vault == ToLower(s.vault)
    ensures
      var fetched := FetchedForContracts(chain, stored, configs, |configs|, to);
      && (forall log :: log in fetched ==> log in chain && log.block <= to)
      && (forall log :: log in chain && IsConfigured(configs, log) && log.block <= to ==>
        log in fetched || log in stored)
  {
    hide PairIsPrefix, FetchedForContracts, FetchedForEvents, ToLower, IsOf, FilterLogs;
    var fetched := FetchedForContracts(chain, stored, configs, |configs|, to);
    assert configs[..|configs|] == configs;
    forall log | log in fetched ensures log in chain && log.block <= to {
      FetchedMembers(chain, stored, configs, |configs|, to, log);
      var c, name :| c in configs && name in c.events && log in Fetched(chain, stored, c, name, to);
      FilterMembers(chain, c.address, name, FromBlock(stored, c, name), to, log);
    }
    forall log | log in chain && IsConfigured(configs, log) && log.block <= to ensures log in fetched || log in stored {
      FetchedMembers(chain, stored, configs, |configs|, to, log);
      var c, name :| c in configs && name in c.events && c.startBlock <= log.block &&
        IsOf(log, ToLower(c.address), name);
      PairIsComplete(chain, stored, c, name, to, log);
    }
  }

  /** The pair has moved past a block: it has a stored log above it, or none at all and starts above it. */
  ghost predicate MovedPast(stored: seq<Log>, c: ContractConfig, name: string, block: int) {
    if forall s :: s in stored ==> !IsOf(s, c.address, name) then c.startBlock > block
    else exists s :: s in stored && IsOf(s, c.address, name) && s.block > block
  }

  lemma FromBlockMovesPast(stored: seq<Log>, c: ContractConfig, name: string, block: int)
    ensures FromBlock(stored, c, name) > block <==> MovedPast(stored, c, name, block)
  {
    hide IsOf;
    LastIndexedIsGreatest(stored, c.address, name);
  }

  /**
    What a restart misses: a log of the chain up to the head is not asked for again exactly when every pair it
    belongs to has moved past its block. A log that was dropped while a later block of its pair was stored is gone.
  */
  lemma MissedExactlyWhenMovedPast(chain: seq<Log>, stored: seq<Log>, configs: seq<ContractConfig>, to: int, log: Log)
    requires log in chain && log.block <= to
    ensures log !in FetchedForContracts(chain, stored, configs, |configs|, to) <==>
      forall c, name :: c in configs && name in c.events && IsOf(log, ToLower(c.address), name) ==>
        MovedPast(stored, c, name, log.block)
  {
    hide FetchedForContracts, FetchedForEvents, ToLower, IsOf, FilterLogs, MovedPast;
    FetchedMembers(chain, stored, configs, |configs|, to, log);
    assert configs[..|configs|] == configs;
    forall c, name ensures log in Fetched(chain, stored, c, name, to) <==>
      IsOf(log, ToLower(c.address), name) && !MovedPast(stored, c, name, log.block)
    {
      FilterMembers(chain, c.address, name, FromBlock(stored, c, name), to, log);
      FromBlockMovesPast(stored, c, name, log.block);
    }
  }

  /** The live logs the program is configured for. */
  ghost function Configured(chain: seq<Log>, configs: seq<ContractConfig>): iset<Log> {
    iset log | log in chain && IsConfigured(configs, log)
  }

  lemma FetchedIsConfigured(
    chain: seq<Log>, stored: seq<Log>, configs: seq<ContractConfig>, c: ContractConfig, name: string, to: int, log: Log)
    requires c in configs && name in c.events && log in Fetched(chain, stored, c, name, to)
    requires forall s :: s in stored ==> s in Configured(chain, configs) && s.vault == ToLower(s.vault)
    ensures log in Configured(chain, configs)
  {
    hide ToLower, FilterLogs;
    FilterMembers(chain, c.address, name, FromBlock(stored, c, name), to, log);
    LastIndexedIsGreatest(stored, c.address, name);
    var last := GetLastIndexedBlock(stored, c.address, name);
    if last.Some? {
      var s :| s in stored && IsOf(s, c.address, name) && s.block == last.value;
      var c', name' :| c' in configs && name' in c'.events && c'.startBlock <= s.block &&
        IsOf(s, ToLower(c'.address), name');
      assert IsOf(log, ToLower(c'.address), name');
    }
  }

  /**
    What the backfill queues after a crash is what the ingestion protocol asks of a restart, at any point of any run.
  */
  lemma BackfillEnablesRestart(t: Timing, s: State, chain: seq<Log>, configs: seq<ContractConfig>)
    requires t.live == Configured(chain, configs) && OrderedPrefix(t.live, s.events)
    requires forall log :: log in s.events ==> log.vault == ToLower(log.vault)
    ensures Enabled(t, s, Restart(FetchedForContracts(chain, s.events, configs, |configs|, s.head)))
  {
    hide FetchedForContracts, FetchedForEvents, ToLower, IsOf, FilterLogs, Fetched;
    var fetched := FetchedForContracts(chain, s.events, configs, |configs|, s.head);
    BackfillIsComplete(chain, s.events, configs, s.head);
    assert configs[..|configs|] == configs;
    forall log | log in fetched ensures log in t.live {
      FetchedMembers(chain, s.events, configs, |configs|, s.head, log);
      var c, name :| c in configs && name in c.events && log in Fetched(chain, s.events, c, name, s.head);
      FetchedIsConfigured(chain, s.events, configs, c, name, s.head, log);
    }
  }

  // ------------------------------------------------------------ the program

  /** Queues the historical logs of every configured pair; the order of the fetches does not matter. */
  method LoadHistoricalEvents(
    configs: seq<ContractConfig>, chain: seq<Log>, stored: seq<Log>, currentBlock: nat, queue: EventQueue)
    requires queue.Valid()
    modifies queue
    ensures queue.Valid()
    ensures queue.Contents()
      == old(queue.Contents()) + FetchedForContracts(chain, stored, configs, |configs|, currentBlock)
  {
    hide FetchedForEvents;
    for i := 0 to |configs|
      invariant queue.Valid()
      invariant queue.Contents() == old(queue.Contents()) + FetchedForContracts(chain, stored, configs, i, currentBlock)
    {
      LoadContract(configs[i], chain, stored, currentBlock, queue);
    }
  }

  method LoadContract(
    contractConfig: ContractConfig, chain: seq<Log>, stored: seq<Log>, currentBlock: nat, queue: EventQueue)
    requires queue.Valid()
    modifies queue
    ensures queue.Valid()
    ensures queue.Contents() == old(queue.Contents())
      + FetchedForEvents(chain, stored, contractConfig, |contractConfig.events|, currentBlock)
  {
    hide Fetched;
    for j := 0 to |contractConfig.events|
      invariant queue.Valid()
      invariant queue.Contents()
        == old(queue.Contents()) + FetchedForEvents(chain, stored, contractConfig, j, currentBlock)
    {
      var logs := Fetched(chain, stored, contractConfig, contractConfig.events[j], currentBlock);
      InsertLogs(logs, queue);
    }
  }

  method InsertLogs(logs: seq<Log>, queue: EventQueue)
    requires queue.Valid()
    modifies queue
    ensures queue.Valid() && queue.Contents() == old(queue.Contents()) + multiset(logs)
  {
    for k := 0 to |logs|
      invariant queue.Valid() && queue.Contents() == old(queue.Contents()) + multiset(logs[..k])
    {
      queue.Insert(logs[k]);
      assert logs[..k + 1] == logs[..k] + [logs[k]];
    }
    assert logs[..|logs|] == logs;
  }

  /** No two rows share block and log index. */
  ghost predicate KeysAreUnique(events: seq<Log>) {
    forall i, j :: 0 <= i < j < |events| ==> !(events[i].block == events[j].block && events[i].index == events[j].index)
  }

  /** Midway through draining: everything is either written or still queued, and what is queued comes later. */
  ghost predicate Draining(stored: seq<Log>, all: multiset<Log>, events: seq<Log>, rest: multiset<Log>) {
    && KeysAreUnique(events) && stored <= events
    && (forall log :: log in events || log in rest <==> log in stored || log in all)
    && StrictlyIncreasing(events[|stored|..])
    && (forall log, i :: log in rest && |stored| <= i < |events| ==> !log.Less(events[i]))
  }

  /** A log may be written at this head. */
  predicate DeepEnough(log: Log, head: nat) {
    log.block + REQUIRED_CONFIRMATIONS <= head
  }

  /** The state of the loop: what has been taken so far is deep enough and is exactly what has been added. */
  ghost predicate Drained(
    stored: seq<Log>, all: multiset<Log>, events: seq<Log>, out: seq<Log>, rest: multiset<Log>, currentBlock: nat)
  {
    && Taken(all, out, rest) && Draining(stored, all, events, rest)
    && (forall log :: log in out ==> DeepEnough(log, currentBlock))
    && (forall log :: log in events <==> log in stored || log in out)
  }

  lemma DrainStep(
    chain: seq<Log>, stored: seq<Log>, all: multiset<Log>, events: seq<Log>, out: seq<Log>, rest: multiset<Log>,
    currentBlock: nat, log: Log)
    requires StrictlyIncreasing(chain) && (forall x :: x in stored || x in all ==> x in chain)
    requires Drained(stored, all, events, out, rest, currentBlock)
    requires log in rest && DeepEnough(log, currentBlock) && forall x :: x in rest ==> !x.Less(log)
    ensures Drained(stored, all, WriteIdempotentEvent(events, log), out + [log], rest - multiset{log}, currentBlock)
  {
    hide KeysAreUnique, StrictlyIncreasing, Taken, DeepEnough;
    TakenInOrder(all, out, rest);
    TakenSnoc(all, out, rest, log);
    WrittenOnce(chain, stored, events, log);
  }

  /**
    The processor's loop at one head, as long as nothing fails: pop and write, until the queue is empty or a popped log
    is not deep enough and goes back. What is written has been taken in order, and what is left is not deep enough.
  */
  method DrainQueue(queue: EventQueue, stored: seq<Log>, currentBlock: nat, ghost chain: seq<Log>)
    returns (events: seq<Log>, ghost out: seq<Log>)
    requires queue.Valid() && StrictlyIncreasing(chain) && KeysAreUnique(stored)
    requires forall log :: log in stored || log in queue.Contents() ==> log in chain
    modifies queue
    ensures queue.Valid() && Taken(old(queue.Contents()), out, queue.Contents())
    ensures forall log :: log in queue.Contents() ==> !DeepEnough(log, currentBlock)
    ensures forall log :: log in out ==> DeepEnough(log, currentBlock)
    ensures KeysAreUnique(events) && stored <= events
    ensures forall log :: log in events <==> log in stored || log in out
    ensures StrictlyIncreasing(events[|stored|..])
  {
    hide Drained, WriteIdempotentEvent;
    events, out := stored, [];
    NothingDrained(stored, queue.Contents(), currentBlock);
    while true
      invariant queue.Valid()
      invariant Drained(stored, old(queue.Contents()), events, out, queue.Contents(), currentBlock)
      decreases |queue.Contents()|
    {
      ghost var rest := queue.Contents();
      DrainedMeans(stored, old(queue.Contents()), events, out, rest, currentBlock);
      var event := queue.Next();
      if event.None? {
        return;
      }
      if event.value.block + REQUIRED_CONFIRMATIONS > currentBlock {
        queue.Insert(event.value);
        assert queue.Contents() == rest;
        return;
      }
      DrainStep(chain, stored, old(queue.Contents()), events, out, rest, currentBlock, event.value);
      events := WriteIdempotentEvent(events, event.value);
      out := out + [event.value];
    }
  }

  lemma NothingDrained(stored: seq<Log>, all: multiset<Log>, currentBlock: nat)
    requires KeysAreUnique(stored)
    ensures Drained(stored, all, stored, [], all, currentBlock)
  {
  }

  lemma DrainedMeans(
    stored: seq<Log>, all: multiset<Log>, events: seq<Log>, out: seq<Log>, rest: multiset<Log>, currentBlock: nat)
    requires Drained(stored, all, events, out, rest, currentBlock)
    ensures Taken(all, out, rest) && KeysAreUnique(events) && stored <= events && StrictlyIncreasing(events[|stored|..])
    ensures forall log :: log in out ==> DeepEnough(log, currentBlock)
    ensures forall log :: log in events <==> log in stored || log in out
  {
  }

  lemma PlacesAreOrdered(chain: seq<Log>, a: nat, b: nat)
    requires StrictlyIncreasing(chain) && a < |chain| && b < |chain|
    ensures a == b || chain[a].Less(chain[b]) || chain[b].Less(chain[a])
  {
  }

  /** On a chain, a block number and a log index name one log. */
  lemma KeyDecides(chain: seq<Log>, x: Log, y: Log)
    requires StrictlyIncreasing(chain) && x in chain && y in chain && x.block == y.block && x.index == y.index
    ensures x == y
  {
    var a :| 0 <= a < |chain| && chain[a] == x;
    var b :| 0 <= b < |chain| && chain[b] == y;
    PlacesAreOrdered(chain, a, b);
  }

  lemma WrittenOnce(chain: seq<Log>, stored: seq<Log>, events: seq<Log>, log: Log)
    requires StrictlyIncreasing(chain) && KeysAreUnique(events) && stored <= events
    requires log in chain && forall x :: x in events ==> x in chain
    requires StrictlyIncreasing(events[|stored|..])
    requires forall i :: |stored| <= i < |events| ==> !log.Less(events[i])
    ensures KeysAreUnique(WriteIdempotentEvent(events, log)) && stored <= WriteIdempotentEvent(events, log)
    ensures StrictlyIncreasing(WriteIdempotentEvent(events, log)[|stored|..])
    ensures forall x :: x in WriteIdempotentEvent(events, log) <==> x in events || x == log
  {
    if HasKey(events, log) {
      var i :| 0 <= i < |events| && events[i].block == log.block && events[i].index == log.index;
      assert events[i] in events;
      KeyDecides(chain, log, events[i]);
    } else {
      var after := events[|stored|..];
      assert (events + [log])[|stored|..] == after + [log];
      forall i | 0 <= i < |after| ensures after[i].Less(log) {
        assert after[i] == events[|stored| + i];
      }
    }
  }

  /**
    A crash and a restart: with the stored rows an in-order prefix for each configured pair, backfilling to the block
    read at the start and draining at a later head keeps what was stored, and stores exactly once every configured log
    from its start block to that block that is deep enough, and nothing that is not.
  */
  method Restore(configs: seq<ContractConfig>, chain: seq<Log>, stored: seq<Log>, currentBlock: nat, head: nat)
    returns (events: seq<Log>)
    requires StrictlyIncreasing(chain) && KeysAreUnique(stored) && StoredIsPrefix(chain, stored, configs)
    requires forall s :: s in stored ==> s.vault == ToLower(s.vault)
    ensures KeysAreUnique(events) && stored <= events
    ensures forall log :: log in events ==> log in chain && (log in stored || DeepEnough(log, head))
    ensures forall log ::
      log in chain && IsConfigured(configs, log) && log.block <= currentBlock && DeepEnough(log, head) ==> log in events
    ensures forall log ::
      log in chain && IsListed(configs, log) && log.block <= currentBlock && log.block + 4 <= head ==> log in events
  {
    var queue := new EventQueue();
    LoadHistoricalEvents(configs, chain, stored, currentBlock, queue);
    BackfillIsComplete(chain, stored, configs, currentBlock);
    ghost var fetched := queue.Contents();
    ghost var out: seq<Log>;
    events, out := DrainQueue(queue, stored, head, chain);
    TakenInOrder(fetched, out, queue.Contents());
    forall log | IsListed(configs, log) ensures IsConfigured(configs, log) {
      ListedIsConfigured(configs, log);
    }
    assert forall log :: log in fetched <==> log in out || log in queue.Contents();
  }
}
