/** The stages together: from a run of the ingestion and a run of the transformer to what a reader of positions sees. */
module Pipeline {
  import opened Chain
  import opened Positions
  import opened Replay
  import opened Effects
  import opened TimeTravel
  import opened Processing
  import opened Persistence
  import I = Ingestion
  import T = Transforming

  /** Logs the chain can emit, as far as the index is concerned. */
  ghost predicate AllIndexable(live: iset<Log>) {
    forall log :: log in live ==> WellFormed(log) && !IsSelfTransfer(log)
  }

  lemma IncreasingIsInBlockOrder(events: seq<Log>)
    requires StrictlyIncreasing(events)
    ensures InBlockOrder(events)
  {
    forall i, j | 0 <= i < j < |events| ensures events[i].block <= events[j].block {
      assert events[i].Less(events[j]);
    }
  }

  /** Every processed prefix of an ordered prefix of the live logs can be indexed. */
  lemma PrefixIsIndexable(live: iset<Log>, events: seq<Log>, n: nat)
    requires I.OrderedPrefix(live, events) && AllIndexable(live) && n <= |events|
    ensures Indexable(events[..n])
  {
    hide WellFormed, IsSelfTransfer;
    IncreasingIsInBlockOrder(events[..n]);
    forall i | 0 <= i < n ensures WellFormed(events[..n][i]) && !IsSelfTransfer(events[..n][i]) {
      assert events[i] in events;
    }
  }

  /** Below the last processed block no live log is missing from the processed ones. */
  lemma NothingMissingBelow(live: iset<Log>, events: seq<Log>, n: nat, h: int, log: Log)
    requires I.OrderedPrefix(live, events) && 0 < n <= |events| && h < events[n - 1].block
    requires log in live && log.block <= h
    ensures log in UpTo(events[..n], h)
  {
    var last := events[n - 1];
    assert last in events && log.Less(last);
    var k :| 0 <= k < |events| && events[k] == log;
    assert k > n - 1 ==> last.Less(events[k]);
    IncreasingIsInBlockOrder(events[..n]);
    UpToIsPrefix(events[..n], h);
    assert events[..n][k] == log;
  }

  /**
    What the transactions built reads right, in full, or as executed when every transfer drains into a new receiver.
  */
  lemma ProcessedReads(mode: Mode, events: seq<Log>, holder: Holder, h: int)
    requires Indexable(events) && ProcessAll(mode, events).Ok? && (mode == Complete || AllDrain(events))
    ensures Reads(ProcessAll(mode, events).value.positions, holder, h, Balance(UpTo(events, h), holder))
  {
    hide ProcessFrom, RunFrom, Reads, Balance, UpTo, Indexable, AllDrain, KeysFree;
    ProcessingAllSplits(mode, events);
    if mode == Complete {
      TimeTravelIndex(events, holder, h);
    } else {
      PersistedRunFails(events);
      PersistedTimeTravel(events, holder, h);
    }
  }

  /**
    The whole pipeline. The node delivers logs at most delay blocks late, the head moves at most lag blocks between
    a pop and the head read, the sum is below the confirmation depth, and errors stop the ingestion at once. After any
    ingestion run and any run of the transformer over what was ingested, every holder and height reads the balance
    replayed over the processed logs, and below the last processed block these are all the logs the chain has emitted.
    With lists executed in full this always holds, and as they are executed, when every transfer drains.
  */
  lemma ReaderSeesTheChain(
    mode: Mode, t: I.Timing, confirmations: nat, s: I.State, ingestion: seq<I.Action>, transforming: seq<T.Action>,
    holder: Holder, h: int)
    returns (n: nat)
    requires t.delay + t.lag < confirmations && t.prompt && I.Initial(t, s) && I.Allowed(t, confirmations, s, ingestion)
    requires T.Allowed(mode, T.START, transforming) && AllIndexable(t.live)
    requires T.Logs(T.Execute(mode, T.START, transforming).rows) <= I.Execute(confirmations, s, ingestion).events
    ensures
      var ingested := I.Execute(confirmations, s, ingestion).events;
      var indexed := T.Execute(mode, T.START, transforming);
      && n <= |indexed.rows| && n <= |ingested|
      && (forall i :: 0 <= i < |indexed.rows| ==> (indexed.rows[i].isProcessed <==> i < n))
      && (mode == Complete || AllDrain(ingested[..n]) ==>
            Reads(indexed.derived.positions, holder, h, Balance(UpTo(ingested[..n], h), holder)))
      && (n > 0 && h < ingested[n - 1].block ==>
            forall log :: log in t.live && log.block <= h ==> log in UpTo(ingested[..n], h))
  {
    hide I.Execute, I.Allowed, I.Initial, I.OrderedPrefix, T.Execute, T.Allowed, ProcessAll, ProcessFrom, Reads,
      Balance,
      UpTo, Indexable, AllDrain;
    I.InOrderIngestion(t, confirmations, s, ingestion);
    n := T.ExactlyOnce(mode, transforming);
    var ingested := I.Execute(confirmations, s, ingestion).events;
    var logs := T.Logs(T.Execute(mode, T.START, transforming).rows);
    assert ingested[..n] == logs[..n];
    PrefixIsIndexable(t.live, ingested, n);
    if mode == Complete || AllDrain(ingested[..n]) {
      ProcessedReads(mode, ingested[..n], holder, h);
    }
    if n > 0 && h < ingested[n - 1].block {
      forall log | log in t.live && log.block <= h ensures log in UpTo(ingested[..n], h) {
        NothingMissingBelow(t.live, ingested, n, h, log);
      }
    }
  }
}
