/**
  Handling a reported reorganisation: clear the queue, find the last consistent block, undo what came after it, stop.
*/
module Reorg {
  import opened Chain
  import opened Positions
  import opened Replay
  import opened TimeTravel
  import opened Processing
  import opened Rollback
  import opened Reindex
  import opened Queue
  import F = Finality

  class Indexer {
    const queue: EventQueue
    var store: Store
    var running: bool

    constructor (queue: EventQueue, store: Store)
      ensures this.queue == queue && this.store == store && running
    {
      this.queue, this.store, running := queue, store, true;
    }

    /** Whatever happens, the indexer ends up stopped; the store changes in one transaction or not at all. */
    method HandleReorg(detected: Height, oracle: F.Oracle, halted: bool, commits: bool) returns (kept: Option<int>)
      requires queue.Valid() && F.HashesAgree(store.events)
      modifies this`store, this`running, queue
      ensures queue.Valid() && !running
      ensures queue.Contents() == if halted then multiset{} else old(queue.Contents())
      ensures kept.Some? ==>
        && halted && commits
        && F.IsLastConsistent(old(store).events, oracle, detected, kept.value)
        && store == ReorgCleanup(old(store), kept.value)
      ensures kept.None? ==> store == old(store)
      ensures kept.None? && halted && commits ==> forall b :: !F.IsLastConsistent(store.events, oracle, detected, b)
    {
      if !halted {
        running := false;
        return None;
      }
      queue.Clear();
      var lastConsistentBlock := F.FindLastConsistentBlock(store.events, oracle, detected);
      if lastConsistentBlock.None? || !commits {
        running := false;
        return None;
      }
      store := ReorgCleanup(store, lastConsistentBlock.value);
      running := false;
      return lastConsistentBlock;
    }
  }

  lemma {:induction false} UpToMembers(events: seq<Log>, h: int, log: Log)
    ensures log in UpTo(events, h) <==> log in events && log.block <= h
  {
    if events != [] {
      UpToMembers(events[..|events| - 1], h, log);
      assert events == events[..|events| - 1] + [events[|events| - 1]];
    }
  }

  /**
    What a handled reorganisation leaves, when the first n stored events had been processed. No rejected block below
    the detected one survives, but the last consistent block goes too: at least one canonical event is always deleted.
    The derived rows are those of the processed events up to that block exactly when no row was closed by the next one.
  */
  lemma ReorgOutcome(events: seq<Log>, n: nat, oracle: F.Oracle, detected: Height, kept: int)
    requires n <= |events| && Indexable(events[..n]) && ProcessAll(Complete, events[..n]).Ok?
    requires F.IsLastConsistent(events, oracle, detected, kept)
    ensures
      var d := ProcessAll(Complete, events[..n]).value;
      var s := ReorgCleanup(Store(events, d), kept);
      var expected := ProcessAll(Complete, UpTo(events[..n], kept));
      && (forall e :: e in s.events <==> e in events && e.block < kept)
      && (forall e :: e in s.events ==> e.block < detected)
      && (exists e :: e in events && e !in s.events && F.Ask(oracle, e) == F.Canonical)
      && expected.Ok?
      && (s.derived == expected.value <==> !ClosedByNextBlock(d.positions, kept))
  {
    hide ProcessFrom, Cleanup, KeptRequests, KeptRates, ClosedByNextBlock, Indexable, UpTo;
    forall e ensures e in UpTo(events, kept - 1) <==> e in events && e.block <= kept - 1 {
      UpToMembers(events, kept - 1, e);
    }
    RollbackAllIsInverse(events[..n], kept);
    BoundariesDiffer(ProcessAll(Complete, events[..n]).value.positions, kept);
  }
}
