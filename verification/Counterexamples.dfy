/**
  Concrete runs on which the program as written misses what it is for, next to the exact conditions proved elsewhere.
*/
module Counterexamples {
  import opened Chain
  import opened Decimal
  import opened Rounding
  import opened Positions
  import opened Replay
  import opened Ledger
  import opened Effects
  import opened TimeTravel
  import opened SelfTransfer
  import opened Processing
  import opened Rollback
  import opened Reindex
  import opened Convergence
  import opened Persistence
  import opened Acceptance
  import opened Drift

  function Account(digit: char): Address {
    "0x" + seq(40, i => digit)
  }

  const ALICE := Account('a')
  const BOB := Account('b')
  const VAULT := Account('c')

  function Deposited(block: Height, minted: nat): Log {
    Log(block, 0, "", VAULT, Deposit(ALICE, ALICE, minted))
  }

  function Sent(block: Height, to: Address, value: nat): Log {
    Log(block, 0, "", VAULT, Transfer(ALICE, to, value))
  }

  lemma AccountIsTracked(digit: char)
    requires IsHexDigit(digit) && digit != '0'
    ensures Tracked(Account(digit)) && Account(digit)[2] == digit
  {
    var digits := Account(digit)[2..];
    assert digits == seq(40, i => digit);
    assert forall i :: 0 <= i < 40 ==> digits[i] == digit;
    assert Account(digit)[2] != ZERO_ADDRESS[2];
  }

  lemma AccountsAreTracked()
    ensures Tracked(ALICE) && Tracked(BOB) && ALICE != BOB
  {
    hide Tracked;
    AccountIsTracked('a');
    AccountIsTracked('b');
  }

  /** After one deposit Alice owns five shares, on one open row. */
  lemma OneDeposit() returns (t: Table)
    ensures Run(Complete, [Deposited(1, 5)]) == Ok(t) && Indexable([Deposited(1, 5)])
    ensures Valid(t, 1) && Balance([Deposited(1, 5)], Holder(VAULT, ALICE)) == 5
    ensures HasOpen(t, Holder(VAULT, ALICE)) && Owned(t, Holder(VAULT, ALICE)) == 5
    ensures !HasOpen(t, Holder(VAULT, BOB))
  {
    hide RoundToFloat64, Valid, Owned, Step, Effect;
    var events := [Deposited(1, 5)];
    AccountsAreTracked();
    RoundIsIdentity(5);
    assert events[..0] == [];
    PositionsSucceedIffAccepted(events);
    ReachableIsValid(events);
    t := Run(Complete, events).value;
    assert Balance([], Holder(VAULT, ALICE)) == 0;
    assert HasPosition(events, Holder(VAULT, ALICE)) && !HasPosition(events, Holder(VAULT, BOB));
  }

  lemma RunSnoc(mode: Mode, events: seq<Log>, last: Log)
    requires Run(mode, events).Ok?
    ensures Run(mode, events + [last]) == Step(mode, Run(mode, events).value, last)
  {
    hide Step;
    assert (events + [last])[..|events|] == events;
  }

  /** Alice deposits five shares and sends two of them to herself: her five shares can no longer be read. */
  lemma SelfTransferLosesTheBalance() returns (events: seq<Log>)
    ensures InBlockOrder(events) && Run(Complete, events).Ok?
    ensures Balance(events, Holder(VAULT, ALICE)) == 5
    ensures !Reads(Run(Complete, events).value, Holder(VAULT, ALICE), 2, 5)
  {
    hide RoundToFloat64, Valid, Owned, Step, Reads;
    AccountsAreTracked();
    var t := OneDeposit();
    var first, last := [Deposited(1, 5)], Sent(2, ALICE, 2);
    events := first + [last];
    RoundIsIdentity(2);
    assert events[..1] == first;
    RunSnoc(Complete, first, last);
    SelfTransferExact(t, 1, last);
  }

  /** Alice deposits at blocks 1 and 2 and block 2 is undone: as written, her row of block 1 stays closed. */
  lemma RollbackLeavesRowClosed() returns (events: seq<Log>)
    ensures Indexable(events) && Run(Complete, events).Ok? && Run(Complete, UpTo(events, 1)).Ok?
    ensures CleanupFromBlock(Run(Complete, events).value, 1) != Run(Complete, UpTo(events, 1)).value
  {
    hide RoundToFloat64, Valid, Owned, Step, CleanupFromBlock, Print, MaxIndexId;
    AccountsAreTracked();
    var t := OneDeposit();
    var first, last := [Deposited(1, 5)], Deposited(2, 5);
    events := first + [last];
    RunSnoc(Complete, first, last);
    StepMeaning(t, 1, last);
    var holder := Holder(VAULT, ALICE);
    var x := OpenIndex(t, holder);
    assert t[x].start <= 1 by { StartsByThen(t, x); }
    var u := Effect(t, last);
    assert u[x].start <= 1 && u[x].end == Some(1);
    RollbackAsWritten(events, 1);
  }

  lemma StartsByThen(t: Table, x: nat)
    requires Valid(t, 1) && x < |t|
    ensures t[x].start <= 1
  {
  }

  /** Alice deposits five shares and sends two to Bob: with one insert executed, her remaining three are gone. */
  lemma PartialTransferLosesTheRest() returns (events: seq<Log>)
    ensures Indexable(events) && Run(Complete, events).Ok? && Run(FirstOnly, events).Ok?
    ensures Balance(events, Holder(VAULT, ALICE)) == 3
    ensures Reads(Run(Complete, events).value, Holder(VAULT, ALICE), 2, 3)
    ensures forall i :: !Matches(Run(FirstOnly, events).value, i, Holder(VAULT, ALICE), 2)
  {
    hide RoundToFloat64, Valid, Owned, Step, Reads;
    AccountsAreTracked();
    var first, last := [Deposited(1, 5)], Sent(2, BOB, 2);
    events := first + [last];
    var t := PartialTransfer(last);
    FirstDepositPersists(t);
    RunSnoc(FirstOnly, first, last);
    var u := ReplacementLost(t, 1, last);
    TimeTravelIndex(events, Holder(VAULT, ALICE), 2);
    UpToAll(events, 2);
  }

  lemma PartialTransfer(last: Log) returns (t: Table)
    requires last == Sent(2, BOB, 2)
    ensures Run(Complete, [Deposited(1, 5)]) == Ok(t) && OrdinaryTransfer(t, 1, last)
    ensures !HasOpen(t, Holder(VAULT, BOB)) && RoundToFloat64(2) < Owned(t, Holder(VAULT, ALICE))
    ensures
      var events := [Deposited(1, 5)] + [last];
      Indexable(events) && Run(Complete, events).Ok? && Balance(events, Holder(VAULT, ALICE)) == 3
  {
    hide RoundToFloat64, Valid, Owned, Step, HasOpen;
    AccountsAreTracked();
    t := OneDeposit();
    var first := [Deposited(1, 5)];
    RoundIsIdentity(2);
    RunSnoc(Complete, first, last);
    StepMeaning(t, 1, last);
    assert (first + [last])[..1] == first;
  }

  lemma FirstDepositPersists(t: Table)
    requires Run(Complete, [Deposited(1, 5)]) == Ok(t)
    ensures Run(FirstOnly, [Deposited(1, 5)]) == Ok(t)
  {
    hide Step;
    assert [Deposited(1, 5)][..0] == [];
    SingleRowEvents([], Deposited(1, 5));
  }

  /** A reorganisation right after a single event of block 1. */
  lemma ForkAfterOne(log: Log)
    requires log.block == 1 && WellFormed(log) && !IsSelfTransfer(log)
    ensures Indexable([log]) && Forks([log], [], [], 1)
    ensures EventsAt([log], 1) == [log] && Remaining([log], 1, [], 1) == [log]
  {
    assert [log] + [] == [log] && [log][..0] == [];
    assert EventsAt([log], 1) == [log];
    AllProcessedBelow([log], 1, [], 1);
  }

  /** Alice deposits five shares in block 1 and block 2 is reorganised: block 1 is counted twice. */
  lemma LastConsistentBlockCountsTwice() returns (common: seq<Log>)
    ensures Forks(common, [], [], 1) && ProcessAll(Complete, common).Ok?
    ensures Balance(common, Holder(VAULT, ALICE)) == 5
    ensures
      var d := CleanupAll(ProcessAll(Complete, common).value, 1, 2);
      var again := ProcessFrom(Complete, d, Remaining(common, 1, [], 1));
      again.Ok? && Owned(again.value.positions, Holder(VAULT, ALICE)) == 10
  {
    hide RoundToFloat64, Owned, RunFrom, ProcessFrom, KeysFree, CleanupAll, Forks, Indexable, EventsAt, Remaining,
      Balance;
    AccountsAreTracked();
    var t := OneDeposit();
    common := [Deposited(1, 5)];
    ForkAfterOne(common[0]);
    DepositsAreKeyless(common);
    ProcessingAllSplits(Complete, common);
    assert common[..1] == common && common + [] == common;
    StuckOrCountedTwice(common, [], [], 1, 1);
    TwoDeposits(t);
  }

  lemma TwoDeposits(t: Table)
    requires Run(Complete, [Deposited(1, 5)]) == Ok(t) && Valid(t, 1) && Owned(t, Holder(VAULT, ALICE)) == 5
    ensures
      var twice := ProcessAll(Complete, [Deposited(1, 5)] + [Deposited(1, 5)]);
      twice.Ok? && Owned(twice.value.positions, Holder(VAULT, ALICE)) == 10
  {
    hide RoundToFloat64, Owned, Step, RunFrom, ProcessFrom, KeysFree, Valid;
    var first := Deposited(1, 5);
    AccountsAreTracked();
    DepositsAreKeyless([first] + [first]);
    ProcessingAllSplits(Complete, [first] + [first]);
    RunSnoc(Complete, [first], first);
    StepMeaning(t, 1, first);
    EffectMovesBalance(t, 1, first, Holder(VAULT, ALICE));
    RoundIsIdentity(5);
  }

  lemma DepositsAreKeyless(events: seq<Log>)
    requires forall i :: 0 <= i < |events| ==> !Keyed(events[i])
    ensures KeysFree([], events)
  {
  }

  /** A withdraw request in the last consistent block: after a reorganisation it can never be processed again. */
  lemma LastConsistentBlockGetsStuck() returns (common: seq<Log>)
    ensures Forks(common, [], [], 1) && ProcessAll(Complete, common).Ok?
    ensures
      var d := CleanupAll(ProcessAll(Complete, common).value, 1, 2);
      ProcessFrom(Complete, d, Remaining(common, 1, [], 1)).Err?
  {
    hide RoundToFloat64, RunFrom, ProcessFrom, CleanupAll, Forks, Indexable, EventsAt, Remaining, HasOpen, HasPosition;
    var request := Requested(1, 7);
    common := [request];
    ForkAfterOne(request);
    RoundIsIdentity(7);
    RunSucceedsIffAcceptable(common);
    assert common[..1] == common && common + [] == common && common[..0] == [];
    assert request in common;
    KeyedBlockIsStuck(common, [], [], 1, 1);
  }

  function Requested(block: Height, id: nat): Log {
    Log(block, 0, "", VAULT, WithdrawRequested(BOB, BOB, 1, id))
  }

  /**
    Withdraw ids are rounded too: 2^53 and 2^53 + 1 collide, and the second request can never be processed.
  */
  lemma RoundedIdsCollide()
    ensures ProcessAll(Complete, [Requested(5, P53)]).Ok?
    ensures ProcessAll(Complete, [Requested(5, P53), Requested(6, P53 + 1)]).Err?
  {
    hide Step, RunFrom, ProcessFrom, HasPosition, RoundToFloat64;
    var one, two := [Requested(5, P53)], [Requested(5, P53), Requested(6, P53 + 1)];
    RoundIsIdentity(P53);
    OddIsRoundedDown();
    assert one[..0] == [] && two[..0] == [] && two[..1] == one && two[0] in one;
    RunSucceedsIffAcceptable(one);
    RunSucceedsIffAcceptable(two);
    assert !Acceptable(two[..1], two[1]);
  }

  lemma OddIsRoundedDown()
    ensures RoundToFloat64(P53 + 1) == P53
  {
    assert Exponent(P53 + 1) == 1 by { assert Exponent(P52) == 0; }
    assert Pow2(1) == 2;
  }

  /**
    A chain that is solvent can still be rejected because of rounding. Of 2^53 + 1 shares, of which one is lost by
    rounding, sending 2^53 leaves none in the index, and the last one cannot be sent.
  */
  lemma RoundingRejectsASolventRun() returns (events: seq<Log>)
    ensures Indexable(events) && forall k :: Solvent(events, k)
    ensures Run(Complete, events).Err?
  {
    hide RoundToFloat64, HasOpen;
    var holder := Holder(VAULT, ALICE);
    events := [Deposited(1, P53 + 1), Sent(2, BOB, P53), Sent(3, BOB, 1)];
    AccountsAreTracked();
    OddIsRoundedDown();
    RoundIsIdentity(P53);
    assert events[..1][..0] == [] && events[..2][..1] == events[..1];
    assert HasPosition(events[..1], holder) && Balance(events[..1], holder) == P53;
    assert !HasPosition(events[..2], holder);
    PositionsSucceedIffAccepted(events);
    assert !PositionsAccept(events[..2], events[2]);
    forall k ensures Solvent(events, k) {
      ThreeAreSolvent(events, k);
    }
  }

  lemma ThreeAreSolvent(events: seq<Log>, k: Holder)
    requires events == [Deposited(1, P53 + 1), Sent(2, BOB, P53), Sent(3, BOB, 1)] && ALICE != BOB
    ensures Solvent(events, k)
  {
    assert events[..0] == [] && events[..1][..0] == [] && events[..2][..1] == events[..1] && events[..3] == events;
    assert TrueBalance(events[..0], k) == 0;
    assert TrueBalance(events[..1], k) >= 0;
    assert TrueBalance(events[..2], k) >= 0;
    forall i | 0 <= i <= 3 ensures TrueBalance(events[..i], k) >= 0 {
    }
  }

  /** Two rate updates of a vault in one block: the second cannot be stored. */
  lemma OneRatePerBlock()
    ensures
      var rate := (index: nat) => Log(5, index, "", VAULT, RateUpdated(1));
      ProcessAll(Complete, [rate(0)]).Ok? && ProcessAll(Complete, [rate(0), rate(1)]).Err?
  {
    hide Step, RunFrom, ProcessFrom, HasPosition;
    var first, second := Log(5, 0, "", VAULT, RateUpdated(1)), Log(5, 1, "", VAULT, RateUpdated(1));
    var one, two := [first], [first, second];
    assert one[..0] == [] && two[..0] == [] && two[..1] == one && two[0] in one;
    RunSucceedsIffAcceptable(one);
    RunSucceedsIffAcceptable(two);
    assert !Acceptable(two[..1], two[1]);
  }

  /** A transfer of nothing from an account without a position is an error, not a no-op. */
  lemma EmptyTransferIsRejected()
    ensures Run(Complete, [Sent(1, BOB, 0)]).Err?
  {
    AccountsAreTracked();
    var events := [Sent(1, BOB, 0)];
    assert events[..0] == [] && !PositionsAccept([], events[0]);
    PositionsSucceedIffAccepted(events);
  }

  /**
    A deposit by an account the indexer does not look up always opens a further row, so from the second one on the
    table has no answer for that account.
  */
  lemma UntrackedDepositsPileUp(t: Table, log: Log)
    requires log.body.Deposit? && !Tracked(log.body.sender)
    ensures
      var holder := Holder(log.vault, log.body.sender);
      var u := Step(Complete, t, log);
      && u == Ok(t + [NewRow(t, holder, RoundToFloat64(log.body.minted), log.block)])
      && ((exists x :: Matches(t, x, holder, log.block)) ==> forall b :: !Reads(u.value, holder, log.block, b))
  {
    hide Tracked, RoundToFloat64, Print, MaxIndexId;
    var holder := Holder(log.vault, log.body.sender);
    var amount := RoundToFloat64(log.body.minted);
    var u := t + [NewRow(t, holder, amount, log.block)];
    OpeningExecuted(t, Movement("", log.body.sender, log.vault, Print(amount), log.block), amount);
    assert Matches(u, |t|, holder, log.block);
    forall x, b | Matches(t, x, holder, log.block) ensures !Reads(u, holder, log.block, b) {
      assert Matches(u, x, holder, log.block);
    }
  }
}
