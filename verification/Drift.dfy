/** How far the indexed balances can drift from the exact on-chain balances because amounts are rounded. */
module Drift {
  import opened Chain
  import opened Rounding
  import opened Positions
  import opened Replay
  import opened Effects
  import opened TimeTravel
  import opened Processing
  import opened Acceptance

  /** The exact balance: no rounding and no floor. */
  function TrueBalance(events: seq<Log>, holder: Holder): int {
    if events == [] then 0
    else
      var log := events[|events| - 1];
      TrueBalance(events[..|events| - 1], holder)
        + (if Credits(log, holder) then Shares(log) else 0)
        - (if Debits(log, holder) then Shares(log) else 0)
  }

  /** All shares that ever moved in or out of the holder's account. */
  function Volume(events: seq<Log>, holder: Holder): nat {
    if events == [] then 0
    else
      var log := events[|events| - 1];
      Volume(events[..|events| - 1], holder)
        + (if Credits(log, holder) then Shares(log) else 0)
        + (if Debits(log, holder) then Shares(log) else 0)
  }

  /** A chain never overdraws an account. */
  ghost predicate Solvent(events: seq<Log>, holder: Holder) {
    forall i :: 0 <= i <= |events| ==> TrueBalance(events[..i], holder) >= 0
  }

  /** The drift of a balance is at most 2^-53 of the holder's total volume. */
  lemma {:induction false} DriftIsBounded(events: seq<Log>, holder: Holder)
    requires Solvent(events, holder)
    ensures Distance(Balance(events, holder), TrueBalance(events, holder)) * P53 <= Volume(events, holder)
  {
    hide RoundToFloat64;
    if events != [] {
      var init, log := events[..|events| - 1], events[|events| - 1];
      assert Solvent(init, holder) by {
        assert forall i :: 0 <= i <= |init| ==> init[..i] == events[..i];
      }
      DriftIsBounded(init, holder);
      RoundError(Shares(log));
      assert events[..|events|] == events && TrueBalance(events, holder) >= 0;
    }
  }

  /** Below 2^53 shares per event there is no rounding, and a solvent account is indexed exactly. */
  lemma {:induction false} SmallAmountsAreExact(events: seq<Log>, holder: Holder)
    requires Solvent(events, holder)
    requires forall i :: 0 <= i < |events| ==> Shares(events[i]) <= P53
    ensures Balance(events, holder) == TrueBalance(events, holder)
  {
    hide RoundToFloat64;
    if events != [] {
      var init, log := events[..|events| - 1], events[|events| - 1];
      assert Solvent(init, holder) by {
        assert forall i :: 0 <= i <= |init| ==> init[..i] == events[..i];
      }
      SmallAmountsAreExact(init, holder);
      RoundIsIdentity(Shares(log));
      assert events[..|events|] == events && TrueBalance(events, holder) >= 0;
    }
  }

  /** The bound for the table itself: at any height, the row a reader finds is that close to the chain. */
  lemma TableDriftIsBounded(events: seq<Log>, holder: Holder, h: int) returns (shown: nat)
    requires Indexable(events) && Run(Complete, events).Ok? && Solvent(events, holder)
    ensures Reads(Run(Complete, events).value, holder, h, shown)
    ensures Distance(shown, TrueBalance(UpTo(events, h), holder)) * P53 <= Volume(UpTo(events, h), holder)
  {
    hide Balance, TrueBalance, Volume, Reads, Run;
    shown := Balance(UpTo(events, h), holder);
    TimeTravelIndex(events, holder, h);
    UpToIsPrefix(events, h);
    var prefix := UpTo(events, h);
    assert Solvent(prefix, holder) by {
      assert forall i :: 0 <= i <= |prefix| ==> prefix[..i] == events[..i];
    }
    DriftIsBounded(prefix, holder);
  }

  // ------------------------------------------------------ which chains index

  /** What an actual chain promises, with amounts that need no rounding. */
  ghost predicate SmallAndSolvent(events: seq<Log>) {
    && (forall k :: Solvent(events, k))
    && (forall i :: 0 <= i < |events| ==> Shares(events[i]) <= P53)
    && (forall i :: 0 <= i < |events| && IsRealTransfer(events[i]) ==> Shares(events[i]) > 0)
    && (forall i :: 0 <= i < |events| && events[i].body.WithdrawRequested? ==>
          RoundToFloat64(events[i].body.id) < INT64_LIMIT)
    && KeysFree([], events)
  }

  lemma PrefixIsSolvent(events: seq<Log>, n: nat, holder: Holder)
    requires Solvent(events, holder) && n <= |events|
    ensures Solvent(events[..n], holder)
  {
    assert forall i :: 0 <= i <= n ==> events[..n][..i] == events[..i];
  }

  /** A solvent sender owns what he sends, by the index as well. */
  lemma SenderIsCovered(events: seq<Log>, i: nat)
    requires i < |events| && IsRealTransfer(events[i]) && !IsSelfTransfer(events[i])
    requires forall j :: 0 <= j < |events| ==> Shares(events[j]) <= P53
    requires Solvent(events, Holder(events[i].vault, events[i].body.from))
    ensures RoundToFloat64(Shares(events[i])) == Shares(events[i])
    ensures Shares(events[i]) <= Balance(events[..i], Holder(events[i].vault, events[i].body.from))
  {
    hide RoundToFloat64, Balance;
    var k := Holder(events[i].vault, events[i].body.from);
    RoundIsIdentity(Shares(events[i]));
    PrefixIsSolvent(events, i, k);
    SmallAmountsAreExact(events[..i], k);
    assert events[..i + 1][..i] == events[..i] && TrueBalance(events[..i + 1], k) >= 0;
  }

  /** On a solvent chain with amounts up to 2^53 every run goes through, and the table shows the exact balances. */
  lemma SmallSolventRunsAreIndexed(events: seq<Log>, holder: Holder, h: int)
    requires Indexable(events) && SmallAndSolvent(events)
    ensures ProcessAll(Complete, events).Ok?
    ensures TrueBalance(UpTo(events, h), holder) >= 0
    ensures Reads(ProcessAll(Complete, events).value.positions, holder, h, TrueBalance(UpTo(events, h), holder))
  {
    hide RoundToFloat64, Balance, ProcessFrom, Reads, UpTo, KeysFree, TrueBalance, Solvent, WellFormed, Shares;
    forall i | 0 <= i < |events| && IsRealTransfer(events[i])
      ensures 0 < RoundToFloat64(Shares(events[i]))
           <= Balance(events[..i], Holder(events[i].vault, events[i].body.from))
    {
      SenderIsCovered(events, i);
    }
    BackedRunsAreIndexed(events, holder, h);
    UpToIsPrefix(events, h);
    var prefix := UpTo(events, h);
    PrefixIsSolvent(events, |prefix|, holder);
    assert events[..|prefix|] == prefix;
    SmallAmountsAreExact(prefix, holder);
  }

  /** The exact balance and the volume in plain terms: what one more event adds. */
  lemma ExactMeans(events: seq<Log>, log: Log, k: Holder)
    ensures
      var balance := TrueBalance(events + [log], k) - TrueBalance(events, k);
      var volume := Volume(events + [log], k) - Volume(events, k);
      match log.body
      case Deposit(sender, _, minted) =>
        balance == volume == if k == Holder(log.vault, sender) then minted else 0
      case Transfer(from, to, value) =>
        if from == ZERO_ADDRESS || to == ZERO_ADDRESS then balance == volume == 0
        else if from == to then balance == 0
        else
          && balance
            == (if k == Holder(log.vault, to) then value else if k == Holder(log.vault, from) then 0 - value else 0)
          && volume == (if k == Holder(log.vault, to) || k == Holder(log.vault, from) then value else 0)
      case WithdrawRequested(holder, _, shares, _) =>
        && balance == (if k == Holder(log.vault, holder) then 0 - shares else 0)
        && volume == (if k == Holder(log.vault, holder) then shares else 0)
      case RateUpdated(_) => balance == volume == 0
      case OtherEvent(_) => balance == volume == 0
  {
    assert (events + [log])[..|events|] == events;
  }
}
