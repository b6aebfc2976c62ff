/** The plain reading of a vault's events: one running balance per holder, no rows and no heights. */
module Replay {
  import opened Chain
  import opened Decimal
  import opened Rounding
  import opened Positions

  /** A transfer between two accounts, as opposed to the log of a mint or a burn. */
  predicate IsRealTransfer(log: Log) {
    log.body.Transfer? && log.body.from != ZERO_ADDRESS && log.body.to != ZERO_ADDRESS
  }

  /** The exact number of shares an event moves. */
  function Shares(log: Log): nat {
    match log.body
    case Deposit(_, _, minted) => minted
    case Transfer(_, _, value) => value
    case WithdrawRequested(_, _, shares, _) => shares
    case RateUpdated(_) | OtherEvent(_) => 0
  }

  predicate Credits(log: Log, holder: Holder) {
    log.vault == holder.vault &&
    ((log.body.Deposit? && log.body.sender == holder.owner) || (IsRealTransfer(log) && log.body.to == holder.owner))
  }

  predicate Debits(log: Log, holder: Holder) {
    log.vault == holder.vault &&
    ((log.body.WithdrawRequested? && log.body.holder == holder.owner) ||
      (IsRealTransfer(log) && log.body.from == holder.owner))
  }

  /** One event on one balance, amounts as decoded, never below zero. */
  function Replayed(balance: nat, log: Log, holder: Holder): nat {
    var amount := RoundToFloat64(Shares(log));
    var credited := if Credits(log, holder) then balance + amount else balance;
    if Debits(log, holder) then Monus(credited, amount) else credited
  }

  function Balance(events: seq<Log>, holder: Holder): nat {
    if events == [] then 0
    else Replayed(Balance(events[..|events| - 1], holder), events[|events| - 1], holder)
  }

  /** The events in blocks up to h. */
  function UpTo(events: seq<Log>, h: int): seq<Log> {
    if events == [] then []
    else
      var last := events[|events| - 1];
      UpTo(events[..|events| - 1], h) + if last.block <= h then [last] else []
  }

  lemma {:induction false} UpToAll(events: seq<Log>, h: int)
    requires forall i :: 0 <= i < |events| ==> events[i].block <= h
    ensures UpTo(events, h) == events
  {
    if events != [] {
      UpToAll(events[..|events| - 1], h);
    }
  }

  /** In block order, the events up to h are a prefix, and the rest are all above h. */
  lemma {:induction false} UpToIsPrefix(events: seq<Log>, h: int)
    requires InBlockOrder(events)
    ensures UpTo(events, h) <= events
    ensures forall i :: |UpTo(events, h)| <= i < |events| ==> events[i].block > h
    ensures forall i :: 0 <= i < |UpTo(events, h)| ==> events[i].block <= h
  {
    if events != [] {
      if events[|events| - 1].block <= h {
        UpToAll(events, h);
      } else {
        UpToIsPrefix(events[..|events| - 1], h);
      }
    }
  }

  /** The replay in plain terms: whom each event changes, and by how much. */
  lemma ReplayMeans(events: seq<Log>, log: Log, k: Holder)
    ensures
      var before, after := Balance(events, k), Balance(events + [log], k);
      match log.body
      case Deposit(sender, _, minted) =>
        after == before + if k == Holder(log.vault, sender) then RoundToFloat64(minted) else 0
      case Transfer(from, to, value) =>
        var amount := RoundToFloat64(value);
        from != ZERO_ADDRESS && to != ZERO_ADDRESS && from != to ==>
          after == if k == Holder(log.vault, to) then before + amount
                   else if k != Holder(log.vault, from) then before
                   else if before <= amount then 0 else before - amount
      case WithdrawRequested(holder, _, shares, _) =>
        var amount := RoundToFloat64(shares);
        after == if k != Holder(log.vault, holder) then before else if before <= amount then 0 else before - amount
      case RateUpdated(_) => after == before
      case OtherEvent(_) => after == before
    ensures log.body.Transfer? && (log.body.from == ZERO_ADDRESS || log.body.to == ZERO_ADDRESS) ==>
      Balance(events + [log], k) == Balance(events, k)
  {
    hide RoundToFloat64;
    assert (events + [log])[..|events|] == events;
  }
}
