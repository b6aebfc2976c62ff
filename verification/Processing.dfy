/**
  The whole transaction of one event: the position rows, and a withdraw request or a rate row next to them.
  Both extra tables have a unique key, so an event whose key is taken rolls back its position rows as well.
*/
module Processing {
  import opened Chain
  import opened Rounding
  import opened Positions
  import opened Replay
  import opened Ledger
  import opened Effects
  import opened TimeTravel

  datatype WithdrawRequest = WithdrawRequest(
    vault: Address, id: nat, block: Height, owner: Address, receiver: Address, amount: string)

  datatype RateUpdate = RateUpdate(vault: Address, block: Height, rate: string)

  /** Everything that is derived from events. */
  datatype Derived = Derived(positions: Table, requests: seq<WithdrawRequest>, rates: seq<RateUpdate>)

  const NOTHING_DERIVED := Derived([], [], [])

  /** The withdraw request row of one event. */
  function RequestOf(log: Log): seq<WithdrawRequest> {
    match log.body
    case WithdrawRequested(holder, receiver, shares, id) =>
      [WithdrawRequest(log.vault, RoundToFloat64(id), log.block, holder, receiver, AmountText(shares))]
    case _ => []
  }

  /** The rate row of one event. */
  function RateOf(log: Log): seq<RateUpdate> {
    match log.body
    case RateUpdated(newRate) => [RateUpdate(log.vault, log.block, AmountText(newRate))]
    case _ => []
  }

  /** UNIQUE (contract_address, withdraw_id) */
  predicate RequestTaken(requests: seq<WithdrawRequest>, log: Log) {
    log.body.WithdrawRequested? &&
    exists i :: 0 <= i < |requests| && requests[i].vault == log.vault && requests[i].id == RoundToFloat64(log.body.id)
  }

  /** UNIQUE (contract_address, block_number) */
  predicate RateTaken(rates: seq<RateUpdate>, log: Log) {
    log.body.RateUpdated? && exists i :: 0 <= i < |rates| && rates[i].vault == log.vault && rates[i].block == log.block
  }

  /** One event, all or nothing. */
  function Process(mode: Mode, d: Derived, log: Log): Result<Derived> {
    match Step(mode, d.positions, log)
    case Err(e) => Err(e)
    case Ok(positions) =>
      if RequestTaken(d.requests, log) then Err(DuplicateRequest)
      else if RateTaken(d.rates, log) then Err(DuplicateRate)
      else Ok(Derived(positions, d.requests + RequestOf(log), d.rates + RateOf(log)))
  }

  function ProcessFrom(mode: Mode, d: Derived, events: seq<Log>): Result<Derived> {
    if events == [] then Ok(d)
    else
      match ProcessFrom(mode, d, events[..|events| - 1])
      case Err(e) => Err(e)
      case Ok(before) => Process(mode, before, events[|events| - 1])
  }

  function ProcessAll(mode: Mode, events: seq<Log>): Result<Derived> {
    ProcessFrom(mode, NOTHING_DERIVED, events)
  }

  // -------------------------------------------------- keys, told from events

  /** No earlier event of the vault has the withdraw id, or the block's rate. */
  ghost predicate KeyFree(before: seq<Log>, log: Log) {
    && (log.body.WithdrawRequested? ==> forall e :: e in before && e.vault == log.vault && e.body.WithdrawRequested? ==>
          RoundToFloat64(e.body.id) != RoundToFloat64(log.body.id))
    && (log.body.RateUpdated? ==> forall e :: e in before && e.vault == log.vault && e.body.RateUpdated? ==>
      e.block != log.block)
  }

  /** Every event's key is free when its turn comes. */
  ghost predicate KeysFree(before: seq<Log>, events: seq<Log>) {
    forall i :: 0 <= i < |events| ==> KeyFree(before + events[..i], events[i])
  }

  function Requests(events: seq<Log>): seq<WithdrawRequest> {
    if events == [] then [] else Requests(events[..|events| - 1]) + RequestOf(events[|events| - 1])
  }

  function Rates(events: seq<Log>): seq<RateUpdate> {
    if events == [] then [] else Rates(events[..|events| - 1]) + RateOf(events[|events| - 1])
  }

  lemma {:induction false} RequestsMembers(events: seq<Log>, r: WithdrawRequest)
    ensures r in Requests(events) <==> exists e :: e in events && r in RequestOf(e)
  {
    hide RequestOf;
    if events != [] {
      RequestsMembers(events[..|events| - 1], r);
      assert events == events[..|events| - 1] + [events[|events| - 1]];
    }
  }

  lemma {:induction false} RatesMembers(events: seq<Log>, r: RateUpdate)
    ensures r in Rates(events) <==> exists e :: e in events && r in RateOf(e)
  {
    hide RateOf;
    if events != [] {
      RatesMembers(events[..|events| - 1], r);
      assert events == events[..|events| - 1] + [events[|events| - 1]];
    }
  }

  /** The stored keys block an event exactly when an earlier event has its key. */
  lemma RequestTakenMeans(before: seq<Log>, log: Log)
    requires log.body.WithdrawRequested?
    ensures RequestTaken(Requests(before), log) <==> !KeyFree(before, log)
  {
    hide Requests, RoundToFloat64, AmountText;
    forall r ensures r in Requests(before) <==> exists e :: e in before && r in RequestOf(e) {
      RequestsMembers(before, r);
    }
    if RequestTaken(Requests(before), log) {
      var i :| 0 <= i < |Requests(before)| && Requests(before)[i].vault == log.vault
        && Requests(before)[i].id == RoundToFloat64(log.body.id);
      assert Requests(before)[i] in Requests(before);
    }
    if !KeyFree(before, log) {
      var e :| e in before && e.vault == log.vault && e.body.WithdrawRequested?
        && RoundToFloat64(e.body.id) == RoundToFloat64(log.body.id);
      assert RequestOf(e)[0] in RequestOf(e);
      assert RequestOf(e)[0] in Requests(before);
    }
  }

  lemma RateTakenMeans(before: seq<Log>, log: Log)
    requires log.body.RateUpdated?
    ensures RateTaken(Rates(before), log) <==> !KeyFree(before, log)
  {
    hide Rates, AmountText;
    forall r ensures r in Rates(before) <==> exists e :: e in before && r in RateOf(e) {
      RatesMembers(before, r);
    }
    if RateTaken(Rates(before), log) {
      var i :| 0 <= i < |Rates(before)| && Rates(before)[i].vault == log.vault && Rates(before)[i].block == log.block;
      assert Rates(before)[i] in Rates(before);
    }
    if !KeyFree(before, log) {
      var e :| e in before && e.vault == log.vault && e.body.RateUpdated? && e.block == log.block;
      assert RateOf(e)[0] in RateOf(e);
      assert RateOf(e)[0] in Rates(before);
    }
  }

  lemma KeyTakenMeans(before: seq<Log>, log: Log)
    ensures RequestTaken(Requests(before), log) || RateTaken(Rates(before), log) <==> !KeyFree(before, log)
  {
    hide Requests, Rates;
    if log.body.WithdrawRequested? {
      RequestTakenMeans(before, log);
    } else if log.body.RateUpdated? {
      RateTakenMeans(before, log);
    }
  }

  lemma KeysFreeSnoc(before: seq<Log>, events: seq<Log>, last: Log)
    ensures KeysFree(before, events + [last]) <==> KeysFree(before, events) && KeyFree(before + events, last)
  {
    hide KeyFree;
    var all := events + [last];
    assert forall i :: 0 <= i < |events| ==> all[..i] == events[..i] && all[i] == events[i];
    assert all[..|events|] == events;
  }

  /** A key that is free after many events is free after fewer. */
  lemma FewerKeys(many: seq<Log>, few: seq<Log>, log: Log)
    requires KeyFree(many, log) && forall e :: e in few ==> e in many
    ensures KeyFree(few, log)
  {
    hide RoundToFloat64;
  }

  /** The requests and rates are those of some events. */
  ghost predicate HoldsKeysOf(d: Derived, events: seq<Log>) {
    d.requests == Requests(events) && d.rates == Rates(events)
  }

  /**
    A run of transactions is a run on the positions alone that meets no taken key, and its request and rate rows are
    those of its events.
  */
  lemma {:induction false} ProcessingSplits(mode: Mode, d: Derived, before: seq<Log>, events: seq<Log>)
    requires HoldsKeysOf(d, before)
    ensures
      var p, t := ProcessFrom(mode, d, events), RunFrom(mode, d.positions, events);
      && (p.Ok? <==> t.Ok? && KeysFree(before, events))
      && (p.Ok? ==> p.value.positions == t.value && HoldsKeysOf(p.value, before + events))
  {
    hide Step, RequestTaken, RateTaken, KeyFree, KeysFree, RequestOf, RateOf;
    if events == [] {
      assert before + events == before;
      assert KeysFree(before, []) by { NoKeys(before); }
    } else {
      var init, last := events[..|events| - 1], events[|events| - 1];
      ProcessingSplits(mode, d, before, init);
      KeyTakenMeans(before + init, last);
      KeysFreeSnoc(before, init, last);
      assert init + [last] == events && (before + events)[..|before + events| - 1] == before + init;
    }
  }

  lemma NoKeys(before: seq<Log>)
    ensures KeysFree(before, [])
  {
  }

  /** From scratch. */
  lemma ProcessingAllSplits(mode: Mode, events: seq<Log>)
    ensures
      var p, t := ProcessAll(mode, events), Run(mode, events);
      && (p.Ok? <==> t.Ok? && KeysFree([], events))
      && (p.Ok? ==> p.value == Derived(t.value, Requests(events), Rates(events)))
  {
    hide Step, RequestTaken, RateTaken, KeysFree;
    ProcessingSplits(mode, NOTHING_DERIVED, [], events);
    assert [] + events == events;
  }

  // ------------------------------------------------------------- one event

  /**
    One event after others: its transaction fails exactly when its position changes are rejected or its key is taken,
    and otherwise does the credits and debits it stands for and adds its request or rate row.
  */
  lemma ProcessMeaning(d: Derived, before: seq<Log>, height: int, log: Log)
    requires Valid(d.positions, height) && log.block >= height && WellFormed(log) && !IsSelfTransfer(log)
    requires HoldsKeysOf(d, before)
    ensures Process(Complete, d, log).Err? <==> Rejected(d.positions, log) || !KeyFree(before, log)
    ensures Process(Complete, d, log).Ok? ==>
      Process(Complete, d, log).value
        == Derived(Effect(d.positions, log), d.requests + RequestOf(log), d.rates + RateOf(log))
  {
    hide Valid, Step, Rejected, Effect, RequestTaken, RateTaken, KeyFree, Requests, Rates, RequestOf, RateOf;
    StepMeaning(d.positions, height, log);
    KeyTakenMeans(before, log);
  }

  /** The time-travel index, for the table the transactions build. */
  lemma ProcessedTimeTravel(events: seq<Log>, holder: Holder, h: int)
    requires Indexable(events) && ProcessAll(Complete, events).Ok?
    ensures Reads(ProcessAll(Complete, events).value.positions, holder, h, Balance(UpTo(events, h), holder))
  {
    hide RunFrom, Reads, Indexable, KeysFree, Balance, UpTo;
    ProcessingAllSplits(Complete, events);
    TimeTravelIndex(events, holder, h);
  }

  // ---------------------------------------------------------------- concat

  lemma {:induction false} ProcessConcat(mode: Mode, d: Derived, a: seq<Log>, b: seq<Log>)
    ensures ProcessFrom(mode, d, a + b) ==
      match ProcessFrom(mode, d, a) { case Err(e) => Err(e) case Ok(u) => ProcessFrom(mode, u, b) }
  {
    hide Process;
    if b == [] {
      assert a + b == a;
    } else {
      ProcessConcat(mode, d, a, b[..|b| - 1]);
      assert (a + b)[..|a + b| - 1] == a + b[..|b| - 1];
    }
  }
}
