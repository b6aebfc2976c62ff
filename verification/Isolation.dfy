/** Vaults do not see each other, whatever order their events are interleaved in. */
module Isolation {
  import opened Chain
  import opened Decimal
  import opened Rounding
  import opened Positions
  import opened Processing
  import opened Rows

  function RowsOf(t: Table, vault: Address): Table {
    if t == [] then []
    else RowsOf(t[..|t| - 1], vault) + if t[|t| - 1].vault == vault then [t[|t| - 1]] else []
  }

  function EventsOf(events: seq<Log>, vault: Address): seq<Log> {
    if events == [] then []
    else
      var last := events[|events| - 1];
      EventsOf(events[..|events| - 1], vault) + if last.vault == vault then [last] else []
  }

  /** Lookups only depend on the vault's own rows. */
  lemma {:induction false} LookupsAreLocal(t: Table, holder: Holder)
    ensures MostRecentRow(RowsOf(t, holder.vault), holder) == MostRecentRow(t, holder)
    ensures MaxIndexId(RowsOf(t, holder.vault), holder.vault) == MaxIndexId(t, holder.vault)
  {
    if t != [] {
      var init, last := t[..|t| - 1], t[|t| - 1];
      LookupsAreLocal(init, holder);
      if last.vault == holder.vault {
        var p := RowsOf(t, holder.vault);
        assert p[..|p| - 1] == RowsOf(init, holder.vault);
      } else {
        assert RowsOf(t, holder.vault) == RowsOf(init, holder.vault);
      }
    }
  }

  lemma HandleIsLocal(t: Table, log: Log)
    ensures Handle(RowsOf(t, log.vault), log) == Handle(t, log)
  {
    hide DepositOperations, WithdrawOperations, TransferOperations, AmountText, RoundToFloat64, MostRecentRow,
      MaxIndexId, RowsOf;
    forall owner: Address ensures
      GetMostRecentPosition(RowsOf(t, log.vault), owner, log.vault) == GetMostRecentPosition(t, owner, log.vault)
      && MaxIndexId(RowsOf(t, log.vault), log.vault) == MaxIndexId(t, log.vault)
    {
      LookupsAreLocal(t, Holder(log.vault, owner));
    }
    assert MaxIndexId(RowsOf(t, log.vault), log.vault) == MaxIndexId(t, log.vault) by {
      LookupsAreLocal(t, Holder(log.vault, ""));
    }
  }

  /** All rows an operation list inserts or updates belong to one vault. */
  ghost predicate Touches(ops: Operations, vault: Address) {
    && (forall i :: 0 <= i < |ops.inserts| ==> ops.inserts[i].vault == vault)
    && (forall i :: 0 <= i < |ops.updates| ==> ops.updates[i].id.vault == vault)
  }

  lemma HandleTouchesItsVault(t: Table, log: Log)
    ensures Handle(t, log).Ok? ==> Touches(Handle(t, log).value, log.vault)
  {
    hide RoundToFloat64, AmountText, MaxIndexId, ChangeOf, GetMostRecentPosition, Touches, ReceiverOperations;
    var maxId := MaxIndexId(t, log.vault);
    assert Touches(NO_OPERATIONS, log.vault) by { NothingTouched(log.vault); }
    match log.body
    case Deposit(sender, _, minted) =>
      var m := Movement(sender, "", log.vault, AmountText(minted), log.block);
      LookupIsHeld(t, Holder(log.vault, sender));
      DepositTouches(m, GetMostRecentPosition(t, sender, log.vault), maxId);
    case Transfer(from, to, value) =>
      var m := Movement(from, to, log.vault, AmountText(value), log.block);
      LookupIsHeld(t, Holder(log.vault, from));
      LookupIsHeld(t, Holder(log.vault, to));
      TransferTouches(m, GetMostRecentPosition(t, from, log.vault), GetMostRecentPosition(t, to, log.vault), maxId);
    case WithdrawRequested(holder, receiver, shares, _) =>
      LookupIsHeld(t, Holder(log.vault, holder));
      var found := GetMostRecentPosition(t, holder, log.vault);
      ChangeTouches(UpdateInput(found, holder, AmountText(shares), log.block, false, Some(receiver)), maxId, log.vault);
    case RateUpdated(_) | OtherEvent(_) =>
  }

  lemma NothingTouched(vault: Address)
    ensures Touches(NO_OPERATIONS, vault)
  {
  }

  lemma ChangeTouches(input: UpdateInput, maxId: int, vault: Address)
    requires input.current.Some? ==> input.current.value.vault == vault
    ensures ChangeOf(input, maxId).Ok? ==> Touches(ChangeToOperations(ChangeOf(input, maxId).value), vault)
  {
    hide ComputeNewAmountShares;
  }

  lemma DepositTouches(m: Movement, existing: Option<Row>, maxId: int)
    requires existing.Some? ==> existing.value.vault == m.vault
    ensures DepositOperations(m, existing, maxId).Ok? ==> Touches(DepositOperations(m, existing, maxId).value, m.vault)
  {
    hide ChangeOf;
    ChangeTouches(UpdateInput(existing, m.sender, m.amount, m.block, true, None), maxId, m.vault);
  }

  lemma TransferTouches(m: Movement, from: Option<Row>, to: Option<Row>, maxId: int)
    requires (from.Some? ==> from.value.vault == m.vault) && (to.Some? ==> to.value.vault == m.vault)
    ensures TransferOperations(m, from, to, maxId).Ok? ==>
      Touches(TransferOperations(m, from, to, maxId).value, m.vault)
  {
    hide ChangeOf;
    ChangeTouches(UpdateInput(to, m.receiver, m.amount, m.block, true, None), maxId, m.vault);
    var credit := ReceiverOperations(m, to, maxId);
    if credit.Ok? {
      var input := UpdateInput(from, m.sender, m.amount, m.block, false, None);
      ChangeTouches(input, maxId + |credit.value.inserts|, m.vault);
    }
  }

  // -------------------------------------------- executing inside one vault

  lemma {:induction false} RowsOfConcat(t: Table, rest: Table, vault: Address)
    ensures RowsOf(t + rest, vault) == RowsOf(t, vault) + RowsOf(rest, vault)
  {
    if rest == [] {
      assert t + rest == t;
    } else {
      var init := rest[..|rest| - 1];
      RowsOfConcat(t, init, vault);
      assert (t + rest)[..|t + rest| - 1] == t + init;
    }
  }

  lemma {:induction false} RowsOfUniform(rest: Table, owner: Address, vault: Address)
    requires forall i :: 0 <= i < |rest| ==> rest[i].vault == owner
    ensures RowsOf(rest, vault) == if owner == vault then rest else []
  {
    if rest != [] {
      RowsOfUniform(rest[..|rest| - 1], owner, vault);
    }
  }

  lemma {:induction false} RowsOfUpdate(t: Table, u: PositionUpdate, vault: Address)
    ensures RowsOf(UpdateRows(t, u), vault)
         == if u.id.vault == vault then UpdateRows(RowsOf(t, vault), u) else RowsOf(t, vault)
  {
    if t != [] {
      var init, last := t[..|t| - 1], t[|t| - 1];
      RowsOfUpdate(init, u, vault);
      assert UpdateRows(t, u)[..|t| - 1] == UpdateRows(init, u);
    }
  }

  lemma {:induction false} RowsOfUpdateAll(t: Table, updates: seq<PositionUpdate>, owner: Address, vault: Address)
    requires forall i :: 0 <= i < |updates| ==> updates[i].id.vault == owner
    ensures RowsOf(UpdateAll(t, updates), vault)
         == if owner == vault then UpdateAll(RowsOf(t, vault), updates) else RowsOf(t, vault)
    decreases |updates|
  {
    if updates != [] {
      RowsOfUpdate(t, updates[0], vault);
      RowsOfUpdateAll(UpdateRows(t, updates[0]), updates[1..], owner, vault);
    }
  }

  lemma ApplyIsLocal(t: Table, ops: Operations, owner: Address, vault: Address)
    requires Touches(ops, owner)
    ensures RowsOf(ApplyAll(t, ops), vault)
         == if owner == vault then ApplyAll(RowsOf(t, vault), ops) else RowsOf(t, vault)
  {
    hide RowsOf, UpdateAll;
    var rest := InsertedRows(ops.inserts);
    RowsOfConcat(t, rest, vault);
    RowsOfUniform(rest, owner, vault);
    RowsOfUpdateAll(t + rest, ops.updates, owner, vault);
    if owner != vault {
      assert RowsOf(t, vault) + [] == RowsOf(t, vault);
    }
  }

  lemma StepIsLocal(mode: Mode, t: Table, log: Log, vault: Address)
    requires Step(mode, t, log).Ok?
    ensures log.vault == vault ==> Step(mode, RowsOf(t, vault), log) == Ok(RowsOf(Step(mode, t, log).value, vault))
    ensures log.vault != vault ==> RowsOf(Step(mode, t, log).value, vault) == RowsOf(t, vault)
  {
    hide RowsOf, Handle, ApplyAll;
    var ops := Handle(t, log).value;
    HandleIsLocal(t, log);
    HandleTouchesItsVault(t, log);
    var first := Operations(FirstOf(ops.inserts), FirstOf(ops.updates));
    assert Touches(first, log.vault);
    ApplyIsLocal(t, ops, log.vault, vault);
    ApplyIsLocal(t, first, log.vault, vault);
  }

  /**
    On every run without an error, restricting the final table to one vault equals processing that vault's events
    alone, index ids included. It holds for every event and for either way of executing the computed lists.
  */
  lemma {:induction false} VaultsAreIsolated(mode: Mode, events: seq<Log>, vault: Address)
    requires Run(mode, events).Ok?
    ensures Run(mode, EventsOf(events, vault)) == Ok(RowsOf(Run(mode, events).value, vault))
  {
    hide Step;
    if events != [] {
      var init, last := events[..|events| - 1], events[|events| - 1];
      VaultsAreIsolated(mode, init, vault);
      StepIsLocal(mode, Run(mode, init).value, last, vault);
      var own := EventsOf(events, vault);
      if last.vault == vault {
        assert own[..|own| - 1] == EventsOf(init, vault);
      } else {
        assert own == EventsOf(init, vault);
      }
    }
  }

  lemma {:induction false} EventsOfMembers(events: seq<Log>, vault: Address)
    ensures forall e :: e in EventsOf(events, vault) ==> e in events
  {
    if events != [] {
      EventsOfMembers(events[..|events| - 1], vault);
      assert events == events[..|events| - 1] + [events[|events| - 1]];
    }
  }

  /** A key that is free among all events is free among the vault's own. */
  lemma {:induction false} KeysFreeInVault(events: seq<Log>, vault: Address)
    requires KeysFree([], events)
    ensures KeysFree([], EventsOf(events, vault))
  {
    hide KeyFree, KeysFree;
    if events == [] {
      NoKeys([]);
    } else {
      var init, last := events[..|events| - 1], events[|events| - 1];
      assert events == init + [last];
      KeysFreeSnoc([], init, last);
      KeysFreeInVault(init, vault);
      if last.vault == vault {
        KeysFreeSnoc([], EventsOf(init, vault), last);
        EventsOfMembers(init, vault);
        FewerKeys([] + init, [] + EventsOf(init, vault), last);
      } else {
        assert EventsOf(events, vault) == EventsOf(init, vault);
      }
    }
  }

  /**
    The same for whole transactions: a run that goes through does so for each vault alone, with the vault's own rows.
  */
  lemma ProcessedVaultsAreIsolated(mode: Mode, events: seq<Log>, vault: Address)
    requires ProcessAll(mode, events).Ok?
    ensures
      var own := EventsOf(events, vault);
      ProcessAll(mode, own)
        == Ok(Derived(RowsOf(ProcessAll(mode, events).value.positions, vault), Requests(own), Rates(own)))
  {
    hide ProcessFrom, RunFrom, KeysFree, Requests, Rates, RowsOf, EventsOf;
    ProcessingAllSplits(mode, events);
    ProcessingAllSplits(mode, EventsOf(events, vault));
    VaultsAreIsolated(mode, events, vault);
    KeysFreeInVault(events, vault);
  }
}
