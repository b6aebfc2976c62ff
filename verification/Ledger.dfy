/** What every reachable positions table looks like, and what one event does to it. */
module Ledger {
  import opened Chain
  import opened Decimal
  import opened Positions

  // ------------------------------------------------------------ the invariant

  function CountRows(t: Table, vault: Address): nat {
    if t == [] then 0
    else CountRows(t[..|t| - 1], vault) + if t[|t| - 1].vault == vault then 1 else 0
  }

  ghost predicate StartsInOrder(t: Table, i: int, j: int)
    requires 0 <= i < j < |t|
  {
    t[i].start <= t[j].start
  }

  /** If both rows belong to one holder, the earlier one is closed and ends before the later one starts. */
  ghost predicate Apart(t: Table, i: int, j: int)
    requires 0 <= i < j < |t|
  {
    t[i].HeldBy() == t[j].HeldBy() ==> t[i].end.Some? && t[i].end.value < t[j].start
  }

  /** Start heights never go down; a closed row ends before the current height, possibly just before its own start. */
  ghost predicate Ordered(t: Table, height: int) {
    && (forall i :: 0 <= i < |t| ==> t[i].start <= height)
    && (forall i, j {:trigger StartsInOrder(t, i, j)} :: 0 <= i < j < |t| ==> StartsInOrder(t, i, j))
    && (forall i :: 0 <= i < |t| && t[i].end.Some? ==> t[i].start - 1 <= t[i].end.value < height)
  }

  /** Row i has the id after those of the vault's earlier rows. */
  ghost predicate HasNextId(t: Table, i: int)
    requires 0 <= i < |t|
  {
    t[i].indexId == CountRows(t[..i], t[i].vault) + 1
  }

  /** Inside each vault the index ids are 1, 2, 3, ... in the order of insertion. */
  ghost predicate Numbered(t: Table) {
    forall i {:trigger HasNextId(t, i)} :: 0 <= i < |t| ==> HasNextId(t, i)
  }

  /** Row j is the holder's next row after row i. */
  ghost predicate Follows(t: Table, i: int, j: int) {
    && 0 <= i < j < |t|
    && t[i].HeldBy() == t[j].HeldBy()
    && forall m :: i < m < j ==> t[m].HeldBy() != t[i].HeldBy()
  }

  /** The holder has a next row, and it starts right after row i ends. */
  ghost predicate Continued(t: Table, i: int)
    requires 0 <= i < |t| && t[i].end.Some?
  {
    exists j :: Follows(t, i, j) && t[j].start == t[i].end.value + 1
  }

  /** Only a holder's last row can be open; earlier ones end before the next starts, without a gap unless terminated. */
  ghost predicate Chained(t: Table) {
    && (forall i, j {:trigger Apart(t, i, j)} :: 0 <= i < j < |t| ==> Apart(t, i, j))
    && (forall i {:trigger Continued(t, i)} :: 0 <= i < |t| && t[i].end.Some? && !t[i].terminated ==> Continued(t, i))
  }

  /** Amounts are canonical text, owners can be looked up, and an open row carries no closing marks. */
  ghost predicate Clean(t: Table) {
    forall i :: 0 <= i < |t| ==>
      && Canonical(t[i].amount)
      && Tracked(t[i].owner)
      && (t[i].IsOpen() ==> !t[i].terminated && t[i].receiver == None)
  }

  ghost predicate Valid(t: Table, height: int) {
    Ordered(t, height) && Numbered(t) && Chained(t) && Clean(t)
  }

  ghost predicate OpenAt(t: Table, x: int, holder: Holder) {
    0 <= x < |t| && t[x].HeldBy() == holder && t[x].IsOpen()
  }

  ghost predicate HasOpen(t: Table, holder: Holder) {
    exists x :: OpenAt(t, x, holder)
  }

  ghost function OpenIndex(t: Table, holder: Holder): (x: nat)
    requires HasOpen(t, holder)
    ensures OpenAt(t, x, holder)
  {
    var x: nat :| OpenAt(t, x, holder); x
  }

  function AmountOf(r: Row): nat {
    if AllDigits(r.amount) then Value(r.amount) else 0
  }

  /** The amount on the holder's open row, zero without one. */
  ghost function Owned(t: Table, holder: Holder): nat {
    if HasOpen(t, holder) then AmountOf(t[OpenIndex(t, holder)]) else 0
  }

  // ------------------------------------------------------- ids and lookups

  lemma {:induction false} CountGrows(t: Table, i: nat, j: nat, vault: Address)
    requires i <= j <= |t|
    ensures CountRows(t[..i], vault) <= CountRows(t[..j], vault)
  {
    if i < j {
      CountGrows(t, i, j - 1, vault);
      assert t[..j][..j - 1] == t[..j - 1];
    }
  }

  lemma IdsIncrease(t: Table, i: nat, j: nat)
    requires Numbered(t)
    requires i < j < |t| && t[i].vault == t[j].vault
    ensures t[i].indexId < t[j].indexId
  {
    assert HasNextId(t, i) && HasNextId(t, j);
    CountGrows(t, i + 1, j, t[i].vault);
    assert t[..i + 1][..i] == t[..i];
  }

  lemma PrefixIsNumbered(t: Table, n: nat)
    requires Numbered(t) && n <= |t|
    ensures Numbered(t[..n])
  {
    forall i | 0 <= i < n ensures HasNextId(t[..n], i) {
      assert HasNextId(t, i);
      assert t[..n][..i] == t[..i];
    }
  }

  /** The greatest index id of a vault is also its number of rows. */
  lemma {:induction false} MaxIdIsCount(t: Table, vault: Address)
    requires Numbered(t)
    ensures MaxIndexId(t, vault) == CountRows(t, vault)
  {
    if t != [] {
      PrefixIsNumbered(t, |t| - 1);
      MaxIdIsCount(t[..|t| - 1], vault);
      assert HasNextId(t, |t| - 1);
    }
  }

  /** The row with the greatest id is the holder's last row. */
  lemma {:induction false} MostRecentIsLast(t: Table, holder: Holder)
    requires Numbered(t)
    ensures MostRecentRow(t, holder).None? ==> forall i :: 0 <= i < |t| ==> t[i].HeldBy() != holder
    ensures MostRecentRow(t, holder).Some? ==>
      exists x :: 0 <= x < |t| && t[x] == MostRecentRow(t, holder).value && t[x].HeldBy() == holder
        && forall j :: x < j < |t| ==> t[j].HeldBy() != holder
  {
    if t != [] {
      var init := t[..|t| - 1];
      PrefixIsNumbered(t, |t| - 1);
      MostRecentIsLast(init, holder);
      var last := t[|t| - 1];
      var best := MostRecentRow(init, holder);
      if last.HeldBy() == holder && best.Some? {
        var x :| 0 <= x < |init| && init[x] == best.value && init[x].HeldBy() == holder;
        IdsIncrease(t, x, |t| - 1);
      }
    }
  }

  /** Picking the greatest id and testing the terminated flag finds the holder's open row, and there is at most one. */
  lemma LookupFindsOpenRow(t: Table, height: int, holder: Holder)
    requires Valid(t, height)
    ensures forall x, y :: OpenAt(t, x, holder) && OpenAt(t, y, holder) ==> x == y
    ensures
      var found := GetMostRecentPosition(t, holder.owner, holder.vault);
      (found.None? ==> forall x :: !OpenAt(t, x, holder)) &&
      (found.Some? ==> exists x :: OpenAt(t, x, holder) && t[x] == found.value)
  {
    MostRecentIsLast(t, holder);
    var best := MostRecentRow(t, holder);
    forall x, y | OpenAt(t, x, holder) && OpenAt(t, y, holder) ensures x == y {
      assert (x < y ==> Apart(t, x, y)) && (y < x ==> Apart(t, y, x));
    }
    if best.Some? {
      var x :| 0 <= x < |t| && t[x] == best.value && t[x].HeldBy() == holder
        && forall j :: x < j < |t| ==> t[j].HeldBy() != holder;
      assert t[x].end.Some? && !t[x].terminated ==> Continued(t, x);
      forall y | 0 <= y < x && t[y].HeldBy() == holder ensures !t[y].IsOpen() {
        assert Apart(t, y, x);
      }
    }
  }

  // ------------------------------------------------------- the two primitives

  function NewRow(t: Table, holder: Holder, amount: nat, block: Height): Row {
    Row(MaxIndexId(t, holder.vault) + 1, holder.vault, holder.owner, Print(amount), block, None, false, None)
  }

  function ClosedRow(r: Row, terminated: bool, block: Height, receiver: Option<Address>): Row {
    r.(terminated := terminated, end := Some(block - 1), receiver := receiver)
  }

  /** Open row x is closed just below the block and, unless nothing is left, replaced by a row starting there. */
  function Supersede(t: Table, x: nat, amount: nat, block: Height, receiver: Option<Address>): Table
    requires x < |t|
  {
    t[x := ClosedRow(t[x], amount == 0, block, receiver)] +
    if amount == 0 then [] else [NewRow(t, t[x].HeldBy(), amount, block)]
  }

  /** Adds to a holder's balance at a block. */
  ghost function Credit(t: Table, holder: Holder, amount: nat, block: Height): Table {
    if HasOpen(t, holder)
    then Supersede(t, OpenIndex(t, holder), Owned(t, holder) + amount, block, None)
    else t + [NewRow(t, holder, amount, block)]
  }

  /** Takes from a holder's balance at a block, stopping at zero; a holder without a position is left alone. */
  ghost function Debit(t: Table, holder: Holder, amount: nat, block: Height, receiver: Option<Address>): Table {
    if HasOpen(t, holder)
    then Supersede(t, OpenIndex(t, holder), Monus(Owned(t, holder), amount), block, receiver)
    else t
  }

  /** Same row, possibly closed since, and not so as to change what it says below the block. */
  ghost predicate SameBelow(r: Row, s: Row, block: int) {
    && s.HeldBy() == r.HeldBy() && s.amount == r.amount && s.indexId == r.indexId && s.start == r.start
    && forall h :: h < block ==> (s.Covers(h) <==> r.Covers(h))
  }

  /** From t to u only rows starting at the block were added, and no height below it reads differently. */
  ghost predicate AgreeBelow(t: Table, u: Table, block: int) {
    && |t| <= |u|
    && (forall i :: 0 <= i < |t| ==> SameBelow(t[i], u[i], block))
    && (forall i :: |t| <= i < |u| ==> u[i].start == block)
  }

  lemma AppendIsNumbered(t: Table, r: Row)
    requires Numbered(t) && r.indexId == MaxIndexId(t, r.vault) + 1
    ensures Numbered(t + [r])
  {
    MaxIdIsCount(t, r.vault);
    forall i | 0 <= i < |t| + 1 ensures HasNextId(t + [r], i) {
      assert (t + [r])[..i] == t[..i];
      if i < |t| { assert HasNextId(t, i); } else { assert t[..|t|] == t; }
    }
  }

  lemma {:induction false} CountIgnoresClosing(t: Table, u: Table, vault: Address)
    requires |t| == |u| && forall i :: 0 <= i < |t| ==> t[i].Id() == u[i].Id()
    ensures CountRows(t, vault) == CountRows(u, vault)
    ensures MaxIndexId(t, vault) == MaxIndexId(u, vault)
  {
    if t != [] {
      assert t[|t| - 1].Id() == u[|u| - 1].Id();
      CountIgnoresClosing(t[..|t| - 1], u[..|u| - 1], vault);
    }
  }

  lemma ClosingIsNumbered(t: Table, u: Table)
    requires Numbered(t)
    requires |t| == |u| && forall i :: 0 <= i < |t| ==> t[i].Id() == u[i].Id()
    ensures Numbered(u)
  {
    forall i | 0 <= i < |u| ensures HasNextId(u, i) {
      assert HasNextId(t, i) && t[i].Id() == u[i].Id();
      CountIgnoresClosing(t[..i], u[..i], u[i].vault);
    }
  }

  lemma SupersedeIsNumbered(t: Table, x: nat, amount: nat, block: Height, receiver: Option<Address>)
    requires Numbered(t) && x < |t|
    ensures Numbered(Supersede(t, x, amount, block, receiver))
  {
    var closed := t[x := ClosedRow(t[x], amount == 0, block, receiver)];
    ClosingIsNumbered(t, closed);
    if amount != 0 {
      CountIgnoresClosing(t, closed, t[x].vault);
      AppendIsNumbered(closed, NewRow(t, t[x].HeldBy(), amount, block));
    } else {
      assert Supersede(t, x, amount, block, receiver) == closed;
    }
  }

  lemma SupersedeIsChained(t: Table, height: int, x: nat, amount: nat, block: Height, receiver: Option<Address>)
    requires Valid(t, height) && block >= height && x < |t| && t[x].IsOpen()
    ensures Chained(Supersede(t, x, amount, block, receiver))
  {
    var u := Supersede(t, x, amount, block, receiver);
    forall i, j | 0 <= i < j < |u| ensures Apart(u, i, j) {
      if j < |t| {
        assert Apart(t, i, j);
      } else if i != x {
        assert if i < x then Apart(t, i, x) else Apart(t, x, i);
      }
    }
    forall i | 0 <= i < |u| && u[i].end.Some? && !u[i].terminated
      ensures Continued(u, i)
    {
      if i == x {
        forall m | x < m < |t| ensures t[m].HeldBy() != t[x].HeldBy() {
          assert Apart(t, x, m);
        }
        assert Follows(u, x, |t|);
      } else {
        assert Continued(t, i);
        var j :| Follows(t, i, j) && t[j].start == t[i].end.value + 1;
        assert Follows(u, i, j);
      }
    }
  }

  /** Replacing an open row keeps the table valid and changes no past and no other holder. */
  lemma SupersedeKeepsValid(t: Table, height: int, x: nat, amount: nat, block: Height, receiver: Option<Address>)
    requires Valid(t, height) && block >= height && x < |t| && t[x].IsOpen()
    ensures
      var u := Supersede(t, x, amount, block, receiver);
      && Valid(u, block) && AgreeBelow(t, u, block)
      && forall k :: Owned(u, k) == if k == t[x].HeldBy() then amount else Owned(t, k)
  {
    SupersedeIsOrdered(t, height, x, amount, block, receiver);
    SupersedeRows(t, x, amount, block, receiver);
    SupersedeIsNumbered(t, x, amount, block, receiver);
    SupersedeIsChained(t, height, x, amount, block, receiver);
    var u := Supersede(t, x, amount, block, receiver);
    forall k ensures Owned(u, k) == if k == t[x].HeldBy() then amount else Owned(t, k) {
      SupersedeOwned(t, height, x, amount, block, receiver, k);
    }
  }

  lemma SupersedeIsOrdered(t: Table, height: int, x: nat, amount: nat, block: Height, receiver: Option<Address>)
    requires Ordered(t, height) && block >= height && x < |t|
    ensures Ordered(Supersede(t, x, amount, block, receiver), block)
  {
    var u := Supersede(t, x, amount, block, receiver);
    forall i, j | 0 <= i < j < |u| ensures StartsInOrder(u, i, j) {
      assert j < |t| ==> StartsInOrder(t, i, j);
    }
  }

  lemma SupersedeRows(t: Table, x: nat, amount: nat, block: Height, receiver: Option<Address>)
    requires Clean(t) && x < |t| && t[x].IsOpen()
    ensures Clean(Supersede(t, x, amount, block, receiver))
    ensures AgreeBelow(t, Supersede(t, x, amount, block, receiver), block)
  {
    hide MaxIndexId, Print, Canonical, Tracked;
    PrintThenRead(amount);
    assert SameBelow(t[x], ClosedRow(t[x], amount == 0, block, receiver), block);
  }

  lemma SupersedeOwned(t: Table, height: int, x: nat, amount: nat, block: Height, receiver: Option<Address>, k: Holder)
    requires Valid(t, height) && x < |t| && t[x].IsOpen()
    ensures Owned(Supersede(t, x, amount, block, receiver), k) == if k == t[x].HeldBy() then amount else Owned(t, k)
  {
    hide MaxIndexId, Print, Tracked;
    var u := Supersede(t, x, amount, block, receiver);
    PrintThenRead(amount);
    LookupFindsOpenRow(t, height, k);
    forall y | 0 <= y < |t| && y != x ensures OpenAt(u, y, k) <==> OpenAt(t, y, k) {
    }
    if k == t[x].HeldBy() {
      assert OpenAt(t, x, k);
      assert amount != 0 ==> OpenAt(u, |t|, k);
    } else {
      assert HasOpen(t, k) ==> OpenAt(u, OpenIndex(t, k), k);
      assert HasOpen(u, k) ==> OpenAt(t, OpenIndex(u, k), k);
    }
  }

  lemma OpeningIsChained(t: Table, height: int, holder: Holder, amount: nat, block: Height)
    requires Valid(t, height) && block >= height
    requires forall x :: !OpenAt(t, x, holder)
    ensures Chained(t + [NewRow(t, holder, amount, block)])
  {
    var u := t + [NewRow(t, holder, amount, block)];
    forall i | 0 <= i < |u| && u[i].end.Some? && !u[i].terminated
      ensures Continued(u, i)
    {
      assert Continued(t, i);
      var j :| Follows(t, i, j) && t[j].start == t[i].end.value + 1;
      assert Follows(u, i, j);
    }
    forall i, j | 0 <= i < j < |u| ensures Apart(u, i, j) {
      if j < |t| { assert Apart(t, i, j); } else { assert !OpenAt(t, i, holder); }
    }
  }

  lemma OpeningIsOrdered(t: Table, height: int, r: Row, block: Height)
    requires Ordered(t, height) && block >= height && r.start == block && r.IsOpen()
    ensures Ordered(t + [r], block)
  {
    forall i, j | 0 <= i < j < |t + [r]| ensures StartsInOrder(t + [r], i, j) {
      assert j < |t| ==> StartsInOrder(t, i, j);
    }
  }

  lemma OpeningOwned(t: Table, height: int, holder: Holder, amount: nat, block: Height, k: Holder)
    requires Valid(t, height)
    requires forall x :: !OpenAt(t, x, holder)
    ensures Owned(t + [NewRow(t, holder, amount, block)], k) == if k == holder then amount else Owned(t, k)
  {
    var u := t + [NewRow(t, holder, amount, block)];
    PrintThenRead(amount);
    LookupFindsOpenRow(t, height, k);
    forall y | 0 <= y < |t| ensures OpenAt(u, y, k) <==> OpenAt(t, y, k) {
    }
    if k == holder {
      assert OpenAt(u, |t|, k);
    } else {
      assert HasOpen(t, k) ==> OpenAt(u, OpenIndex(t, k), k);
      assert HasOpen(u, k) ==> OpenAt(t, OpenIndex(u, k), k);
    }
  }

  /** Opening a row for a holder without one keeps the table valid and changes no past and no other holder. */
  lemma OpeningKeepsValid(t: Table, height: int, holder: Holder, amount: nat, block: Height)
    requires Valid(t, height) && block >= height && Tracked(holder.owner)
    requires forall x :: !OpenAt(t, x, holder)
    ensures
      var u := t + [NewRow(t, holder, amount, block)];
      && Valid(u, block) && AgreeBelow(t, u, block)
      && forall k :: Owned(u, k) == if k == holder then amount else Owned(t, k)
  {
    PrintThenRead(amount);
    AppendIsNumbered(t, NewRow(t, holder, amount, block));
    OpeningIsChained(t, height, holder, amount, block);
    OpeningIsOrdered(t, height, NewRow(t, holder, amount, block), block);
    forall k ensures Owned(t + [NewRow(t, holder, amount, block)], k) == if k == holder then amount else Owned(t, k) {
      OpeningOwned(t, height, holder, amount, block, k);
    }
  }

  lemma CreditKeepsValid(t: Table, height: int, holder: Holder, amount: nat, block: Height)
    requires Valid(t, height) && block >= height && Tracked(holder.owner)
    ensures
      var u := Credit(t, holder, amount, block);
      && Valid(u, block) && AgreeBelow(t, u, block)
      && forall k :: Owned(u, k) == Owned(t, k) + if k == holder then amount else 0
  {
    LookupFindsOpenRow(t, height, holder);
    if HasOpen(t, holder) {
      SupersedeKeepsValid(t, height, OpenIndex(t, holder), Owned(t, holder) + amount, block, None);
    } else {
      OpeningKeepsValid(t, height, holder, amount, block);
    }
  }

  lemma DebitKeepsValid(t: Table, height: int, holder: Holder, amount: nat, block: Height, receiver: Option<Address>)
    requires Valid(t, height) && block >= height
    ensures
      var u := Debit(t, holder, amount, block, receiver);
      && Valid(u, block) && AgreeBelow(t, u, block)
      && forall k :: Owned(u, k) == if k == holder then Monus(Owned(t, k), amount) else Owned(t, k)
  {
    LookupFindsOpenRow(t, height, holder);
    if HasOpen(t, holder) {
      SupersedeKeepsValid(t, height, OpenIndex(t, holder), Monus(Owned(t, holder), amount), block, receiver);
    }
  }
}
