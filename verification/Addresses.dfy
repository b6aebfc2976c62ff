/** Which texts the indexer takes for an account, and which for nobody, in terms of their characters alone. */
module Addresses {
  import opened Chain
  import opened Positions
  import opened Replay
  import opened Effects

  /** "0x" and forty zeros: the sender of a mint and the receiver of a burn. */
  function Zeros(): Address {
    "0x" + seq(40, i => '0')
  }

  predicate IsHexText(d: string) {
    forall i :: 0 <= i < |d| ==> d[i] in "0123456789abcdefABCDEF"
  }

  lemma ZeroAddressIsZeros()
    ensures ZERO_ADDRESS == Zeros()
  {
    assert |ZERO_ADDRESS| == 42 && forall i :: 2 <= i < 42 ==> ZERO_ADDRESS[i] == '0';
  }

  lemma HexDigits(c: char)
    ensures IsHexDigit(c) <==> c in "0123456789abcdefABCDEF"
  {
  }

  lemma PrefixedIsHex(prefix: string, d: string)
    requires prefix == "" || prefix == "0x" || prefix == "0X"
    requires |d| == 40 && IsHexText(d)
    ensures IsHexAddress(prefix + d)
  {
    var a := prefix + d;
    assert prefix == "" ==> a == d;
    assert prefix != "" ==> a[2..] == d && |a| == 42;
    forall i | 0 <= i < 40 ensures IsHexDigit(d[i]) && d[i] != 'x' && d[i] != 'X' {
      HexDigits(d[i]);
      assert d[i] in "0123456789abcdefABCDEF";
    }
  }

  lemma DigitsAreHex(a: Address, d: string)
    requires IsHexAddress(a)
    requires d == if |a| >= 2 && a[0] == '0' && (a[1] == 'x' || a[1] == 'X') then a[2..] else a
    ensures |d| == 40 && IsHexText(d)
  {
    forall i | 0 <= i < |d| ensures d[i] in "0123456789abcdefABCDEF" {
      assert IsHexDigit(d[i]);
      HexDigits(d[i]);
    }
  }

  /** An address is looked up exactly when it is forty hexadecimal digits, prefixed or not, and not the zero address. */
  lemma TrackedExactly(a: Address)
    ensures Tracked(a) <==>
      a != Zeros() &&
      exists prefix: string, d: string :: prefix in {"", "0x", "0X"} && |d| == 40 && IsHexText(d) && a == prefix + d
  {
    ZeroAddressIsZeros();
    if IsHexAddress(a) {
      var prefixed := |a| >= 2 && a[0] == '0' && (a[1] == 'x' || a[1] == 'X');
      var prefix, d := if prefixed then a[..2] else "", if prefixed then a[2..] else a;
      DigitsAreHex(a, d);
      assert a == prefix + d;
      assert prefixed ==> prefix == "0x" || prefix == "0X";
    }
    forall prefix: string, d: string | prefix in {"", "0x", "0X"} && |d| == 40 && IsHexText(d) && a == prefix + d
      ensures IsHexAddress(a)
    {
      PrefixedIsHex(prefix, d);
    }
  }

  /** The logs of mints and burns change no position, whatever the table and however much is executed. */
  lemma MintsAndBurnsAreIgnored(mode: Mode, t: Table, log: Log)
    requires log.body.Transfer? && (log.body.from == Zeros() || log.body.to == Zeros())
    ensures Step(mode, t, log) == Ok(t)
  {
    hide MaxIndexId, GetMostRecentPosition, AmountText, TransferOperations, UpdateAll;
    ZeroAddressIsZeros();
    assert t + InsertedRows([]) == t;
    NoUpdates(t);
  }

  /**
    Between accounts with some digit that is not zero, a transfer log is a transfer, and both ends can be looked up.
  */
  lemma OtherTransfersAreReal(log: Log, from: string, to: string, i: nat, j: nat)
    requires log.body.Transfer? && log.body.from == "0x" + from && log.body.to == "0x" + to
    requires |from| == 40 && IsHexText(from) && i < 40 && from[i] != '0'
    requires |to| == 40 && IsHexText(to) && j < 40 && to[j] != '0'
    ensures IsRealTransfer(log) && Tracked(log.body.from) && Tracked(log.body.to)
  {
    ZeroAddressIsZeros();
    PrefixedIsHex("0x", from);
    PrefixedIsHex("0x", to);
    assert log.body.from[2 + i] != Zeros()[2 + i] && log.body.to[2 + j] != Zeros()[2 + j];
  }
}
