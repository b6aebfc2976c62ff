/** Vocabulary shared by every component: addresses, decoded vault logs and their order. */
module Chain {

  datatype Option<+T> = None | Some(value: T)

  /** Every error that can stop the processing of one event. */
  datatype Error =
    | PositionNotFound   // a transfer whose sender has no live position
    | BadCurrentAmount   // the stored amount is not a decimal integer
    | BadNewAmount       // the event amount is not a decimal integer
    | BadWithdrawId      // the withdraw id does not fit a signed 64-bit integer
    | DuplicateRequest   // the vault already has a withdraw request with the id
    | DuplicateRate      // the vault already has a rate for the block

  datatype Result<+T> = Ok(value: T) | Err(error: Error)

  type Address = string

  const ZERO_ADDRESS: Address := "0x0000000000000000000000000000000000000000"

  predicate IsHexDigit(c: char) {
    '0' <= c <= '9' || 'a' <= c <= 'f' || 'A' <= c <= 'F'
  }

  /** An optional 0x prefix, then exactly forty hexadecimal digits. */
  predicate IsHexAddress(a: Address) {
    var digits := if |a| >= 2 && a[0] == '0' && (a[1] == 'x' || a[1] == 'X') then a[2..] else a;
    |digits| == 40 && forall i :: 0 <= i < |digits| ==> IsHexDigit(digits[i])
  }

  /** The addresses whose positions the indexer looks up at all. */
  predicate Tracked(a: Address) {
    a != "" && a != ZERO_ADDRESS && IsHexAddress(a)
  }

  const INT64_LIMIT: int := 0x8000_0000_0000_0000
  const UINT64_LIMIT: int := 0x1_0000_0000_0000_0000

  /** Block numbers are stored in a signed 64-bit column. */
  type Height = h: int | 0 <= h < INT64_LIMIT

  /** A decoded vault event; share amounts are the exact on-chain integers. */
  datatype EventBody =
    | Deposit(sender: Address, owner: Address, minted: nat)
    | Transfer(from: Address, to: Address, value: nat)
    | WithdrawRequested(holder: Address, receiver: Address, shares: nat, id: nat)
    | RateUpdated(newRate: nat)
    | OtherEvent(name: string)   // any other event name

  datatype Log = Log(block: Height, index: nat, hash: string, vault: Address, body: EventBody)
  {
    /** Block number first, then log index. */
    predicate Less(other: Log) {
      if block == other.block then index < other.index else block < other.block
    }
  }

  /** Blocks never go down along the sequence; several logs may share a block. */
  ghost predicate InBlockOrder(events: seq<Log>) {
    forall i, j :: 0 <= i < j < |events| ==> events[i].block <= events[j].block
  }

  /** Each log is strictly after all earlier ones in (block, log index) order. */
  ghost predicate StrictlyIncreasing(events: seq<Log>) {
    forall i, j :: 0 <= i < j < |events| ==> events[i].Less(events[j])
  }
}
