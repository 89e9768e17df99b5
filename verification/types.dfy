/** Shared records of the trading bot (src/utils/types.ts) and the small
    wrappers used to turn JavaScript's `null` and exceptions into values. */
module Types {

  /** A JavaScript value that may be `null` (or `undefined`). */
  datatype Option<+T> = None | Some(value: T) {
    /** The value, or `d` when absent: what `x || d` yields for a
        present non-falsy `x`. */
    function GetOr(d: T): T {
      match this
      case Some(v) => v
      case None => d
    }
  }

  /** How one call into the network (RPC node or swap API) ends: it
      either throws or hands back a value. */
  datatype Reply<+T> = Raised | Ok(value: T)

  /** How one awaited call into the bot's own async code ends within the
      modelled window: it throws, it never settles, or it returns. */
  datatype Async<+T> = Threw | Waiting | Returned(value: T)

  type Address = string
  type Txid = string

  /** A byte of a serialized transaction; payloads are opaque. */
  newtype byte = x: int | 0 <= x < 256
  type Bytes = seq<byte>

  /** The wrapped-SOL mint address the bot uses for the native asset. */
  const SolMint: Address := "So11111111111111111111111111111111111111112"

  /** Decimal places of SOL: 1 SOL = 10^9 lamports. */
  const SolDecimals: nat := 9

  function Pow10(n: nat): (r: nat)
    ensures r >= 1
  {
    if n == 0 then 1 else 10 * Pow10(n - 1)
  }

  /** A token offered for purchase (types.ts `Token`); only the fields
      the swap code reads are kept. */
  datatype Token = Token(
    address: Address,
    name: string,
    symbol: string,
    decimals: nat,
    price: real)

  /** An open position (types.ts `HoldingEntry`). */
  datatype HoldingEntry = HoldingEntry(
    address: Address,
    name: string,
    symbol: string,
    currentPrice: real,
    buyPrice: real,
    amount: real,
    buySolAmount: real,
    buyTime: int,
    gain: real,
    decimals: nat,
    processing: bool)

  /** A closed position (types.ts `HistoryEntry`). */
  datatype HistoryEntry = HistoryEntry(
    address: Address,
    name: string,
    buyPrice: real,
    buySolAmount: real,
    amount: real,
    buyTime: int,
    sellPrice: real,
    sellSolAmount: real,
    sellTime: int,
    gain: real,
    decimals: nat)
}
