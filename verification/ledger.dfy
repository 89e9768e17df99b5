/** The shapes of the RPC node's replies that the bot inspects.  The node
    itself is not modelled: each fetch is an input value. */
module Ledger {
  import opened Types

  /** One entry of a transaction's pre- or post-token-balance list. */
  datatype TokenBalance = TokenBalance(
    mint: Address,
    owner: Address,
    uiAmount: Option<real>)   // `uiTokenAmount.uiAmount`, a number or null

  /** The transaction's failure description; its contents are never read. */
  type TxError = string

  /** `meta` of a parsed, finalized transaction. */
  datatype TxMeta = TxMeta(
    err: Option<TxError>,
    preBalances: seq<int>,    // lamports per account, account 0 first
    postBalances: seq<int>,
    preTokenBalances: Option<seq<TokenBalance>>,
    postTokenBalances: Option<seq<TokenBalance>>)

  datatype ParsedTx = ParsedTx(meta: Option<TxMeta>)

  /** The outcome of one `getParsedTransaction` call: it throws, or
      returns a transaction or null. */
  type FetchReply = Reply<Option<ParsedTx>>

  /** The reply carries a transaction with meta, so it settles whether
      the transaction succeeded. */
  predicate HasMeta(f: FetchReply) {
    f.Ok? && f.value.Some? && f.value.value.meta.Some?
  }

  /** The reply shows a transaction whose meta reports no error. */
  predicate ShowsSuccess(f: FetchReply) {
    HasMeta(f) && f.value.value.meta.value.err.None?
  }
}
