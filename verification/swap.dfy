/** The swap pipeline (src/utils/swap.ts): quote, build, sign, simulate,
    submit, check, resolve the realized amount, and build the position
    record.  Every call into the quote/swap API and the RPC node is an input
    carried by `Network`. */
module Swap {
  import opened Types
  import opened Ledger
  import TxCheck
  import Sender

  /** 1 SOL in lamports, as the divisor/multiplier `10 ** 9`. */
  const LamportsPerSol: real := Pow10(SolDecimals) as real

  /** `slippage * 100`: percent to basis points. */
  const BpsPerPercent: real := 100.0

  /** The priority fee settings `getSwapResponse` always sends. */
  const MaxPriorityLamports: nat := 10000
  const PriorityLevel: string := "veryHigh"

  // ---------------------------------------------------------------------
  // Requests and replies of the quote/swap API

  /** The arguments of `quoteGet`. */
  datatype QuoteRequest = QuoteRequest(
    inputMint: Address,
    outputMint: Address,
    amount: real,
    slippageBps: real)

  /** A quote; its fields only feed log lines. */
  datatype Quote = Quote(inputMint: Address, outputMint: Address, outAmount: nat)

  /** The body of `swapPost`. */
  datatype SwapRequest = SwapRequest(
    quote: Quote,
    userPublicKey: Address,
    maxLamports: nat,
    priorityLevel: string)

  /** A built, unsigned swap transaction (base64 in the source) and its
      expiry height. */
  datatype SwapResponse = SwapResponse(swapTransaction: Bytes, lastValidBlockHeight: nat)

  /** The deserialized transaction after signing: its serialized bytes and
      the blockhash its message refers to. */
  datatype SignedTx = SignedTx(serialized: Bytes, recentBlockhash: string)

  /** The part of `simulateTransaction`'s reply that is read. */
  datatype SimulationResult = SimulationResult(err: Option<TxError>, logs: Option<seq<string>>)

  datatype Wallet = Wallet(publicKey: Address)

  /** Every reply the pipeline receives, as inputs.
      - `quote`: `getQuote`'s result for a request (null also when
        `quoteGet` throws, since `getQuote` catches);
      - `swap`: `swapPost`'s reply (a rejection escapes `getSwapResponse`
        and reaches the caller's `catch`);
      - `sign`: deserializing and signing the transaction;
      - `simulate`: `simulateTransaction`;
      - `submission`: the network during the sender's run;
      - `checkFetch`: the replies `checkTxSuccess` fetches, in order;
      - `amountFetch`: the reply `getActualAmount` fetches;
      - `now`: `new Date().getTime()` when the record is built. */
  datatype Network = Network(
    quote: QuoteRequest -> Option<Quote>,
    swap: SwapRequest -> Reply<SwapResponse>,
    sign: SwapResponse -> Reply<SignedTx>,
    simulate: SignedTx -> Reply<SimulationResult>,
    submission: Sender.SubmissionEnv,
    checkFetch: nat -> FetchReply,
    amountFetch: FetchReply,
    now: int)

  /** `getSwapResponse`'s request for a quote. */
  function SwapRequestFor(q: Quote, wallet: Wallet): SwapRequest {
    SwapRequest(q, wallet.publicKey, MaxPriorityLamports, PriorityLevel)
  }

  // ---------------------------------------------------------------------
  // getActualAmount

  predicate Matches(b: TokenBalance, mint: Address, owner: Address) {
    b.mint == mint && b.owner == owner
  }

  /** The index where the linear search stops: the first entry matching
      both mint and owner. */
  function FirstMatch(l: seq<TokenBalance>, mint: Address, owner: Address): (r: Option<nat>)
    ensures r.Some? ==>
      r.value < |l| && Matches(l[r.value], mint, owner) &&
      forall j :: 0 <= j < r.value ==> !Matches(l[j], mint, owner)
    ensures r.None? ==> forall j :: 0 <= j < |l| ==> !Matches(l[j], mint, owner)
  {
    if l == [] then None
    else if Matches(l[0], mint, owner) then Some(0)
    else
      var rest := FirstMatch(l[1..], mint, owner);
      if rest.None? then None else Some(rest.value + 1)
  }

  /** Reference reading of one side of the delta: the `uiAmount` of the
      first matching entry (0 when null), or 0 when nothing matches. */
  ghost predicate IsFirstMatchAmount(l: seq<TokenBalance>, mint: Address, owner: Address, a: real) {
    (exists i :: 0 <= i < |l| && Matches(l[i], mint, owner) &&
       (forall j :: 0 <= j < i ==> !Matches(l[j], mint, owner)) &&
       a == l[i].uiAmount.GetOr(0.0)) ||
    ((forall j :: 0 <= j < |l| ==> !Matches(l[j], mint, owner)) && a == 0.0)
  }

  /** One side of the token delta, with a missing list read as empty. */
  function SideAmount(list: Option<seq<TokenBalance>>, mint: Address, owner: Address): (a: real)
    ensures IsFirstMatchAmount(list.GetOr([]), mint, owner, a)
  {
    var l := list.GetOr([]);
    var i := FirstMatch(l, mint, owner);
    if i.None? then 0.0 else l[i.value].uiAmount.GetOr(0.0)
  }

  /** `balances?.[0] || 0`. */
  function FirstOrZero(balances: seq<int>): int {
    if |balances| == 0 then 0 else balances[0]
  }

  /** `getActualAmount`: the realized change of `tokenAddress` held by
      `walletAddress` in the fetched transaction, in UI units. */
  function GetActualAmount(reply: FetchReply, tokenAddress: Address, walletAddress: Address): (r: real)
    ensures reply.Raised? ==> r == 0.0
    ensures reply.Ok? && !HasMeta(reply) ==> r == 0.0
    ensures HasMeta(reply) && tokenAddress == SolMint ==>
      var m := reply.value.value.meta.value;
      r * LamportsPerSol == (FirstOrZero(m.postBalances) - FirstOrZero(m.preBalances)) as real
    ensures HasMeta(reply) && tokenAddress != SolMint ==>
      var m := reply.value.value.meta.value;
      exists pre: real, post: real ::
        IsFirstMatchAmount(m.preTokenBalances.GetOr([]), tokenAddress, walletAddress, pre) &&
        IsFirstMatchAmount(m.postTokenBalances.GetOr([]), tokenAddress, walletAddress, post) &&
        r == post - pre
  {
    match reply
    case Raised => 0.0      // caught: the amount degrades to 0
    case Ok(tx) =>
      var meta := if tx.Some? then tx.value.meta else None;
      var pre := if meta.Some? then meta.value.preTokenBalances else None;
      var post := if meta.Some? then meta.value.postTokenBalances else None;
      if tokenAddress == SolMint then
        var preLamports := if meta.Some? then FirstOrZero(meta.value.preBalances) else 0;
        var postLamports := if meta.Some? then FirstOrZero(meta.value.postBalances) else 0;
        (postLamports - preLamports) as real / LamportsPerSol
      else
        var a := SideAmount(post, tokenAddress, walletAddress) - SideAmount(pre, tokenAddress, walletAddress);
        assert IsFirstMatchAmount(post.GetOr([]), tokenAddress, walletAddress, SideAmount(post, tokenAddress, walletAddress));
        a
  }

  /** The first-match rule: once an entry matches, entries after it (even
      other matches) do not change that side's amount. */
  lemma {:induction false} LaterEntriesIgnored(l: seq<TokenBalance>, extra: seq<TokenBalance>, mint: Address, owner: Address)
    requires FirstMatch(l, mint, owner).Some?
    ensures FirstMatch(l + extra, mint, owner) == FirstMatch(l, mint, owner)
    ensures SideAmount(Some(l + extra), mint, owner) == SideAmount(Some(l), mint, owner)
  {
    assert (l + extra)[0] == l[0];
    if !Matches(l[0], mint, owner) {
      assert (l + extra)[1..] == l[1..] + extra;
      LaterEntriesIgnored(l[1..], extra, mint, owner);
    }
    var i := FirstMatch(l, mint, owner).value;
    assert (l + extra)[i] == l[i];
  }

  /** Entries for other mints or other owners in front of the list only
      shift the position of the match. */
  lemma {:induction false} FirstMatchSkipsOthers(other: seq<TokenBalance>, l: seq<TokenBalance>, mint: Address, owner: Address)
    requires forall j :: 0 <= j < |other| ==> !Matches(other[j], mint, owner)
    ensures FirstMatch(other + l, mint, owner) ==
      if FirstMatch(l, mint, owner).Some? then Some(|other| + FirstMatch(l, mint, owner).value) else None
    decreases |other|
  {
    if other == [] {
      assert other + l == l;
    } else {
      assert (other + l)[0] == other[0];
      assert (other + l)[1..] == other[1..] + l;
      FirstMatchSkipsOthers(other[1..], l, mint, owner);
    }
  }

  /** ... so they do not change that side's amount. */
  lemma OtherEntriesSkipped(other: seq<TokenBalance>, l: seq<TokenBalance>, mint: Address, owner: Address)
    requires forall j :: 0 <= j < |other| ==> !Matches(other[j], mint, owner)
    ensures SideAmount(Some(other + l), mint, owner) == SideAmount(Some(l), mint, owner)
  {
    FirstMatchSkipsOthers(other, l, mint, owner);
    var k := FirstMatch(l, mint, owner);
    if k.Some? {
      assert (other + l)[|other| + k.value] == l[k.value];
    }
  }

  /** Worked example: the wallet held 100 tokens before and 150 after, and
      another owner's entry for the same mint is listed first. */
  lemma TokenDeltaExample(mint: Address, wallet: Address, other: Address)
    requires mint != SolMint && other != wallet
    ensures
      var pre := [TokenBalance(mint, other, Some(7.0)), TokenBalance(mint, wallet, Some(100.0))];
      var post := [TokenBalance(mint, wallet, Some(150.0))];
      GetActualAmount(Ok(Some(ParsedTx(Some(TxMeta(None, [], [], Some(pre), Some(post)))))), mint, wallet) == 50.0
  {
    var pre := [TokenBalance(mint, other, Some(7.0)), TokenBalance(mint, wallet, Some(100.0))];
    assert FirstMatch(pre[1..], mint, wallet) == Some(0);
  }

  /** Worked example: with no matching post entry the post side is 0. */
  lemma MissingPostEntryExample(mint: Address, wallet: Address)
    requires mint != SolMint
    ensures
      var pre := [TokenBalance(mint, wallet, Some(100.0))];
      GetActualAmount(Ok(Some(ParsedTx(Some(TxMeta(None, [], [], Some(pre), None))))), mint, wallet) == -100.0
  {
  }

  // ---------------------------------------------------------------------
  // sendAndConfirmTransaction

  /** What `sendAndConfirmTransaction` does: its result, every broadcast it
      made, and how many fetches its success check made. */
  datatype SendConfirmRun = SendConfirmRun(
    result: Async<Option<Txid>>,
    broadcasts: seq<Sender.SendCall>,
    checkFetches: nat)

  /** The stages before submission succeed: the transaction is signed and
      its simulation reports no error. */
  predicate PassesSimulation(resp: SwapResponse, net: Network) {
    net.sign(resp).Ok? && net.simulate(net.sign(resp).value).Ok? &&
    net.simulate(net.sign(resp).value).value.err.None?
  }

  function SendAndConfirm(resp: SwapResponse, net: Network): (r: SendConfirmRun)
    // nothing is broadcast unless signing and simulation pass
    ensures !PassesSimulation(resp, net) ==> r.broadcasts == [] && r.checkFetches == 0
    ensures (net.sign(resp).Ok? && net.simulate(net.sign(resp).value).Ok? &&
             net.simulate(net.sign(resp).value).value.err.Some?) ==>
      r.result == Returned(None)
    ensures PassesSimulation(resp, net) ==>
      1 <= |r.broadcasts| &&
      forall i :: 0 <= i < |r.broadcasts| ==>
        r.broadcasts[i] == Sender.SendCall(net.sign(resp).value.serialized, Sender.SendOpts)
    // a signature comes back unchanged, and only if the check confirmed it
    ensures r.result.Returned? && r.result.value.Some? ==>
      PassesSimulation(resp, net) &&
      net.submission.initial == Ok(r.result.value.value) && r.result.value.value != "" &&
      TxCheck.CheckTxSuccess(TxCheck.DefaultMaxRetries, net.checkFetch).success
    ensures (PassesSimulation(resp, net) &&
             Sender.Submit(net.sign(resp).value.serialized, net.submission).result == Returned(None)) ==>
      r.result == Returned(None) && r.checkFetches == 0
    ensures (PassesSimulation(resp, net) &&
             net.submission.initial.Ok? && net.submission.initial.value != "" &&
             Sender.Submit(net.sign(resp).value.serialized, net.submission).result ==
               Returned(Some(net.submission.initial.value))) ==>
      r.checkFetches == TxCheck.CheckTxSuccess(TxCheck.DefaultMaxRetries, net.checkFetch).fetches &&
      (r.result.Returned? && r.result.value.Some? <==> TxCheck.CheckTxSuccess(TxCheck.DefaultMaxRetries, net.checkFetch).success)
  {
    match net.sign(resp)
    case Raised => SendConfirmRun(Threw, [], 0)
    case Ok(tx) =>
      match net.simulate(tx)
      case Raised => SendConfirmRun(Threw, [], 0)
      case Ok(sim) =>
        if sim.err.Some? then SendConfirmRun(Returned(None), [], 0)
        else
          var sub := Sender.Submit(tx.serialized, net.submission);
          if !sub.result.Returned? then SendConfirmRun(sub.result, sub.broadcasts, 0)
          else if sub.result.value.None? || sub.result.value.value == "" then
            SendConfirmRun(Returned(None), sub.broadcasts, 0)
          else
            var check := TxCheck.CheckTxSuccess(TxCheck.DefaultMaxRetries, net.checkFetch);
            SendConfirmRun(if check.success then sub.result else Returned(None),
                           sub.broadcasts, check.fetches)
  }

  // ---------------------------------------------------------------------
  // buyToken and sellToken

  /** `buyToken`: swap `buyAmount` SOL for the token and open a holding. */
  function BuyToken(token: Token, buyAmount: real, slippage: real, net: Network, wallet: Wallet): (r: Async<Option<HoldingEntry>>)
    ensures !r.Threw?
    // the quote asks for buyAmount SOL in lamports, slippage in basis points
    ensures net.quote(QuoteRequest(SolMint, token.address, buyAmount * LamportsPerSol, slippage * BpsPerPercent)).None? ==>
      r == Returned(None)
    ensures r.Returned? && r.value.Some? <==>
      var q := net.quote(QuoteRequest(SolMint, token.address, buyAmount * LamportsPerSol, slippage * BpsPerPercent));
      q.Some? && net.swap(SwapRequestFor(q.value, wallet)).Ok? &&
      SendAndConfirm(net.swap(SwapRequestFor(q.value, wallet)).value, net).result.Returned? &&
      SendAndConfirm(net.swap(SwapRequestFor(q.value, wallet)).value, net).result.value.Some?
    ensures r.Returned? && r.value.Some? ==>
      var h := r.value.value;
      h.address == token.address && h.name == token.name && h.symbol == token.symbol &&
      h.decimals == token.decimals &&
      h.buyPrice == token.price && h.currentPrice == token.price &&
      h.amount == GetActualAmount(net.amountFetch, token.address, wallet.publicKey) &&
      h.buySolAmount == buyAmount && h.buyTime == net.now &&
      h.gain == 0.0 && !h.processing
  {
    var q := net.quote(QuoteRequest(SolMint, token.address, buyAmount * LamportsPerSol, slippage * BpsPerPercent));
    if q.None? then Returned(None)
    else
      match net.swap(SwapRequestFor(q.value, wallet))
      case Raised => Returned(None)          // caught by the outer `catch`
      case Ok(resp) =>
        match SendAndConfirm(resp, net).result
        case Threw => Returned(None)         // caught by the outer `catch`
        case Waiting => Waiting
        case Returned(None) => Returned(None)
        case Returned(Some(_)) =>
          var actual := GetActualAmount(net.amountFetch, token.address, wallet.publicKey);
          Returned(Some(HoldingEntry(
            token.address, token.name, token.symbol,
            token.price, token.price, actual, buyAmount, net.now, 0.0, token.decimals, false)))
  }

  /** `Math.floor(amount * 10 ** decimals)`: the held amount in whole base
      units, rounded down. */
  function SellBaseUnits(amount: real, decimals: nat): (n: int)
    ensures n as real <= amount * Pow10(decimals) as real < n as real + 1.0
    ensures amount >= 0.0 ==> n >= 0
  {
    (amount * Pow10(decimals) as real).Floor
  }

  /** An amount that is a whole number of base units is quoted exactly. */
  lemma SellBaseUnitsExact(n: int, decimals: nat)
    ensures SellBaseUnits(n as real / Pow10(decimals) as real, decimals) == n
  {
  }

  /** Worked example: 1.23456789 tokens with 6 decimals are quoted as
      1234567 base units, never rounded up. */
  lemma SellRoundingExample()
    ensures SellBaseUnits(1.23456789, 6) == 1234567
  {
  }

  /** `sellToken`: swap the whole holding back to SOL and close it into a
      history entry. */
  function SellToken(holding: HoldingEntry, slippage: real, net: Network, wallet: Wallet): (r: Async<Option<HistoryEntry>>)
    ensures !r.Threw?
    // the quote asks for the floored base-unit amount, slippage in basis points
    ensures net.quote(QuoteRequest(holding.address, SolMint,
                                   SellBaseUnits(holding.amount, holding.decimals) as real,
                                   slippage * BpsPerPercent)).None? ==>
      r == Returned(None)
    ensures r.Returned? && r.value.Some? <==>
      var q := net.quote(QuoteRequest(holding.address, SolMint,
                                      SellBaseUnits(holding.amount, holding.decimals) as real,
                                      slippage * BpsPerPercent));
      q.Some? && net.swap(SwapRequestFor(q.value, wallet)).Ok? &&
      SendAndConfirm(net.swap(SwapRequestFor(q.value, wallet)).value, net).result.Returned? &&
      SendAndConfirm(net.swap(SwapRequestFor(q.value, wallet)).value, net).result.value.Some?
    ensures r.Returned? && r.value.Some? ==>
      var e := r.value.value;
      e.address == holding.address && e.name == holding.name &&
      e.buyPrice == holding.buyPrice && e.buySolAmount == holding.buySolAmount &&
      e.buyTime == holding.buyTime && e.amount == holding.amount &&
      e.gain == holding.gain && e.decimals == holding.decimals &&
      e.sellPrice == holding.currentPrice &&
      e.sellSolAmount == GetActualAmount(net.amountFetch, SolMint, wallet.publicKey) &&
      e.sellTime == net.now
  {
    var rounded := SellBaseUnits(holding.amount, holding.decimals);
    var q := net.quote(QuoteRequest(holding.address, SolMint, rounded as real, slippage * BpsPerPercent));
    if q.None? then Returned(None)
    else
      match net.swap(SwapRequestFor(q.value, wallet))
      case Raised => Returned(None)
      case Ok(resp) =>
        match SendAndConfirm(resp, net).result
        case Threw => Returned(None)
        case Waiting => Waiting
        case Returned(None) => Returned(None)
        case Returned(Some(_)) =>
          var actual := GetActualAmount(net.amountFetch, SolMint, wallet.publicKey);
          Returned(Some(HistoryEntry(
            holding.address, holding.name, holding.buyPrice, holding.buySolAmount,
            holding.amount, holding.buyTime, holding.currentPrice, actual, net.now,
            holding.gain, holding.decimals)))
  }

  /** Selling a fresh holding right after buying it closes a position whose
      entry data is the buy's: price, SOL spent, resolved amount, and no gain. */
  lemma BuyThenSell(token: Token, buyAmount: real, slippage: real, buyNet: Network, wallet: Wallet,
                    h: HoldingEntry, sellSlippage: real, sellNet: Network, e: HistoryEntry)
    ensures BuyToken(token, buyAmount, slippage, buyNet, wallet) == Returned(Some(h)) &&
            SellToken(h, sellSlippage, sellNet, wallet) == Returned(Some(e)) ==>
      e.address == token.address && e.name == token.name && e.decimals == token.decimals &&
      e.buyPrice == token.price && e.sellPrice == token.price && e.gain == 0.0 &&
      e.buySolAmount == buyAmount && e.buyTime == buyNet.now &&
      e.amount == GetActualAmount(buyNet.amountFetch, token.address, wallet.publicKey)
  {
  }
}
