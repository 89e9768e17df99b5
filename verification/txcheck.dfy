/** `checkTxSuccess` (src/utils/utils.ts): poll for the finalized
    transaction up to `maxRetries` times and classify it.  The k-th fetch's
    reply is `fetch(k)`; the sleep between attempts is not modelled. */
module TxCheck {
  import opened Ledger

  /** The retry bound `swap.ts` relies on (the parameter's default). */
  const DefaultMaxRetries: int := 10

  /** The result of one check: the verdict and how many fetches it made. */
  datatype CheckRun = CheckRun(success: bool, fetches: nat)

  /** A reply that makes the loop sleep and try again: no exception,
      and no transaction with meta yet. */
  predicate Pending(f: FetchReply) {
    f.Ok? && !HasMeta(f)
  }

  /** How many attempts the `for` loop allows. */
  function Limit(maxRetries: int): nat {
    if maxRetries <= 0 then 0 else maxRetries
  }

  /** Attempts `attempt`, `attempt + 1`, ... of the loop. */
  function CheckFrom(attempt: nat, maxRetries: int, fetch: nat -> FetchReply): (r: CheckRun)
    requires attempt <= Limit(maxRetries)
    ensures attempt <= r.fetches <= Limit(maxRetries)
    ensures forall j :: attempt <= j < r.fetches - 1 ==> Pending(fetch(j))
    ensures r.fetches < Limit(maxRetries) ==> attempt < r.fetches && !Pending(fetch(r.fetches - 1))
    ensures r.success <==> attempt < r.fetches && ShowsSuccess(fetch(r.fetches - 1))
    decreases Limit(maxRetries) - attempt
  {
    if attempt == Limit(maxRetries) then CheckRun(false, attempt)
    else
      var reply := fetch(attempt);
      if reply.Raised? then CheckRun(false, attempt + 1)      // caught: false
      else if ShowsSuccess(reply) then CheckRun(true, attempt + 1)
      else if HasMeta(reply) then CheckRun(false, attempt + 1)
      else CheckFrom(attempt + 1, maxRetries, fetch)
  }

  /** The whole check.  It stops at the first reply that throws or carries
      meta, never fetches more than `maxRetries` times, and succeeds exactly
      when the reply it stopped on shows a transaction without error. */
  function CheckTxSuccess(maxRetries: int, fetch: nat -> FetchReply): (r: CheckRun)
    ensures r.fetches <= Limit(maxRetries)
    ensures forall j :: 0 <= j < r.fetches - 1 ==> Pending(fetch(j))
    ensures r.fetches < Limit(maxRetries) ==> 0 < r.fetches && !Pending(fetch(r.fetches - 1))
    ensures r.success <==> 0 < r.fetches && ShowsSuccess(fetch(r.fetches - 1))
  {
    CheckFrom(0, maxRetries, fetch)
  }

  /** Reference reading of the classifier: success exactly when, within the
      retry bound, some reply shows success and every earlier reply was one
      that made the loop try again. */
  ghost predicate FirstDecisiveSucceeds(maxRetries: int, fetch: nat -> FetchReply) {
    exists k :: 0 <= k < Limit(maxRetries) && ShowsSuccess(fetch(k)) &&
      forall j :: 0 <= j < k ==> Pending(fetch(j))
  }

  lemma CheckTxSuccessMatchesReference(maxRetries: int, fetch: nat -> FetchReply)
    ensures CheckTxSuccess(maxRetries, fetch).success <==> FirstDecisiveSucceeds(maxRetries, fetch)
  {
  }

  /** A failed transaction (meta with a non-null error) ends the check with
      false at once: no further fetch is made. */
  lemma FailedTxStopsWithFalse(maxRetries: int, fetch: nat -> FetchReply, k: nat)
    requires k < Limit(maxRetries)
    requires HasMeta(fetch(k)) && !ShowsSuccess(fetch(k))
    requires forall j :: 0 <= j < k ==> Pending(fetch(j))
    ensures CheckTxSuccess(maxRetries, fetch) == CheckRun(false, k + 1)
  {
  }

  /** An exception from a fetch is caught and the check reports false. */
  lemma ThrowingFetchGivesFalse(maxRetries: int, fetch: nat -> FetchReply, k: nat)
    requires k < Limit(maxRetries)
    requires fetch(k).Raised?
    requires forall j :: 0 <= j < k ==> Pending(fetch(j))
    ensures CheckTxSuccess(maxRetries, fetch) == CheckRun(false, k + 1)
  {
  }

  /** The check stops on the first reply that is not `Pending`. */
  lemma StopsAtFirstDecisive(maxRetries: int, fetch: nat -> FetchReply, k: nat)
    requires k < Limit(maxRetries)
    requires !Pending(fetch(k))
    requires forall j :: 0 <= j < k ==> Pending(fetch(j))
    ensures CheckTxSuccess(maxRetries, fetch).fetches == k + 1
  {
  }

  /** If no reply within the bound throws or carries meta, the check makes
      exactly `maxRetries` fetches and reports false ("couldn't find"). */
  lemma NotFoundGivesFalse(maxRetries: int, fetch: nat -> FetchReply)
    requires forall j :: 0 <= j < Limit(maxRetries) ==> Pending(fetch(j))
    ensures CheckTxSuccess(maxRetries, fetch) == CheckRun(false, Limit(maxRetries))
  {
  }

  /** Only the replies the check actually fetched matter: two fetch
      sequences that agree on them give the same run. */
  lemma CheckFromPrefixDetermines(attempt: nat, maxRetries: int, f: nat -> FetchReply, g: nat -> FetchReply)
    requires attempt <= Limit(maxRetries)
    requires forall j :: attempt <= j < CheckFrom(attempt, maxRetries, f).fetches ==> f(j) == g(j)
    ensures CheckFrom(attempt, maxRetries, g) == CheckFrom(attempt, maxRetries, f)
  {
  }

  lemma CheckPrefixDetermines(maxRetries: int, f: nat -> FetchReply, g: nat -> FetchReply)
    requires forall j :: 0 <= j < CheckTxSuccess(maxRetries, f).fetches ==> f(j) == g(j)
    ensures CheckTxSuccess(maxRetries, g) == CheckTxSuccess(maxRetries, f)
  {
  }
}
