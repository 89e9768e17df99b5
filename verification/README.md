# Solana trading bot: swap pipeline and transaction sender, modelled in Dafny

This project models the decision logic of the trading bot's swap code:

- the **balance-delta resolver** (`getActualAmount`): the realized amount of a
  trade, read from the finalized transaction's lamport balances (SOL) or from
  the first token-balance entry matching the mint and the wallet;
- the **success check** (`checkTxSuccess`): a bounded retry over fetches of the
  parsed transaction, ending in succeeded, failed or not found;
- the **sender** (`transactionSenderAndConfirmationWaiter`): one initial
  broadcast, a background resender, and a race between the notification channel
  (`confirmTransaction`) and a status-polling channel, with the controller
  aborted when the race settles;
- the **swap pipeline** (`sendAndConfirmTransaction`, `buyToken`, `sellToken`):
  quote, build, sign, simulate, submit, check, resolve the amount, and build a
  holding (buy) or a history entry (sell). Any failing stage gives `null`.

Every reply from the RPC node and from the quote/swap API is an input value.
`Swap.Network` bundles them. The quote service is a function from request to
reply, so the requested amount and slippage show in the contracts. The sender
works over timed inputs. Time 0 is when the initial broadcast returned. The
resender wakes at given times. The status replies arrive at given times. The
notification channel settles once at a given time, or never. The race settles
at the earlier of the two channels, and the abort happens at that moment. The
resender sees the abort at a wake-up at or after that time. The polling loop
tests the flag in the same callback as the reply it just received, before the
race's reaction jobs and the `finally` run. So it sees the abort only when the
abort came strictly before that reply. Its first test runs while the race is
being set up, and never sees it. JavaScript
`null` is `Option.None`. An exception is `Reply.Raised` for network calls and
`Async.Threw` for the bot's own async functions. `Async.Waiting` means the
sender's race has not settled within the modelled replies.

Modules: `Types` (src/utils/types.ts records and wrappers), `Ledger` (RPC reply
shapes), `TxCheck` (src/utils/utils.ts), `Sender` (src/utils/sender.ts),
`Swap` (src/utils/swap.ts).

What the code does, in points worth noting:

- The sender returns the initial txid or `null`. An expired blockhash and any
  other race error both give `null`.
- A status call that throws rejects the promise returned by the async promise
  executor. The polling loop ends without settling anything (`PollerEnd.Died`).
- The polling channel resolves only on the exact status `"confirmed"`. A reply of
  `"finalized"` does not resolve it. Resolving does not leave the loop: the loop
  runs until it sees the abort.
- When the polling channel wins, the loop test right after the resolving reply
  runs before the abort. The loop sleeps once more and issues one more status
  call, 2000 ms after the abort. Only the test after that call's reply stops it.
- The resender checks the abort only after each sleep. A resend whose sleep ended
  before the abort is still issued.

## Model

| member | source | states |
|---|---|---|
| TxCheck.CheckFrom | src/utils/utils.ts:24-41 | From a given attempt on: the loop never goes past the bound, keeps fetching only while the reply has no error and no meta, stops early only on a reply that threw or carries meta, and succeeds exactly when that last reply shows meta with a null error |
| TxCheck.CheckTxSuccess | src/utils/utils.ts:17-46 | At most maxRetries fetches (none when maxRetries ≤ 0). The check stops at the first reply that throws or carries meta. It returns true exactly when that reply shows a transaction whose meta error is null |
| TxCheck.CheckTxSuccessMatchesReference | src/utils/utils.ts:29-35 | Success holds iff, within the bound, some reply shows success and every earlier reply was "not found yet" (both directions) |
| TxCheck.StopsAtFirstDecisive | src/utils/utils.ts:24-35 | The number of fetches is one more than the index of the first reply that throws or carries meta |
| TxCheck.FailedTxStopsWithFalse | src/utils/utils.ts:33-35 | The first reply with meta and a non-null error gives false, with no further fetch |
| TxCheck.ThrowingFetchGivesFalse | src/utils/utils.ts:42-45 | A fetch that throws makes the check return false, with no further fetch |
| TxCheck.NotFoundGivesFalse | src/utils/utils.ts:24-41 | If no reply within the bound throws or carries meta, exactly maxRetries fetches are made and the result is false |
| TxCheck.CheckFromPrefixDetermines | src/utils/utils.ts:24-41 | Replies after the last fetch made have no influence on the run |
| TxCheck.CheckPrefixDetermines | src/utils/utils.ts:24-41 | Two fetch sequences that agree on the fetches actually made give the same verdict and count |
| Sender.Resender | src/utils/sender.ts:30-40 | Every resend carries the same bytes and the send options. No resend is issued at a wake-up that sees the abort. The loop returns exactly at the first wake-up that sees it; a failed resend is recorded and the loop goes on |
| Sender.ResenderIgnoresSendFailures | src/utils/sender.ts:34-38 | How many resends happen, and whether the loop returns, do not depend on which resends throw |
| Sender.SpacedTickIsLate | src/utils/sender.ts:31-32 | With a 2000 ms sleep before each check, the k-th wake-up is at least 2000·(k+1) ms after the start |
| Sender.ResendCountBounded | src/utils/sender.ts:31-38 | With an abort at time s, the resender issues at most s/2000 resends |
| Sender.PollFrom | src/utils/sender.ts:58-66 | From a given step on: status calls are made only at loop heads that do not see the abort (an abort strictly before the reply the head follows). The channel resolves on the first reply whose status is exactly "confirmed", and never otherwise. A thrown call ends the loop |
| Sender.Poller | src/utils/sender.ts:56-67 | The whole polling channel: the first loop test never sees the abort, and later ones see it only if it came strictly before the reply they follow. It resolves only on the first "confirmed" reply. It stops early only at a test that sees the abort or after a thrown call |
| Sender.AtMostOneLatePoll | src/utils/sender.ts:58-62 | Once aborted at time s, every status reply but the last arrives at or before s. With replies spaced by the sleep, every status call but the last is issued at or before s, so at most one is issued after the abort |
| Sender.LatePollExample | src/utils/sender.ts:46-79 | A "confirmed" reply at 2000 ms with a silent notification channel returns the txid and aborts at 2000, yet makes two status calls. A notification settling at time 0 still lets the first status call through |
| Sender.Race | src/utils/sender.ts:46-68 | The race settles iff one channel settles. A notification win carries that channel's time and outcome. A polling win comes strictly before any notification settle. The settle time is never later than either channel's |
| Sender.SenderResult | src/utils/sender.ts:69-85 | After the race, the result is a txid exactly when the initial send succeeded and the race resolved (either channel); that txid is the initial one |
| Sender.Submit | src/utils/sender.ts:19-86 | Never throws (the unhandled poller rejection listed under "Left out" aside). Every broadcast carries the same bytes and options. A failed initial send gives null, with one broadcast, no abort and no polls. A returned txid is the initial one. With a good initial send, the abort happens exactly when the sender returns. Every status reply but the last arrives no later than the abort. Polling stops before the last step only after a reply that came after the abort, or after a thrown call |
| Sender.ResolvedRaceReturnsInitialTxid | src/utils/sender.ts:25-81 | A race won by a resolved notification or by a "confirmed" poll makes the sender return exactly the initial broadcast's txid, whatever the resends did |
| Sender.AbortOnEveryExit | src/utils/sender.ts:77-79 | Once the race has started, the abort happens at the race's settle time, whatever the outcome |
| Sender.ExpiryAndErrorsGiveNull | src/utils/sender.ts:69-85 | A blockheight-exceeded error, and any other notification-channel error, make the sender return null |
| Sender.PollChannelAloneSuffices | src/utils/sender.ts:56-68 | With a silent notification channel, a "confirmed" status reply (with no earlier thrown poll) makes the sender return the initial txid |
| Sender.PollerReachesConfirmed | src/utils/sender.ts:58-66 | A poller that is not aborted and does not die before step k resolves at step k or earlier, if step k reports "confirmed" |
| Sender.BroadcastsBounded | src/utils/sender.ts:25-38 | An abort at time s means at most s/2000 + 1 broadcasts in all: the initial send plus one per completed sleep |
| Sender.HeadsBeforeReply | src/utils/sender.ts:58-62 | With spaced status replies, every loop head up to step k comes before step k's reply |
| Sender.PollerAbortedAtResolve | src/utils/sender.ts:58-66 | A poller aborted at the time of its own first "confirmed" reply resolves on that step. It then makes exactly one more status call (if a step is left), and stops at the test after it, or dies if that call throws |
| Sender.PollerWinnerConsistent | src/utils/sender.ts:46-79 | When polling wins the race at step k, the aborted poller resolves on step k as the unaborted one does. It makes k + 2 status calls, the last issued 2000 ms after the abort (k + 1 if the steps end at k) |
| Swap.FirstMatch | src/utils/swap.ts:105-121 | The linear search returns the first index whose mint and owner both match, or nothing when no entry matches |
| Swap.SideAmount | src/utils/swap.ts:105-121 | One side of the token delta is the uiAmount of the first matching entry (0 when null), or 0 when no entry matches or the list is missing |
| Swap.GetActualAmount | src/utils/swap.ts:89-128 | A thrown fetch gives 0, and so does a missing transaction or meta. For SOL: (first post lamports − first pre lamports, each 0 if absent) / 10^9, ignoring token lists. For other mints: post − pre, each side read by the first-match rule |
| Swap.LaterEntriesIgnored | src/utils/swap.ts:106-112 | Once an entry matches, entries after it (later matches included) change neither the index found nor the amount |
| Swap.FirstMatchSkipsOthers | src/utils/swap.ts:106-121 | Non-matching entries in front only shift the index of the match |
| Swap.OtherEntriesSkipped | src/utils/swap.ts:106-121 | Non-matching entries in front do not change a side's amount |
| Swap.TokenDeltaExample | src/utils/swap.ts:105-123 | Pre 100 and post 150 for the wallet give 50, even with another owner's entry for the same mint listed first |
| Swap.MissingPostEntryExample | src/utils/swap.ts:114-123 | A missing post list counts as 0 on that side instead of failing |
| Swap.SendAndConfirm | src/utils/swap.ts:45-87 | A failed signing or simulation means no broadcast at all. A simulation error gives null. Every broadcast carries the signed bytes. A returned signature is the initial txid, non-empty, and passed the success check. A null sender result gives null with no check. With a non-empty txid, the result is the signature iff the check succeeds |
| Swap.BuyToken | src/utils/swap.ts:130-179 | Never throws (the unhandled poller rejection listed under "Left out" aside). It asks for a quote of buyAmount·10^9 lamports at slippage·100 bps. The holding exists iff quote, swap and send-and-confirm all succeed. It copies address, name, symbol and decimals from the token. Both prices are the token price, amount is the resolved delta, buySolAmount is buyAmount, buyTime is the clock, gain is 0 and processing is false |
| Swap.SellBaseUnits | src/utils/swap.ts:188 | The sell amount is floor(amount·10^decimals): at most the held amount in base units and less than one unit below it, and non-negative for a non-negative holding |
| Swap.SellBaseUnitsExact | src/utils/swap.ts:188 | A holding that is a whole number n of base units is quoted as exactly n |
| Swap.SellRoundingExample | src/utils/swap.ts:188 | 1.23456789 tokens with 6 decimals are quoted as 1234567 base units |
| Swap.SellToken | src/utils/swap.ts:181-230 | Never throws (the unhandled poller rejection listed under "Left out" aside). It asks for a quote of the floored base units at slippage·100 bps. The entry exists iff quote, swap and send-and-confirm all succeed. It copies address, name, buyPrice, buySolAmount, buyTime, amount, gain and decimals from the holding. sellPrice is the holding's currentPrice, sellSolAmount is the resolved SOL delta and sellTime is the clock |
| Swap.BuyThenSell | src/utils/swap.ts:162-225 | Selling a holding just returned by a buy closes it with the buy's address, name, decimals, price, SOL spent, time and resolved amount, a sell price equal to the buy price, and zero gain |

## Left out

- Network calls (`quoteGet`, `swapPost`, `simulateTransaction`, `sendRawTransaction`, `confirmTransaction`, `getSignatureStatus`, `getParsedTransaction`) are not modelled as code. Their replies are inputs.
- `Promise.race`, `sleep` and the real interleaving are not modelled. Each channel is a timed input. Sleeps appear only as the spacing assumptions `TicksSpaced` and `StepsSpaced`.
- Sender.Submit: "never throws" holds for the value the sender returns only. A status call that throws after the race has started rejects the poller's executor promise (src/utils/sender.ts:56). Nothing handles that rejection. Whether it ends the Node process depends on the runtime's unhandled-rejection mode, so its process-level effect is not modelled. This also holds for the extra status call after a polling win. Swap.SendAndConfirm, Swap.BuyToken and Swap.SellToken inherit this.
- Sender.PollFrom: a thrown status call ends the polling loop (`PollerEnd.Died`) and nothing else. The unhandled rejection it causes is not modelled, as above.
- Sender.Resender: a wake-up at the same instant as the abort counts as after it. Timer callbacks and the abort's microtasks at the same instant are not ordered in the model.
- Sender.Race: when both channels settle at the same modelled instant, the notification channel wins. This tie rule is a modelling choice; microtask order is not modelled.
- Signing, `VersionedTransaction` deserialization and serialization, base64 and bs58 are foreign library calls. The payload is opaque bytes, and signing is an input that may throw.
- The options passed to foreign calls are not modelled: `replaceRecentBlockhash` and `commitment` of the simulation, and the blockhash, `lastValidBlockHeight` and commitment given to `confirmTransaction`. Their effect is part of the simulation reply and the notification channel input.
- JavaScript `number` semantics are not modelled. UI amounts, prices and slippage are `real`, and lamports are `int`. The float rounding of `amount * 10 ** decimals` and of the division by 10^9 is not modelled, and neither is `NaN` under `|| 0`.
- Swap.GetActualAmount: an entry without `uiTokenAmount` would throw and give 0. This case is not modelled, because the RPC types always carry that field.
- `Date().getTime()` is the input `now`. The delay between success-check attempts (`delayMs`) is not modelled, because only the order of fetches matters.
- The quoted `outAmount` scaling in `buyToken` and `sellToken` feeds only log lines, so it is not modelled. Logging, dotenv and `waitForKeypress` (stdin) are left out too.
- src/bot.ts and src/index.ts are left out. Their loops and `main` have empty bodies.
- The `BotConfig` filter fields are left out, because no modelled code reads them.
- Default parameter values are left out: callers pass `slippage` explicitly. `checkTxSuccess` runs with its default of 10 retries, as `sendAndConfirmTransaction` calls it.
