/** `transactionSenderAndConfirmationWaiter` (src/utils/sender.ts).

    The concurrency is not executed; it is described by timed inputs.  Time
    0 is the moment the initial broadcast returned and the race started.
    - The resender's k-th wake-up from `sleep(2000)` happens at
      `resendTicks[k].wakeAt`, where it checks the abort flag.
    - The polling channel's k-th status reply arrives at
      `pollSteps[k].replyAt`; its loop head is checked at time 0 first and
      then right after each reply.
    - The notification channel (`confirmTransaction`) either stays silent or
      settles once, at a time, with an outcome.
    The race settles at the earliest settle time of the two channels, and the
    `finally` block aborts the controller at that same time.
    - The resender observes the abort at a wake-up at or after that time.
    - The poller's loop head after a reply runs in the same callback as that
      reply's `resolve`, before the race's reaction jobs and the `finally`
      run; it observes the abort only if the abort came strictly before the
      reply.  Head 0 runs while the race is being set up and never observes
      it. */
module Sender {
  import opened Types

  /** `SEND_OPTIONS`. */
  datatype SendOptions = SendOptions(skipPreflight: bool)
  const SendOpts: SendOptions := SendOptions(true)

  /** The sleep of each resender and poller iteration, in milliseconds. */
  const ResendIntervalMs: nat := 2000
  const PollIntervalMs: nat := 2000

  /** One `sendRawTransaction` call. */
  datatype SendCall = SendCall(payload: Bytes, options: SendOptions)

  /** The resender, waking at time `t`, sees the abort flag set. */
  predicate AbortSeen(abortAt: Option<nat>, t: nat) {
    abortAt.Some? && abortAt.value <= t
  }

  // ---------------------------------------------------------------------
  // The resender loop

  /** One wake-up of the resender, and whether the resend it would then
      issue throws. */
  datatype ResendTick = ResendTick(wakeAt: nat, sendThrows: bool)

  datatype ResendAttempt = ResendAttempt(call: SendCall, threw: bool)

  /** The resends issued, and whether the loop returned (saw the abort)
      within the given ticks. */
  datatype ResenderRun = ResenderRun(attempts: seq<ResendAttempt>, returned: bool)

  /** `abortableResender`: after each sleep, return if aborted, otherwise
      resend the same bytes with the same options and swallow any failure. */
  function Resender(payload: Bytes, abortAt: Option<nat>, ticks: seq<ResendTick>): (r: ResenderRun)
    ensures |r.attempts| <= |ticks|
    ensures forall i :: 0 <= i < |r.attempts| ==>
      r.attempts[i] == ResendAttempt(SendCall(payload, SendOpts), ticks[i].sendThrows)
    ensures forall i :: 0 <= i < |r.attempts| ==> !AbortSeen(abortAt, ticks[i].wakeAt)
    ensures |r.attempts| < |ticks| ==> AbortSeen(abortAt, ticks[|r.attempts|].wakeAt)
    ensures r.returned <==> |r.attempts| < |ticks|
  {
    if ticks == [] then ResenderRun([], false)
    else if AbortSeen(abortAt, ticks[0].wakeAt) then ResenderRun([], true)
    else
      var rest := Resender(payload, abortAt, ticks[1..]);
      ResenderRun([ResendAttempt(SendCall(payload, SendOpts), ticks[0].sendThrows)] + rest.attempts,
                  rest.returned)
  }

  /** A failed resend never ends the loop: how many resends happen, and
      whether the loop returns, do not depend on which resends throw. */
  lemma ResenderIgnoresSendFailures(payload: Bytes, abortAt: Option<nat>,
                                                       ticks: seq<ResendTick>, ticks': seq<ResendTick>)
    requires |ticks| == |ticks'|
    requires forall i :: 0 <= i < |ticks| ==> ticks[i].wakeAt == ticks'[i].wakeAt
    ensures |Resender(payload, abortAt, ticks).attempts| == |Resender(payload, abortAt, ticks').attempts|
    ensures Resender(payload, abortAt, ticks).returned == Resender(payload, abortAt, ticks').returned
  {
  }

  /** Wake-ups honour the sleep: the first comes at least 2000 ms after the
      start, and each later one at least 2000 ms after the previous. */
  predicate TicksSpaced(ticks: seq<ResendTick>) {
    (|ticks| > 0 ==> ticks[0].wakeAt >= ResendIntervalMs) &&
    forall i :: 0 < i < |ticks| ==> ticks[i].wakeAt >= ticks[i - 1].wakeAt + ResendIntervalMs
  }

  lemma {:induction false} SpacedTickIsLate(ticks: seq<ResendTick>, i: nat)
    requires TicksSpaced(ticks)
    requires i < |ticks|
    ensures ticks[i].wakeAt >= ResendIntervalMs * (i + 1)
  {
    if i > 0 {
      SpacedTickIsLate(ticks, i - 1);
    }
  }

  /** With an abort at time `s`, the resender issues at most s / 2000 resends. */
  lemma ResendCountBounded(payload: Bytes, s: nat, ticks: seq<ResendTick>)
    requires TicksSpaced(ticks)
    ensures ResendIntervalMs * |Resender(payload, Some(s), ticks).attempts| <= s
  {
    var n := |Resender(payload, Some(s), ticks).attempts|;
    if n > 0 {
      SpacedTickIsLate(ticks, n - 1);
    }
  }

  /** The calls of a resender run. */
  function Calls(attempts: seq<ResendAttempt>): (calls: seq<SendCall>)
    ensures |calls| == |attempts|
    ensures forall i :: 0 <= i < |attempts| ==> calls[i] == attempts[i].call
  {
    seq(|attempts|, i requires 0 <= i < |attempts| => attempts[i].call)
  }

  // ---------------------------------------------------------------------
  // The polling channel

  datatype SignatureStatus = SignatureStatus(confirmationStatus: Option<string>)

  /** One `getSignatureStatus` call: when its reply arrives, and what it is
      (it may throw, or carry a null value). */
  datatype PollStep = PollStep(replyAt: nat, reply: Reply<Option<SignatureStatus>>)

  /** Why the polling loop stopped: it saw the abort at its loop head, a
      status call threw inside the promise executor (which ends the loop
      without settling anything), or the modelled steps ran out. */
  datatype PollerEnd = AbortObserved | Died | OutOfSteps

  /** The number of status calls made, the index of the step whose reply
      resolved the channel (if any), and how the loop stopped. */
  datatype PollerRun = PollerRun(polls: nat, resolvedAt: Option<nat>, end: PollerEnd)

  /** The reply resolves the polling channel: `confirmationStatus` is
      exactly "confirmed". */
  predicate ReportsConfirmed(reply: Reply<Option<SignatureStatus>>) {
    reply == Ok(Some(SignatureStatus(Some("confirmed"))))
  }

  /** When the loop head before step k is checked. */
  function HeadAt(steps: seq<PollStep>, k: nat): nat
    requires k <= |steps|
  {
    if k == 0 then 0 else steps[k - 1].replyAt
  }

  /** When status call k is issued: after the sleep that follows head k. */
  function IssueAt(steps: seq<PollStep>, k: nat): nat
    requires k <= |steps|
  {
    HeadAt(steps, k) + PollIntervalMs
  }

  /** The loop head before step k sees the abort: it is not head 0, and the
      controller was aborted strictly before the reply whose callback runs
      the head. */
  predicate HeadSeesAbort(abortAt: Option<nat>, steps: seq<PollStep>, k: nat)
    requires k <= |steps|
  {
    0 < k && abortAt.Some? && abortAt.value < HeadAt(steps, k)
  }

  /** The polling loop from step k on: while not aborted, sleep, fetch the
      status, and resolve on "confirmed".  Resolving does not leave the
      loop; only a later resolve is a no-op, so the first one counts. */
  function PollFrom(abortAt: Option<nat>, steps: seq<PollStep>, k: nat): (r: PollerRun)
    requires k <= |steps|
    ensures k <= r.polls <= |steps|
    ensures forall j :: k <= j < r.polls ==> !HeadSeesAbort(abortAt, steps, j)
    ensures forall j :: k <= j < r.polls - 1 ==> steps[j].reply.Ok?
    ensures r.end == AbortObserved ==> HeadSeesAbort(abortAt, steps, r.polls)
    ensures r.end == Died ==> k < r.polls && steps[r.polls - 1].reply.Raised?
    ensures r.end == OutOfSteps ==> r.polls == |steps| && (k < r.polls ==> steps[r.polls - 1].reply.Ok?)
    ensures r.resolvedAt.Some? ==>
      var v := r.resolvedAt.value;
      k <= v < r.polls && ReportsConfirmed(steps[v].reply) &&
      forall j :: k <= j < v ==> !ReportsConfirmed(steps[j].reply)
    ensures r.resolvedAt.None? ==> forall j :: k <= j < r.polls ==> !ReportsConfirmed(steps[j].reply)
    decreases |steps| - k
  {
    if HeadSeesAbort(abortAt, steps, k) then PollerRun(k, None, AbortObserved)
    else if k == |steps| then PollerRun(k, None, OutOfSteps)
    else if steps[k].reply.Raised? then PollerRun(k + 1, None, Died)
    else
      var rest := PollFrom(abortAt, steps, k + 1);
      PollerRun(rest.polls,
                if ReportsConfirmed(steps[k].reply) then Some(k) else rest.resolvedAt,
                rest.end)
  }

  function Poller(abortAt: Option<nat>, steps: seq<PollStep>): (r: PollerRun)
    ensures r.polls <= |steps|
    ensures forall j :: 0 <= j < r.polls ==> !HeadSeesAbort(abortAt, steps, j)
    ensures r.resolvedAt.Some? ==>
      var v := r.resolvedAt.value;
      v < r.polls && ReportsConfirmed(steps[v].reply) &&
      forall j :: 0 <= j < v ==> !ReportsConfirmed(steps[j].reply)
    ensures r.resolvedAt.None? ==> forall j :: 0 <= j < r.polls ==> !ReportsConfirmed(steps[j].reply)
    ensures forall j :: 0 <= j < r.polls - 1 ==> steps[j].reply.Ok?
    ensures r.polls < |steps| ==>
      0 < r.polls && (HeadSeesAbort(abortAt, steps, r.polls) || steps[r.polls - 1].reply.Raised?)
  {
    PollFrom(abortAt, steps, 0)
  }

  /** Every status reply comes at least one poll interval after the loop
      head that started it, which is the previous reply (or time 0). */
  predicate StepsSpaced(steps: seq<PollStep>) {
    (|steps| > 0 ==> steps[0].replyAt >= PollIntervalMs) &&
    forall k :: 0 < k < |steps| ==> steps[k].replyAt >= steps[k - 1].replyAt + PollIntervalMs
  }

  /** Once aborted at `s`, every status reply but the last arrives at or
      before `s`; with replies spaced by the sleep, every status call but
      the last is also issued at or before `s`, so at most one is issued
      after the abort. */
  lemma AtMostOneLatePoll(s: nat, steps: seq<PollStep>)
    ensures forall j :: 0 <= j < Poller(Some(s), steps).polls - 1 ==> steps[j].replyAt <= s
    ensures StepsSpaced(steps) ==>
      forall j :: 0 <= j < Poller(Some(s), steps).polls - 1 ==> IssueAt(steps, j) <= s
  {
    var r := Poller(Some(s), steps);
    forall j | 0 <= j < r.polls - 1
      ensures steps[j].replyAt <= s
    {
      assert !HeadSeesAbort(Some(s), steps, j + 1);
    }
    if StepsSpaced(steps) {
      forall j | 0 <= j < r.polls - 1
        ensures IssueAt(steps, j) <= s
      {
        assert !HeadSeesAbort(Some(s), steps, j + 1);
        assert IssueAt(steps, j) <= steps[j].replyAt;
      }
    }
  }

  // ---------------------------------------------------------------------
  // The race and the outcome

  /** How `confirmTransaction` settles. */
  datatype ConfirmOutcome = ConfirmResolved | BlockheightExceeded | ConfirmError

  /** The notification channel: it may never settle (a dead socket). */
  datatype ConfirmChannel = Silent | SettlesAt(at: nat, outcome: ConfirmOutcome)

  datatype RaceWinner = Push(outcome: ConfirmOutcome) | PollConfirmed

  datatype RaceEnd = RaceEnd(at: nat, winner: RaceWinner)

  /** When the polling channel resolves if nothing aborts it. */
  function PollResolveTime(steps: seq<PollStep>): Option<nat> {
    var p := Poller(None, steps);
    if p.resolvedAt.Some? then Some(steps[p.resolvedAt.value].replyAt) else None
  }

  /** `Promise.race`: the channel that settles first wins; on a tie the
      notification channel, listed first, is taken. */
  function Race(confirm: ConfirmChannel, steps: seq<PollStep>): (r: Option<RaceEnd>)
    ensures r.None? <==> confirm.Silent? && PollResolveTime(steps).None?
    ensures r.Some? && r.value.winner.Push? ==>
      confirm == SettlesAt(r.value.at, r.value.winner.outcome)
    ensures r.Some? && r.value.winner.PollConfirmed? ==>
      PollResolveTime(steps) == Some(r.value.at) && (confirm.SettlesAt? ==> r.value.at < confirm.at)
    ensures r.Some? && confirm.SettlesAt? ==> r.value.at <= confirm.at
    ensures r.Some? && PollResolveTime(steps).Some? ==> r.value.at <= PollResolveTime(steps).value
  {
    match (confirm, PollResolveTime(steps))
    case (Silent, None) => None
    case (Silent, Some(p)) => Some(RaceEnd(p, PollConfirmed))
    case (SettlesAt(c, o), None) => Some(RaceEnd(c, Push(o)))
    case (SettlesAt(c, o), Some(p)) =>
      if c <= p then Some(RaceEnd(c, Push(o))) else Some(RaceEnd(p, PollConfirmed))
  }

  /** The value returned once the race has settled: the initial broadcast's
      txid if the race resolved, null for an expired blockhash (consumed) and
      for any other error (rethrown, then caught by the outer handler). */
  function SenderResult(initial: Reply<Txid>, winner: RaceWinner): (r: Option<Txid>)
    ensures r.Some? <==> initial.Ok? && (winner.PollConfirmed? || winner == Push(ConfirmResolved))
    ensures r.Some? ==> r.value == initial.value
  {
    if initial.Raised? then None
    else match winner
      case PollConfirmed => Some(initial.value)
      case Push(ConfirmResolved) => Some(initial.value)
      case Push(BlockheightExceeded) => None
      case Push(ConfirmError) => None
  }

  /** Everything the network does during one submission. */
  datatype SubmissionEnv = SubmissionEnv(
    initial: Reply<Txid>,
    confirm: ConfirmChannel,
    pollSteps: seq<PollStep>,
    resendTicks: seq<ResendTick>)

  /** One submission: what the sender returns (or that it is still waiting),
      every broadcast it made, when it aborted its controller, and how many
      status polls it issued. */
  datatype SubmissionRun = SubmissionRun(
    result: Async<Option<Txid>>,
    broadcasts: seq<SendCall>,
    abortAt: Option<nat>,
    polls: nat)

  /** `transactionSenderAndConfirmationWaiter` as a whole. */
  function Submit(payload: Bytes, env: SubmissionEnv): (r: SubmissionRun)
    ensures !r.result.Threw?
    ensures 1 <= |r.broadcasts|
    ensures forall i :: 0 <= i < |r.broadcasts| ==> r.broadcasts[i] == SendCall(payload, SendOpts)
    ensures env.initial.Raised? ==>
      r.result == Returned(None) && |r.broadcasts| == 1 && r.abortAt.None? && r.polls == 0
    ensures r.result.Returned? && r.result.value.Some? ==>
      env.initial.Ok? && r.result.value.value == env.initial.value
    ensures env.initial.Ok? ==> (r.result.Returned? <==> r.abortAt.Some?)
    ensures r.polls <= |env.pollSteps|
    ensures r.abortAt.Some? ==>
      forall j :: 0 <= j < r.polls - 1 ==> env.pollSteps[j].replyAt <= r.abortAt.value
    ensures env.initial.Ok? && r.polls < |env.pollSteps| ==>
      0 < r.polls &&
      ((r.abortAt.Some? && r.abortAt.value < env.pollSteps[r.polls - 1].replyAt) ||
       env.pollSteps[r.polls - 1].reply.Raised?)
  {
    if env.initial.Raised? then
      // the controller is never created: no resender, no race
      SubmissionRun(Returned(None), [SendCall(payload, SendOpts)], None, 0)
    else
      var race := Race(env.confirm, env.pollSteps);
      var abortAt := if race.Some? then Some(race.value.at) else None;
      var resends := Resender(payload, abortAt, env.resendTicks);
      var poller := Poller(abortAt, env.pollSteps);
      assert abortAt.Some? ==>
        forall j :: 0 <= j < poller.polls - 1 ==> env.pollSteps[j].replyAt <= abortAt.value by {
        if race.Some? { AtMostOneLatePoll(race.value.at, env.pollSteps); }
      }
      SubmissionRun(
        if race.None? then Waiting else Returned(SenderResult(env.initial, race.value.winner)),
        [SendCall(payload, SendOpts)] + Calls(resends.attempts),
        abortAt,
        poller.polls)
  }

  /** Two concrete runs.  A "confirmed" reply at 2000 ms wins the race and
      aborts the controller then, yet a second status call follows; a
      notification that settles at time 0 does not stop the first status
      call, because head 0 runs before the race can settle. */
  lemma LatePollExample(payload: Bytes)
    ensures
      var steps := [PollStep(2000, Ok(Some(SignatureStatus(Some("confirmed"))))), PollStep(4000, Ok(None))];
      var r := Submit(payload, SubmissionEnv(Ok("tx"), Silent, steps, []));
      r.result == Returned(Some("tx")) && r.abortAt == Some(2000) && r.polls == 2
    ensures
      var r := Submit(payload, SubmissionEnv(Ok("tx"), SettlesAt(0, ConfirmResolved), [PollStep(2000, Ok(None))], []));
      r.result == Returned(Some("tx")) && r.abortAt == Some(0) && r.polls == 1
  {
  }

  /** Abort happens on every exit path once the race has started, at the
      moment the race settles, whichever way it settles. */
  lemma AbortOnEveryExit(payload: Bytes, env: SubmissionEnv)
    requires env.initial.Ok?
    requires Race(env.confirm, env.pollSteps).Some?
    ensures Submit(payload, env).abortAt == Some(Race(env.confirm, env.pollSteps).value.at)
  {
  }

  /** A race that resolves, through either channel, makes the sender return
      exactly the initial broadcast's txid, whatever the resends did. */
  lemma ResolvedRaceReturnsInitialTxid(payload: Bytes, env: SubmissionEnv)
    requires env.initial.Ok?
    requires Race(env.confirm, env.pollSteps).Some?
    requires Race(env.confirm, env.pollSteps).value.winner in {Push(ConfirmResolved), PollConfirmed}
    ensures Submit(payload, env).result == Returned(Some(env.initial.value))
  {
  }

  /** An expired blockhash gives null, and so does any other
      notification-channel error. */
  lemma ExpiryAndErrorsGiveNull(payload: Bytes, env: SubmissionEnv)
    requires env.initial.Ok?
    requires Race(env.confirm, env.pollSteps).Some?
    requires Race(env.confirm, env.pollSteps).value.winner in {Push(BlockheightExceeded), Push(ConfirmError)}
    ensures Submit(payload, env).result == Returned(None)
  {
  }

  /** The polling channel alone suffices: with a dead notification channel,
      a "confirmed" status reply makes the sender return the txid of the
      initial broadcast. */
  lemma PollChannelAloneSuffices(payload: Bytes, env: SubmissionEnv, k: nat)
    requires env.initial.Ok? && env.confirm.Silent?
    requires k < |env.pollSteps| && ReportsConfirmed(env.pollSteps[k].reply)
    requires forall j :: 0 <= j < k ==> env.pollSteps[j].reply.Ok?
    ensures Submit(payload, env).result == Returned(Some(env.initial.value))
  {
  }

  /** A poller that is never aborted and does not die before step k polls
      step k, so a "confirmed" reply there resolves it (at k or earlier). */
  lemma PollerReachesConfirmed(abortAt: Option<nat>, steps: seq<PollStep>, i: nat, k: nat)
    requires i <= k < |steps|
    requires forall j :: i <= j <= k ==> !HeadSeesAbort(abortAt, steps, j)
    requires forall j :: i <= j < k ==> steps[j].reply.Ok?
    requires ReportsConfirmed(steps[k].reply)
    ensures PollFrom(abortAt, steps, i).resolvedAt.Some?
    ensures PollFrom(abortAt, steps, i).resolvedAt.value <= k
  {
  }

  /** With spaced resends, the sender broadcasts at most s / 2000 + 1 times
      in all when it aborts at time s: the initial send plus one resend per
      completed sleep. */
  lemma BroadcastsBounded(payload: Bytes, env: SubmissionEnv, s: nat)
    requires TicksSpaced(env.resendTicks)
    requires Submit(payload, env).abortAt == Some(s)
    ensures |Submit(payload, env).broadcasts| <= s / ResendIntervalMs + 1
  {
    ResendCountBounded(payload, s, env.resendTicks);
  }

  /** When the polling channel wins the race at the reply of step k, the
      aborted poller seen by the sender resolves on the same step, but the
      head after that reply runs before the abort: the loop sleeps and issues
      one more status call, 2000 ms after the abort, and only the head after
      that call's reply stops it (unless that call throws or the modelled
      steps end). */
  lemma PollerWinnerConsistent(confirm: ConfirmChannel, steps: seq<PollStep>)
    requires StepsSpaced(steps)
    requires Race(confirm, steps).Some? && Race(confirm, steps).value.winner == PollConfirmed
    ensures Poller(None, steps).resolvedAt.Some?
    ensures
      var s := Race(confirm, steps).value.at;
      var k := Poller(None, steps).resolvedAt.value;
      var r := Poller(Some(s), steps);
      r.resolvedAt == Some(k) &&
      (k + 1 == |steps| ==> r.polls == k + 1 && r.end == OutOfSteps) &&
      (k + 1 < |steps| ==>
         r.polls == k + 2 && IssueAt(steps, k + 1) == s + PollIntervalMs &&
         r.end == (if steps[k + 1].reply.Ok? then AbortObserved else Died))
  {
    var s := Race(confirm, steps).value.at;
    var k := Poller(None, steps).resolvedAt.value;
    assert steps[k].replyAt == s;
    PollerAbortedAtResolve(s, steps, 0, k);
  }
  /** Loop heads up to step k all come before step k's reply. */
  lemma {:induction false} HeadsBeforeReply(steps: seq<PollStep>, j: nat, k: nat)
    requires StepsSpaced(steps)
    requires j <= k < |steps|
    ensures HeadAt(steps, j) < steps[k].replyAt
    decreases k
  {
    if j < k {
      HeadsBeforeReply(steps, j, k - 1);
      assert steps[k].replyAt >= steps[k - 1].replyAt + PollIntervalMs;
    } else if k > 0 {
      assert steps[k].replyAt >= steps[k - 1].replyAt + PollIntervalMs;
    }
  }

  /** The poller aborted at the reply time s of step k, where step k is its
      first "confirmed" reply and no earlier reply threw, behaves as the
      unaborted poller up to k, then makes exactly one more status call. */
  lemma {:induction false} PollerAbortedAtResolve(s: nat, steps: seq<PollStep>, i: nat, k: nat)
    requires StepsSpaced(steps)
    requires i <= k < |steps| && steps[k].replyAt == s
    requires PollFrom(None, steps, i).resolvedAt == Some(k)
    ensures PollFrom(Some(s), steps, i).resolvedAt == Some(k)
    ensures k + 1 == |steps| ==>
      PollFrom(Some(s), steps, i).polls == k + 1 && PollFrom(Some(s), steps, i).end == OutOfSteps
    ensures k + 1 < |steps| ==>
      PollFrom(Some(s), steps, i).polls == k + 2 &&
      PollFrom(Some(s), steps, i).end == (if steps[k + 1].reply.Ok? then AbortObserved else Died)
    decreases k - i
  {
    HeadsBeforeReply(steps, i, k);
    var r := PollFrom(None, steps, i);
    if i < k {
      assert i < r.polls - 1;
      assert steps[i].reply.Ok?;
      assert PollFrom(None, steps, i + 1).resolvedAt == Some(k);
      PollerAbortedAtResolve(s, steps, i + 1, k);
    } else {
      assert steps[k].reply.Ok?;
      assert HeadAt(steps, k + 1) == s;
      assert !HeadSeesAbort(Some(s), steps, k + 1);
      if k + 2 <= |steps| {
        assert HeadSeesAbort(Some(s), steps, k + 2);
        if steps[k + 1].reply.Ok? {
          assert PollFrom(Some(s), steps, k + 2) == PollerRun(k + 2, None, AbortObserved);
        }
      }
    }
  }
}
