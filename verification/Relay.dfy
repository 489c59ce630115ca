/**
 The relay loop of controller/relay.go with its deferred refund, and the background image task it may
 hand the request to (controller/image_task.go). What the upstream and the database answer is part of
 the request, attempt by attempt.
 */
module Relay {
  import opened Options
  import opened ChannelSelect
  import opened Billing

  const VIOLATION_PREFIX := "violation_fee."
  const GROK_CSAM := "violation_fee.grok.csam"
  const CHANNEL_PREFIX := "channel:"
  const NO_CHANNEL := ApiError("get_channel_failed", 500, true, false)

  /** An error; `marked` if its message carries a content-violation marker. */
  datatype ApiError = ApiError(code: string, status: int, skipRetry: bool, marked: bool)

  datatype Answer = Served(quota: int) | Failed(error: ApiError)

  /** The settings shouldRetry consults; `affinity` may ask for no retry after an attempt. */
  datatype Policy = Policy(
    pinned: bool, affinity: nat -> bool, alwaysSkip: string -> bool, retryStatus: int -> bool)

  /** A request: its routing and price, and what each step will answer. */
  datatype Request = Request(
    routing: Routing, start: nat, policy: Policy,
    free: bool, price: nat, reserve: Option<ApiError>, fee: nat,
    setup: nat -> Option<ApiError>, body: nat -> Option<ApiError>, answer: nat -> Answer,
    async: bool, bytes: Option<ApiError>, inserted: bool, executed: Answer)

  predicate HasPrefix(s: string, prefix: string) {
    |prefix| <= |s| && s[..|prefix|] == prefix
  }

  /** NormalizeViolationFeeError. */
  function Normalize(e: ApiError): (r: ApiError)
    ensures r.marked == e.marked && r.status == e.status
    ensures Normalized(r)
  {
    if e.marked then e.(code := GROK_CSAM, skipRetry := true)
    else if HasPrefix(e.code, VIOLATION_PREFIX) then e.(skipRetry := true)
    else e
  }

  /** Content violations are never retried and carry the fee's code. */
  predicate Normalized(e: ApiError) {
    && (e.marked ==> e.code == GROK_CSAM)
    && (HasPrefix(e.code, VIOLATION_PREFIX) ==> e.skipRetry)
  }

  predicate ShouldRetry(p: Policy, attempt: nat, e: ApiError, retryTimes: int) {
    if p.affinity(attempt) then false
    else if HasPrefix(e.code, CHANNEL_PREFIX) then true
    else if e.skipRetry then false
    else if retryTimes <= 0 then false
    else if p.pinned then false
    else if 200 <= e.status < 300 then false
    else if e.status < 100 || e.status > 599 then true
    else if p.alwaysSkip(e.code) then false
    else p.retryStatus(e.status)
  }

  // ---------------------------------------------------------------- a run

  /** How the loop ended: not started, an answer, a break, a hand-off, or no retries left. */
  datatype Ending = Rejected | Success(quota: int) | Stopped | HandedOff | Exhausted

  /** `error` is the variable the deferred refund looks at. */
  datatype Run = Run(ending: Ending, error: Option<ApiError>, attempts: nat)

  /** The loop at its head: n attempts made, the last one's error. */
  function Loop(q: Request, n: nat, c: Cursor, error: Option<ApiError>): Run
    requires if n == 0 then c.retry == 0 && !c.keep else AfterStep(q.routing, c)
    decreases n == 0, Left(q.routing, c)
  {
    if c.retry > q.routing.retryTimes then Run(Exhausted, error, n)
    else
      var (channelErr, d) := GetChannel(q.routing, q.setup, NO_CHANNEL, n, c);
      if channelErr.Some? then Run(Stopped, channelErr, n)
      else if q.body(n).Some? then Run(Stopped, q.body(n), n)
      else if q.async then
        if q.bytes.Some? then Run(Stopped, q.bytes, n) else Run(HandedOff, error, n)
      else
        match q.answer(n)
        case Served(quota) => Run(Success(quota), None, n + 1)
        case Failed(e) =>
          if !ShouldRetry(q.policy, n, Normalize(e), q.routing.retryTimes - d.retry) then
            Run(Stopped, Some(Normalize(e)), n + 1)
          else
            GetChannelSpends(q.routing, q.setup, NO_CHANNEL, n, c);
            Loop(q, n + 1, Increased(d), Some(Normalize(e)))
  }

  function Outcome(q: Request): Run {
    if !q.free && q.reserve.Some? then Run(Rejected, q.reserve, 0)
    else Loop(q, 0, Cursor(q.start, 0, false), None)
  }

  // ---------------------------------------------------------------- what a run means

  lemma {:induction false} LoopAttempts(q: Request, n: nat, c: Cursor, error: Option<ApiError>)
    requires n > 0 && AfterStep(q.routing, c)
    ensures n <= Loop(q, n, c, error).attempts <= n + Left(q.routing, c)
    decreases Left(q.routing, c)
  {
    if c.retry <= q.routing.retryTimes {
      GetChannelSpends(q.routing, q.setup, NO_CHANNEL, n, c);
      var (channelErr, d) := GetChannel(q.routing, q.setup, NO_CHANNEL, n, c);
      if channelErr.None? && q.body(n).None? && !q.async && q.answer(n).Failed? {
        LoopAttempts(q, n + 1, Increased(d), Some(Normalize(q.answer(n).error)));
      }
    }
  }

  /** No run makes more attempts than its settings allow. */
  lemma AttemptsBounded(q: Request)
    ensures Outcome(q).attempts <= if q.routing.retryTimes >= 0 then MaxAttempts(q.routing, q.start) else 0
  {
    if q.routing.retryTimes >= 0 {
      FirstAttempt(q.routing, q.start);
      if q.answer(0).Failed? {
        LoopAttempts(q, 1, Cursor(q.start, 1, false), Some(Normalize(q.answer(0).error)));
      }
    }
  }

  /** Every step up to the upstream works, and every answer is a failure of the channel's own. */
  ghost predicate AlwaysRetries(q: Request) {
    && (forall k :: q.setup(k).None? && q.body(k).None? && !q.policy.affinity(k))
    && (forall k :: q.answer(k).Failed? && HasPrefix(Normalize(q.answer(k).error).code, CHANNEL_PREFIX))
    && !q.async && (q.free || q.reserve.None?)
  }

  lemma {:induction false} LoopReaches(q: Request, n: nat, c: Cursor, error: Option<ApiError>)
    requires n > 0 && AfterStep(q.routing, c) && AlwaysRetries(q)
    requires Generous(q.routing) && (c.retry > 0 || q.routing.crossGroup || !q.routing.auto)
    ensures Loop(q, n, c, error).attempts == n + Left(q.routing, c)
    decreases Left(q.routing, c)
  {
    if Left(q.routing, c) > 0 {
      if !q.routing.bound { SelectSpendsOne(q.routing, n, c); }
      GetChannelSpends(q.routing, q.setup, NO_CHANNEL, n, c);
      LoopReaches(q, n + 1, Increased(GetChannel(q.routing, q.setup, NO_CHANNEL, n, c).1),
                  Some(Normalize(q.answer(n).error)));
    } else {
      LoopAttempts(q, n, c, error);
    }
  }

  /** The bound is exact: failures that are always retried use it up where channels last. */
  lemma AttemptsReached(q: Request)
    requires q.routing.retryTimes >= 0 && AlwaysRetries(q) && Generous(q.routing)
    ensures Outcome(q).attempts == MaxAttempts(q.routing, q.start)
  {
    var c, e := Cursor(q.start, 1, false), Some(Normalize(q.answer(0).error));
    assert Outcome(q) == Loop(q, 1, c, e);
    FirstAttempt(q.routing, q.start);
    LoopReaches(q, 1, c, e);
  }

  const CHANNEL_ERROR := ApiError("channel:no_available_key", 500, false, false)

  /** A request under these settings that the bound is reached with. */
  function Longest(r: Routing, start: nat): (q: Request)
    ensures AlwaysRetries(q) && Generous(q.routing) && SameParameters(r, q.routing) && q.start == start
  {
    assert CHANNEL_ERROR.code[..|CHANNEL_PREFIX|] == CHANNEL_PREFIX;
    assert CHANNEL_ERROR.code[0] != VIOLATION_PREFIX[0];
    Request(MadeGenerous(r), start, Policy(false, (n: nat) => false, (code: string) => false, (status: int) => true),
            true, 0, None, 0, (n: nat) => None, (n: nat) => None, (n: nat) => Failed(CHANNEL_ERROR),
            false, None, true, Served(0))
  }

  /** Main result: whatever channels there are and whatever the upstream answers, RetryTimes + 1 limits the
      attempts exactly if the choice does not move through groups, or there are no retries, or no second
      group is left. Cross-group retry makes no difference to that. */
  lemma WithinRetriesExactly(r: Routing, start: nat)
    requires r.retryTimes >= 0
    ensures (forall q: Request :: SameParameters(r, q.routing) && q.start == start ==>
               Outcome(q).attempts <= r.retryTimes + 1)
       <==> !r.auto || r.bound || r.retryTimes == 0 || start + 1 >= r.groups
  {
    hide Outcome;
    WhenWithinRetries(r, start);
    if MaxAttempts(r, start) <= r.retryTimes + 1 {
      forall q: Request | SameParameters(r, q.routing) && q.start == start
        ensures Outcome(q).attempts <= r.retryTimes + 1
      {
        AttemptsBounded(q);
        SameBound(r, q.routing, start);
      }
    } else {
      var q := Longest(r, start);
      AttemptsReached(q);
      SameBound(r, q.routing, start);
    }
  }

  /** Which answers were seen: all failures, except a last one that was served. */
  ghost predicate AllFailed(q: Request, n: nat) {
    forall k :: 0 <= k < n ==> q.answer(k).Failed?
  }

  lemma {:induction false} LoopEnds(q: Request, n: nat, c: Cursor, error: Option<ApiError>)
    requires if n == 0 then c.retry == 0 && !c.keep else AfterStep(q.routing, c)
    requires AllFailed(q, n)
    requires error == if n == 0 then None else Some(Normalize(q.answer(n - 1).error))
    ensures var run := Loop(q, n, c, error);
            && run.attempts >= n
            && !run.ending.Rejected?
            && (run.ending.Success? ==> run.error.None? && run.attempts > 0 && AllFailed(q, run.attempts - 1) &&
                                        q.answer(run.attempts - 1) == Served(run.ending.quota))
            && (!run.ending.Success? ==> AllFailed(q, run.attempts))
            && (run.ending.Stopped? ==> run.error.Some?)
            && (run.ending.Exhausted? ==> (run.error.Some? <==> run.attempts > 0))
            && (n == 0 && q.routing.retryTimes >= 0 && run.ending.Exhausted? ==> run.attempts > 0)
            && (run.ending.HandedOff? ==> q.async && run.attempts == n && run.error == error)
            && (n == 0 && q.async ==> run.attempts == 0)
    decreases n == 0, Left(q.routing, c)
  {
    if c.retry <= q.routing.retryTimes {
      GetChannelSpends(q.routing, q.setup, NO_CHANNEL, n, c);
      var (channelErr, d) := GetChannel(q.routing, q.setup, NO_CHANNEL, n, c);
      if channelErr.None? && q.body(n).None? && !q.async && q.answer(n).Failed? {
        LoopEnds(q, n + 1, Increased(d), Some(Normalize(q.answer(n).error)));
      }
    }
  }

  /** The outcome of a run is one of: rejected before anything was charged; served, by the last attempt and
      no other; failed, which is when the deferred refund sees an error, all attempts having failed; or
      handed off before any attempt and without an error. With RetryTimes < 0 it is none of these. */
  lemma RunEndsOnce(q: Request)
    ensures var run := Outcome(q);
            && (run.ending.Rejected? <==> !q.free && q.reserve.Some?)
            && (run.ending.Success? ==> run.error.None? && run.attempts > 0 && AllFailed(q, run.attempts - 1) &&
                                        q.answer(run.attempts - 1) == Served(run.ending.quota))
            && (!run.ending.Success? ==> AllFailed(q, run.attempts))
            && (run.error.Some? <==> run.ending.Rejected? || run.ending.Stopped? ||
                                     (run.ending.Exhausted? && q.routing.retryTimes >= 0))
            && (run.ending.HandedOff? ==> q.async && run.attempts == 0 && run.error.None?)
  {
    if q.free || q.reserve.None? { LoopEnds(q, 0, Cursor(q.start, 0, false), None); }
  }

  // ---------------------------------------------------------------- when a failure is tried again

  /** A failure after attempt j that is worth another attempt: not where channel affinity forbids it, never a
      content violation, always the channel's own error, and otherwise as the status and the settings say. */
  ghost predicate Worthwhile(p: Policy, j: nat, e: ApiError) {
    && !p.affinity(j) && !e.marked && !("violation_fee." <= e.code)
    && ("channel:" <= e.code ||
        (!e.skipRetry && !p.pinned && !(200 <= e.status < 300) &&
         (e.status < 100 || e.status > 599 || (!p.alwaysSkip(e.code) && p.retryStatus(e.status)))))
  }

  lemma PrefixMeans(s: string, prefix: string)
    ensures HasPrefix(s, prefix) <==> prefix <= s
  {
  }

  /** The decision, in these terms: with no retries left only a channel's own error is tried again. */
  lemma RetryDecision(p: Policy, j: nat, e: ApiError, left: int)
    ensures ShouldRetry(p, j, Normalize(e), left) <==> Worthwhile(p, j, e) && ("channel:" <= e.code || left > 0)
  {
    PrefixMeans(e.code, VIOLATION_PREFIX);
    PrefixMeans(e.code, CHANNEL_PREFIX);
    PrefixMeans(GROK_CSAM, CHANNEL_PREFIX);
    assert GROK_CSAM[0] != CHANNEL_PREFIX[0] && VIOLATION_PREFIX[0] != CHANNEL_PREFIX[0];
  }

  lemma {:induction false} LoopRetriesOnly(q: Request, n: nat, c: Cursor, error: Option<ApiError>, j: nat)
    requires if n == 0 then c.retry == 0 && !c.keep else AfterStep(q.routing, c)
    requires n <= j < Loop(q, n, c, error).attempts - 1
    ensures q.answer(j).Failed? && Worthwhile(q.policy, j, q.answer(j).error)
    decreases n == 0, Left(q.routing, c)
  {
    hide Worthwhile, ShouldRetry, Normalize;
    GetChannelSpends(q.routing, q.setup, NO_CHANNEL, n, c);
    var (channelErr, d) := GetChannel(q.routing, q.setup, NO_CHANNEL, n, c);
    var e := q.answer(n).error;
    if j == n {
      RetryDecision(q.policy, n, e, q.routing.retryTimes - d.retry);
    } else {
      LoopRetriesOnly(q, n + 1, Increased(d), Some(Normalize(e)), j);
    }
  }

  /** Whatever the routing, an attempt is only ever followed by another if it failed in a worthwhile way; so
      nothing is tried after a content violation. */
  lemma OnlyWorthwhileRetried(q: Request, j: nat)
    requires j < Outcome(q).attempts - 1
    ensures q.answer(j).Failed? && Worthwhile(q.policy, j, q.answer(j).error)
  {
    LoopRetriesOnly(q, 0, Cursor(q.start, 0, false), None, j);
  }

  /** What keeps the attempt after n others from being made, if anything does. */
  ghost function BlockedBy(q: Request, n: nat): Option<ApiError> {
    if n > 0 && !q.routing.bound && q.routing.lookup(n, 0, n) != Found then Some(NO_CHANNEL)
    else if n > 0 && q.setup(n).Some? then q.setup(n)
    else q.body(n)
  }

  /** How a run from its attempt n on ends, where the choice does not move through groups. */
  ghost predicate EndsProperly(q: Request, n: nat, run: Run) {
    var last := run.attempts - 1;
    && n <= run.attempts
    && (forall j :: n <= j < last ==> q.answer(j).Failed? && Worthwhile(q.policy, j, q.answer(j).error))
    && (run.ending.Stopped? ==>
          || (run.error.Some? && run.error == BlockedBy(q, run.attempts))
          || (last >= n && q.answer(last).Failed? && run.error == Some(Normalize(q.answer(last).error)) &&
              (!Worthwhile(q.policy, last, q.answer(last).error) ||
               (last == q.routing.retryTimes && !("channel:" <= q.answer(last).error.code)))))
    && (run.ending.Exhausted? ==>
          run.attempts == q.routing.retryTimes + 1 &&
          (last >= n ==> q.answer(last).Failed? && Worthwhile(q.policy, last, q.answer(last).error)
                         && "channel:" <= q.answer(last).error.code))
  }

  lemma {:induction false} LoopRetries(q: Request, n: nat, error: Option<ApiError>)
    requires !Moves(q.routing) && !q.async && n <= q.routing.retryTimes + 1
    ensures EndsProperly(q, n, Loop(q, n, Cursor(q.start, n, false), error))
    decreases q.routing.retryTimes + 1 - n
  {
    hide Left, ShouldRetry, Normalize, Worthwhile;
    if n <= q.routing.retryTimes {
      var c := Cursor(q.start, n, false);
      GetChannelSpends(q.routing, q.setup, NO_CHANNEL, n, c);
      if BlockedBy(q, n).None? && q.answer(n).Failed? {
        var e := q.answer(n).error;
        RetryDecision(q.policy, n, e, q.routing.retryTimes - n);
        if ShouldRetry(q.policy, n, Normalize(e), q.routing.retryTimes - n) {
          LoopRetries(q, n + 1, Some(Normalize(e)));
        }
      }
    }
  }

  /** Main result, unless groups are tried in turn: every attempt but the last failed in a worthwhile way; a run
      stops only where it cannot go on or at a failure that was not worthwhile, or that came at the last attempt
      and is not the channel's own; an exhausted one made all RetryTimes + 1 attempts. So while retries are left
      and the next attempt can be made, it is made exactly after a worthwhile failure. */
  lemma RetriesExactly(q: Request)
    requires !Moves(q.routing) && !q.async && (q.free || q.reserve.None?) && q.routing.retryTimes >= 0
    ensures EndsProperly(q, 0, Outcome(q))
    ensures forall j :: 0 <= j < Outcome(q).attempts && j < q.routing.retryTimes
                        && q.answer(j).Failed? && BlockedBy(q, j + 1).None? ==>
              (j + 1 < Outcome(q).attempts <==> Worthwhile(q.policy, j, q.answer(j).error))
  {
    hide Worthwhile, Normalize, Loop, BlockedBy;
    LoopRetries(q, 0, None);
    RunEndsOnce(q);
  }

  /** A request for the background is handed off exactly if its body can be read, before anything is tried. */
  lemma HandedOffExactly(q: Request)
    requires q.async && (q.free || q.reserve.None?) && q.routing.retryTimes >= 0
    ensures Outcome(q).ending.HandedOff? <==> q.body(0).None? && q.bytes.None?
    ensures Outcome(q).error == if q.body(0).Some? then q.body(0) else q.bytes
    ensures Outcome(q).attempts == 0
  {
  }

  // ---------------------------------------------------------------- what a run costs

  /** ChargeViolationFeeIfNeeded's condition, on a normalized error. */
  predicate Fined(e: ApiError) {
    e.code == GROK_CSAM || e.marked
  }

  /** What the user pays for a run and, if it was handed off, its continuation. */
  function Charged(q: Request, run: Run): int {
    match run.ending
    case Rejected => 0
    case Success(quota) => quota
    case HandedOff =>
      if q.inserted && q.executed.Served? then q.executed.quota else 0
    case _ =>
      if run.error.Some? then (if Fined(Normalize(run.error.value)) then q.fee else 0)
      else if q.free then 0 else q.price
  }

  /** The run, or the continuation of its hand-off, failed: the quota is given back. */
  predicate Refunded(q: Request, run: Run) {
    match run.ending
    case Rejected => false
    case Success(_) => false
    case HandedOff => !q.inserted || q.executed.Failed?
    case _ => run.error.Some?
  }

  /** What the user pays: the served quota of the last answer, what a background task used, the fee where the run
      ended with a content violation of one kind, or nothing; a price is kept only if the loop never ran. The
      quota is given back for every error after it was taken, and for a background task that failed. */
  lemma PaysExactly(q: Request)
    ensures var run := Outcome(q);
            && Charged(q, run) == (
                 if !q.free && q.reserve.Some? then 0
                 else if run.ending.HandedOff? then
                   (if q.inserted && q.executed.Served? then q.executed.quota else 0)
                 else if run.attempts > 0 && q.answer(run.attempts - 1).Served? then q.answer(run.attempts - 1).quota
                 else if run.error.Some? then
                   (if run.error.value.marked || run.error.value.code == "violation_fee.grok.csam" then q.fee else 0)
                 else if q.free then 0 else q.price)
            && (Refunded(q, run) <==>
                  && (q.free || q.reserve.None?)
                  && (run.error.Some? || (run.ending.HandedOff? && !(q.inserted && q.executed.Served?))))
  {
    RunEndsOnce(q);
  }

  /** Every request is served, refunded or rejected, exactly when RetryTimes is not negative: below
      zero the loop is skipped and the quota taken in advance is kept for nothing. */
  lemma KeptForNothing(q: Request)
    requires q.free || q.reserve.None?
    ensures var run := Outcome(q);
            (run.ending.Success? || run.ending.HandedOff? || Refunded(q, run)) <==> q.routing.retryTimes >= 0
    ensures q.routing.retryTimes < 0 ==> Charged(q, Outcome(q)) == if q.free then 0 else q.price
  {
    RunEndsOnce(q);
  }

  /** The background task's row. */
  class ImageTask {
    var stored: bool
    var status: string
    var progress: string

    constructor ()
      ensures !stored && status == "SUBMITTED" && progress == "0%"
    {
      stored, status, progress := false, "SUBMITTED", "0%";
    }

    /** runAsyncImageTask. */
    method Run(executed: Answer, account: Account)
      requires stored
      modifies this, account
      ensures stored && progress == "100%"
      ensures status == if executed.Served? then "SUCCESS" else "FAILURE"
      ensures account.wallet == old(account.wallet) + Settlement(old(account.session), executed)
      ensures account.token == old(account.token) + if account.playground then 0 else account.wallet - old(account.wallet)
      ensures account.refundCalls == old(account.refundCalls) +
                                     if executed.Failed? && old(account.session).Some? then 1 else 0
    {
      status, progress := "IN_PROGRESS", "1%";
      if executed.Failed? {
        account.Refund();
        status, progress := "FAILURE", "100%";
        return;
      }
      account.Settle(executed.quota);
      status, progress := "SUCCESS", "100%";
    }
  }

  /** What the wallet gains when a session that is still open ends with an answer. */
  function Settlement(session: Option<Session>, answer: Answer): int {
    match session
    case None => if answer.Served? then -answer.quota else 0
    case Some(s) =>
      if s.settled then 0
      else if answer.Served? then s.consumed - answer.quota
      else if s.refunded then 0 else s.consumed
  }

  /** submitAsyncImageTask, with the task it starts. */
  method SubmitAsyncImageTask(q: Request, account: Account) returns (task: ImageTask)
    modifies account
    ensures fresh(task)
    ensures account.token == old(account.token) + if account.playground then 0 else account.wallet - old(account.wallet)
    ensures var answer := if q.inserted then q.executed else Failed(NO_CHANNEL);
            && account.wallet == old(account.wallet) + Settlement(old(account.session), answer)
            && account.refundCalls == old(account.refundCalls) +
                                      if answer.Failed? && old(account.session).Some? then 1 else 0
    ensures task.stored == q.inserted
    ensures task.stored ==> task.progress == "100%"
    ensures task.stored ==> task.status == if q.executed.Served? then "SUCCESS" else "FAILURE"
  {
    task := new ImageTask();
    if !q.inserted {
      account.Refund();
      return;
    }
    task.stored := true;
    task.Run(q.executed, account);
  }

  /** Relay, from the billing on. */
  method Relay(q: Request, account: Account) returns (run: Run)
    requires account.session.None?
    modifies account
    ensures run == Outcome(q)
    ensures account.wallet == old(account.wallet) - Charged(q, run)
    ensures account.token == old(account.token) + if account.playground then 0 else account.wallet - old(account.wallet)
    ensures account.refundCalls == old(account.refundCalls) + if Refunded(q, run) && !q.free then 1 else 0
  {
    if !q.free {
      if q.reserve.Some? {
        return Run(Rejected, q.reserve, 0);
      }
      account.PreConsume(q.price);
    }
    ghost var wallet := account.wallet;
    var param := new RetryParam(q.start);
    run := Try(q, account, param);
    if run.error.Some? {
      var e := Normalize(run.error.value);
      account.Refund();
      if Fined(e) {
        account.Charge(q.fee);
      }
    }
    RunEndsOnce(q);
  }

  /** The relay loop. */
  method Try(q: Request, account: Account, param: RetryParam) returns (run: Run)
    requires param.At() == Cursor(q.start, 0, false)
    modifies account, param
    ensures run == Loop(q, 0, Cursor(q.start, 0, false), None)
    ensures account.token == old(account.token) + if account.playground then 0 else account.wallet - old(account.wallet)
    ensures match run.ending
            case Success(quota) =>
              && account.wallet == old(account.wallet) + Settlement(old(account.session), Served(quota))
              && account.refundCalls == old(account.refundCalls)
            case HandedOff =>
              var answer := if q.inserted then q.executed else Failed(NO_CHANNEL);
              && account.wallet == old(account.wallet) + Settlement(old(account.session), answer)
              && account.refundCalls == old(account.refundCalls) +
                                        if answer.Failed? && old(account.session).Some? then 1 else 0
            case _ =>
              && account.wallet == old(account.wallet)
              && account.session == old(account.session)
              && account.refundCalls == old(account.refundCalls)
  {
    hide GetChannel, Left, ShouldRetry, Normalize;
    var n := 0;
    var error: Option<ApiError> := None;
    var start := Cursor(q.start, 0, false);
    while param.retry <= q.routing.retryTimes
      invariant if n == 0 then param.At() == start && error.None? else AfterStep(q.routing, param.At())
      invariant Loop(q, 0, start, None) == Loop(q, n, param.At(), error)
      invariant unchanged(account)
      decreases n == 0, Left(q.routing, param.At())
    {
      GetChannelSpends(q.routing, q.setup, NO_CHANNEL, n, param.At());
      var failure := ObtainChannel(param, q.routing, q.setup, NO_CHANNEL, n);
      if failure.Some? {
        return Run(Stopped, failure, n);
      }
      if q.body(n).Some? {
        return Run(Stopped, q.body(n), n);
      }
      if q.async {
        if q.bytes.Some? {
          return Run(Stopped, q.bytes, n);
        }
        var task := SubmitAsyncImageTask(q, account);
        return Run(HandedOff, error, n);
      }
      var answer := q.answer(n);
      if answer.Served? {
        account.Settle(answer.quota);
        return Run(Success(answer.quota), None, n + 1);
      }
      error := Some(Normalize(answer.error));
      n := n + 1;
      if !ShouldRetry(q.policy, n - 1, error.value, q.routing.retryTimes - param.retry) {
        return Run(Stopped, error, n);
      }
      param.IncreaseRetry();
    }
    return Run(Exhausted, error, n);
  }
}
