/**
 The relay loop for asynchronous upstream tasks (controller/relay.go, RelayTask): the first submission
 that gets so far takes the quota in advance, and the end of the run settles it or gives it back.
 */
module RelayTask {
  import opened Options
  import opened ChannelSelect
  import opened Billing

  const TOO_MANY_REQUESTS := 429
  const NO_CHANNEL := TaskError(500, true)

  datatype TaskError = TaskError(status: int, local: bool)

  datatype Submission = Accepted(quota: int) | Declined(error: TaskError)

  datatype Policy = Policy(pinned: bool, affinity: nat -> bool, skipStatus: int -> bool)

  /**
   A request and what every step of every attempt will answer: setting the channel up, reading the body,
   preparing the submission, taking the quota in advance, and submitting. A locked channel makes the
   routing bound.
   */
  datatype Request = Request(
    routing: Routing, start: nat, policy: Policy,
    setup: nat -> Option<TaskError>, body: nat -> Option<TaskError>, prepare: nat -> Option<TaskError>,
    free: nat -> bool, price: nat -> nat, reserve: nat -> Option<TaskError>, submit: nat -> Submission)

  /** shouldRetryTaskRelay; Go's / truncates towards zero. */
  predicate ShouldRetryTask(p: Policy, attempt: nat, e: TaskError, retryTimes: int) {
    if p.affinity(attempt) then false
    else if retryTimes <= 0 then false
    else if p.pinned then false
    else if e.status == TOO_MANY_REQUESTS then true
    else if e.status == 307 then true
    else if 500 <= e.status <= 599 then !p.skipStatus(e.status)
    else if e.status == 400 then false
    else if e.status == 408 then false
    else if e.local then false
    else if 200 <= e.status <= 299 then false
    else true
  }

  /** RelayTaskSubmit's answer, and whether it opens a billing session. */
  function Submit(q: Request, n: nat, billed: bool): (Submission, bool) {
    if q.prepare(n).Some? then (Declined(q.prepare(n).value), false)
    else if !billed && !q.free(n) then
      if q.reserve(n).Some? then (Declined(q.reserve(n).value), false) else (q.submit(n), true)
    else (q.submit(n), false)
  }

  /** The variables at the end of the loop: `error`, `result`, whether a session is open. */
  datatype Run = Run(error: Option<TaskError>, result: Option<int>, attempts: nat, billed: bool)

  function Loop(q: Request, n: nat, c: Cursor, error: Option<TaskError>, billed: bool): Run
    requires if n == 0 then c.retry == 0 && !c.keep else AfterStep(q.routing, c)
    decreases n == 0, Left(q.routing, c)
  {
    if c.retry > q.routing.retryTimes then Run(error, None, n, billed)
    else
      var (channelErr, d) := GetChannel(q.routing, q.setup, NO_CHANNEL, n, c);
      if channelErr.Some? then Run(channelErr, None, n, billed)
      else if q.body(n).Some? then Run(q.body(n), None, n, billed)
      else
        var (answer, opens) := Submit(q, n, billed);
        match answer
        case Accepted(quota) => Run(None, Some(quota), n + 1, billed || opens)
        case Declined(e) =>
          if !ShouldRetryTask(q.policy, n, e, q.routing.retryTimes - d.retry) then
            Run(Some(e), None, n + 1, billed || opens)
          else
            GetChannelSpends(q.routing, q.setup, NO_CHANNEL, n, c);
            Loop(q, n + 1, Increased(d), Some(e), billed || opens)
  }

  function Outcome(q: Request): Run {
    Loop(q, 0, Cursor(q.start, 0, false), None, false)
  }

  lemma {:induction false} LoopEnds(q: Request, n: nat, c: Cursor, error: Option<TaskError>, billed: bool)
    requires if n == 0 then c.retry == 0 && !c.keep else AfterStep(q.routing, c)
    requires error.None? <==> n == 0
    ensures var run := Loop(q, n, c, error, billed);
            && run.attempts >= n && (billed ==> run.billed)
            && (run.result.Some? ==> run.attempts > n && q.submit(run.attempts - 1) == Accepted(run.result.value))
            && (run.error.Some? ==> run.result.None?)
            && (run.error.None? && run.result.None? <==> n == 0 && q.routing.retryTimes < 0)
            && (forall k :: n <= k < run.attempts - 1 && q.prepare(k).None? && q.reserve(k).None? ==>
                  q.submit(k).Declined?)
    decreases n == 0, Left(q.routing, c)
  {
    if c.retry <= q.routing.retryTimes {
      GetChannelSpends(q.routing, q.setup, NO_CHANNEL, n, c);
      var (channelErr, d) := GetChannel(q.routing, q.setup, NO_CHANNEL, n, c);
      if channelErr.None? && q.body(n).None? {
        var (answer, opens) := Submit(q, n, billed);
        if answer.Declined? { LoopEnds(q, n + 1, Increased(d), Some(answer.error), billed || opens); }
      }
    }
  }

  /** A run with RetryTimes >= 0 ends with a result, that of the last submission and the only one the
      upstream accepted, or with an error, never both and never neither. Below zero it ends with neither,
      and the settlement that follows dereferences a nil result. */
  lemma RunEndsOnce(q: Request)
    ensures var run := Outcome(q);
            && (q.routing.retryTimes >= 0 ==> (run.result.Some? <==> run.error.None?))
            && (q.routing.retryTimes < 0 ==> run == Run(None, None, 0, false))
            && (run.result.Some? ==> run.attempts > 0 && q.submit(run.attempts - 1) == Accepted(run.result.value))
            && (forall k :: 0 <= k < run.attempts - 1 && q.prepare(k).None? && q.reserve(k).None? ==>
                  q.submit(k).Declined?)
  {
    LoopEnds(q, 0, Cursor(q.start, 0, false), None, false);
  }

  lemma {:induction false} LoopAttempts(q: Request, n: nat, c: Cursor, error: Option<TaskError>, billed: bool)
    requires n > 0 && AfterStep(q.routing, c)
    ensures Loop(q, n, c, error, billed).attempts <= n + Left(q.routing, c)
    decreases Left(q.routing, c)
  {
    if c.retry <= q.routing.retryTimes {
      GetChannelSpends(q.routing, q.setup, NO_CHANNEL, n, c);
      var (channelErr, d) := GetChannel(q.routing, q.setup, NO_CHANNEL, n, c);
      if channelErr.None? && q.body(n).None? {
        var (answer, opens) := Submit(q, n, billed);
        if answer.Declined? { LoopAttempts(q, n + 1, Increased(d), Some(answer.error), billed || opens); }
      }
    }
  }

  lemma AttemptsBounded(q: Request)
    ensures Outcome(q).attempts <= if q.routing.retryTimes >= 0 then MaxAttempts(q.routing, q.start) else 0
  {
    if q.routing.retryTimes >= 0 {
      FirstAttempt(q.routing, q.start);
      var (answer, opens) := Submit(q, 0, false);
      if answer.Declined? { LoopAttempts(q, 1, Cursor(q.start, 1, false), Some(answer.error), opens); }
    }
  }

  // ---------------------------------------------------------------- when a failure is tried again, and what it holds

  /** A failure after attempt j that is worth another attempt. */
  ghost predicate Worthwhile(p: Policy, j: nat, e: TaskError) {
    && !p.affinity(j) && !p.pinned
    && (|| e.status == 429 || e.status == 307
        || (500 <= e.status <= 599 && !p.skipStatus(e.status))
        || (!e.local && e.status != 400 && e.status != 408 && !(200 <= e.status <= 299) && !(500 <= e.status <= 599)))
  }

  lemma RetryDecision(p: Policy, j: nat, e: TaskError, left: int)
    ensures ShouldRetryTask(p, j, e, left) <==> Worthwhile(p, j, e) && left > 0
  {
  }

  /** Attempt k gets as far as taking the quota, if none was taken before. */
  ghost predicate Opens(q: Request, k: nat) {
    q.prepare(k).None? && !q.free(k) && q.reserve(k).None?
  }

  /** Some attempt before n did. */
  ghost predicate Opened(q: Request, n: nat) {
    exists k :: 0 <= k < n && Opens(q, k)
  }

  /** Why attempt j fails, if it does; quota is asked for only while none was taken. */
  ghost function FailureOf(q: Request, j: nat): Option<TaskError> {
    if q.prepare(j).Some? then q.prepare(j)
    else if !q.free(j) && q.reserve(j).Some? && !Opened(q, j) then q.reserve(j)
    else if q.submit(j).Declined? then Some(q.submit(j).error)
    else None
  }

  lemma SubmitMeans(q: Request, n: nat)
    ensures var (answer, opens) := Submit(q, n, Opened(q, n));
            && (Opened(q, n) || opens <==> Opened(q, n + 1))
            && (opens <==> Opens(q, n) && !Opened(q, n))
            && (answer.Declined? <==> FailureOf(q, n).Some?)
            && (answer.Declined? ==> Some(answer.error) == FailureOf(q, n))
            && (answer.Accepted? ==> q.submit(n) == answer)
  {
    if k :| 0 <= k < n && Opens(q, k) {
      assert Opened(q, n + 1);
    }
    if Opens(q, n) {
      assert Opened(q, n + 1);
    }
  }

  lemma {:induction false} LoopRetriesOnly(q: Request, n: nat, c: Cursor, error: Option<TaskError>)
    requires if n == 0 then c.retry == 0 && !c.keep else AfterStep(q.routing, c)
    ensures var run := Loop(q, n, c, error, Opened(q, n));
            && n <= run.attempts && (run.billed <==> Opened(q, run.attempts))
            && (forall j :: n <= j < run.attempts - 1 ==>
                  FailureOf(q, j).Some? && Worthwhile(q.policy, j, FailureOf(q, j).value))
            && (run.result.Some? ==> run.attempts > n && FailureOf(q, run.attempts - 1).None?)
    decreases n == 0, Left(q.routing, c)
  {
    hide Worthwhile, ShouldRetryTask, Submit, Opened, FailureOf;
    if c.retry <= q.routing.retryTimes {
      GetChannelSpends(q.routing, q.setup, NO_CHANNEL, n, c);
      SubmitMeans(q, n);
      var (channelErr, d) := GetChannel(q.routing, q.setup, NO_CHANNEL, n, c);
      var answer := Submit(q, n, Opened(q, n)).0;
      if channelErr.None? && q.body(n).None? && answer.Declined? {
        RetryDecision(q.policy, n, answer.error, q.routing.retryTimes - d.retry);
        LoopRetriesOnly(q, n + 1, Increased(d), Some(answer.error));
      }
    }
  }

  lemma NoneOpened(q: Request)
    ensures !Opened(q, 0)
  {
  }

  /** Whatever the routing: an attempt is only ever followed by another if it failed in a worthwhile way, and a
      session is open in the end exactly if some attempt got as far as taking the quota. */
  lemma OnlyWorthwhileRetried(q: Request)
    ensures var run := Outcome(q);
            && (run.billed <==> exists k :: 0 <= k < run.attempts && Opens(q, k))
            && (forall j :: 0 <= j < run.attempts - 1 ==>
                  FailureOf(q, j).Some? && Worthwhile(q.policy, j, FailureOf(q, j).value))
            && (run.result.Some? ==> run.attempts > 0 && FailureOf(q, run.attempts - 1).None?)
  {
    hide Worthwhile, FailureOf, Loop;
    NoneOpened(q);
    LoopRetriesOnly(q, 0, Cursor(q.start, 0, false), None);
  }

  /** What keeps the attempt after n others from being made, if anything does. */
  ghost function BlockedBy(q: Request, n: nat): Option<TaskError> {
    if n > 0 && !q.routing.bound && q.routing.lookup(n, 0, n) != Found then Some(NO_CHANNEL)
    else if n > 0 && q.setup(n).Some? then q.setup(n)
    else q.body(n)
  }

  lemma {:induction false} LoopRetries(q: Request, n: nat, error: Option<TaskError>)
    requires !Moves(q.routing) && n <= q.routing.retryTimes
    ensures var run := Loop(q, n, Cursor(q.start, n, false), error, Opened(q, n));
            var last := run.attempts - 1;
            run.error.Some? ==>
              || run.error == BlockedBy(q, run.attempts)
              || (last >= n && run.error == FailureOf(q, last) &&
                  (!Worthwhile(q.policy, last, run.error.value) || last == q.routing.retryTimes))
    decreases q.routing.retryTimes - n
  {
    hide Left, Worthwhile, ShouldRetryTask, Submit, Opened, FailureOf;
    var c := Cursor(q.start, n, false);
    GetChannelSpends(q.routing, q.setup, NO_CHANNEL, n, c);
    SubmitMeans(q, n);
    if BlockedBy(q, n).None? {
      var answer := Submit(q, n, Opened(q, n)).0;
      if answer.Declined? {
        RetryDecision(q.policy, n, answer.error, q.routing.retryTimes - n);
        if ShouldRetryTask(q.policy, n, answer.error, q.routing.retryTimes - n) {
          LoopRetries(q, n + 1, Some(answer.error));
        }
      }
    }
  }

  /** Main result, unless groups are tried in turn: a run ends in an error only where it cannot go on, or with a
      failure that was not worthwhile or came at the last attempt. So while retries are left and the next attempt
      can be made, it is made exactly after a worthwhile failure. */
  lemma RetriesExactly(q: Request)
    requires !Moves(q.routing) && q.routing.retryTimes >= 0
    ensures var run := Outcome(q);
            var last := run.attempts - 1;
            run.error.Some? ==>
              || run.error == BlockedBy(q, run.attempts)
              || (last >= 0 && run.error == FailureOf(q, last) &&
                  (!Worthwhile(q.policy, last, run.error.value) || last == q.routing.retryTimes))
    ensures forall j :: 0 <= j < Outcome(q).attempts && j < q.routing.retryTimes
                        && FailureOf(q, j).Some? && BlockedBy(q, j + 1).None? ==>
              (j + 1 < Outcome(q).attempts <==> Worthwhile(q.policy, j, FailureOf(q, j).value))
  {
    hide Worthwhile, FailureOf, Loop, BlockedBy;
    NoneOpened(q);
    LoopRetries(q, 0, None);
    OnlyWorthwhileRetried(q);
    RunEndsOnce(q);
  }

  const OVERLOADED := TaskError(TOO_MANY_REQUESTS, false)

  /** Every step up to the submission works, and the upstream is always too busy. */
  ghost predicate AlwaysBusy(q: Request) {
    && (forall k :: q.setup(k).None? && q.body(k).None? && q.prepare(k).None? && q.free(k))
    && (forall k :: q.submit(k) == Declined(OVERLOADED) && !q.policy.affinity(k))
    && !q.policy.pinned
  }

  lemma {:induction false} LoopReaches(q: Request, n: nat, c: Cursor, error: Option<TaskError>, billed: bool)
    requires n > 0 && AfterStep(q.routing, c) && AlwaysBusy(q)
    requires Generous(q.routing) && (c.retry > 0 || q.routing.crossGroup || !q.routing.auto)
    requires c.retry > 0 || q.routing.retryTimes > 0
    ensures Loop(q, n, c, error, billed).attempts == n + Left(q.routing, c)
    decreases Left(q.routing, c)
  {
    if Left(q.routing, c) > 0 {
      if !q.routing.bound { SelectSpendsOne(q.routing, n, c); }
      GetChannelSpends(q.routing, q.setup, NO_CHANNEL, n, c);
      var d := GetChannel(q.routing, q.setup, NO_CHANNEL, n, c).1;
      var next := Increased(d);
      if Left(q.routing, next) > 0 {
        assert ShouldRetryTask(q.policy, n, OVERLOADED, q.routing.retryTimes - d.retry);
        LoopReaches(q, n + 1, next, Some(OVERLOADED), billed);
      } else {
        LoopAttempts(q, n + 1, next, Some(OVERLOADED), billed);
      }
    } else {
      LoopAttempts(q, n, c, error, billed);
    }
  }

  /** The bound is exact: an upstream that is always too busy uses it up where channels last. */
  lemma AttemptsReached(q: Request)
    requires q.routing.retryTimes >= 0 && AlwaysBusy(q) && Generous(q.routing)
    ensures Outcome(q).attempts == MaxAttempts(q.routing, q.start)
  {
    FirstAttempt(q.routing, q.start);
    if q.routing.retryTimes > 0 {
      var c := Cursor(q.start, 1, false);
      assert Outcome(q) == Loop(q, 1, c, Some(OVERLOADED), false);
      LoopReaches(q, 1, c, Some(OVERLOADED), false);
    }
  }

  /** A request under these settings that the bound is reached with. */
  function Longest(r: Routing, start: nat): (q: Request)
    ensures AlwaysBusy(q) && Generous(q.routing) && SameParameters(r, q.routing) && q.start == start
  {
    Request(MadeGenerous(r), start, Policy(false, (n: nat) => false, (status: int) => false),
            (n: nat) => None, (n: nat) => None, (n: nat) => None, (n: nat) => true, (n: nat) => 0,
            (n: nat) => None, (n: nat) => Declined(OVERLOADED))
  }

  /** Main result: RetryTimes + 1 limits the attempts under exactly the conditions of the other relay loop. */
  lemma WithinRetriesExactly(r: Routing, start: nat)
    requires r.retryTimes >= 0
    ensures (forall q: Request :: SameParameters(r, q.routing) && q.start == start ==>
               Outcome(q).attempts <= r.retryTimes + 1)
       <==> !r.auto || r.bound || r.retryTimes == 0 || start + 1 >= r.groups
  {
    hide Outcome;
    WhenWithinRetries(r, start);
    if MaxAttempts(r, start) <= r.retryTimes + 1 {
      forall q: Request | SameParameters(r, q.routing) && q.start == start
        ensures Outcome(q).attempts <= r.retryTimes + 1
      {
        AttemptsBounded(q);
        SameBound(r, q.routing, start);
      }
    } else {
      var q := Longest(r, start);
      AttemptsReached(q);
      SameBound(r, q.routing, start);
    }
  }

  // ---------------------------------------------------------------- settling

  /** RelayTaskSubmit on the account. */
  method RelayTaskSubmit(q: Request, n: nat, account: Account) returns (answer: Submission)
    modifies account
    ensures var (a, opens) := Submit(q, n, old(account.session).Some?);
            && answer == a
            && account.session == (if opens then Some(Session(q.price(n), false, false)) else old(account.session))
            && account.wallet == old(account.wallet) - if opens then q.price(n) else 0
    ensures account.token == old(account.token) + if account.playground then 0 else account.wallet - old(account.wallet)
    ensures account.refundCalls == old(account.refundCalls) && account.settleCalls == old(account.settleCalls)
  {
    if q.prepare(n).Some? {
      return Declined(q.prepare(n).value);
    }
    if account.session.None? && !q.free(n) {
      if q.reserve(n).Some? {
        return Declined(q.reserve(n).value);
      }
      account.PreConsume(q.price(n));
    }
    return q.submit(n);
  }

  /** What is outstanding: the wallet has paid what an open session holds, and nothing else. */
  ghost predicate Outstanding(account: Account, wallet: int, billed: bool)
    reads account
  {
    && (account.session.Some? <==> billed)
    && (account.session.Some? ==> !account.session.value.settled && !account.session.value.refunded)
    && account.wallet == wallet - if account.session.Some? then account.session.value.consumed else 0
  }

  /** The open session holds the price of the first attempt that took quota. */
  ghost predicate Holds(q: Request, k: nat, account: Account)
    reads account
  {
    Opens(q, k) && !Opened(q, k) && account.session.Some? && account.session.value.consumed == q.price(k)
  }

  /** The loop of RelayTask. */
  method Try(q: Request, account: Account, param: RetryParam) returns (run: Run)
    requires param.At() == Cursor(q.start, 0, false) && account.session.None?
    modifies account, param
    ensures run == Outcome(q)
    ensures Outstanding(account, old(account.wallet), run.billed)
    ensures run.billed ==> exists k :: 0 <= k < run.attempts && Holds(q, k, account)
    ensures account.token == old(account.token) + if account.playground then 0 else account.wallet - old(account.wallet)
    ensures account.refundCalls == old(account.refundCalls) && account.settleCalls == old(account.settleCalls)
  {
    hide GetChannel, Left, ShouldRetryTask, Opens, Opened;
    NoneOpened(q);
    ghost var holder := 0;
    var n := 0;
    var error: Option<TaskError> := None;
    var start := Cursor(q.start, 0, false);
    while param.retry <= q.routing.retryTimes
      invariant if n == 0 then param.At() == start else AfterStep(q.routing, param.At())
      invariant Outcome(q) == Loop(q, n, param.At(), error, account.session.Some?)
      invariant Outstanding(account, old(account.wallet), account.session.Some?)
      invariant account.session.Some? <==> Opened(q, n)
      invariant account.session.Some? ==> 0 <= holder < n && Holds(q, holder, account)
      invariant account.token == old(account.token) + if account.playground then 0 else account.wallet - old(account.wallet)
      invariant account.refundCalls == old(account.refundCalls) && account.settleCalls == old(account.settleCalls)
      decreases n == 0, Left(q.routing, param.At())
    {
      GetChannelSpends(q.routing, q.setup, NO_CHANNEL, n, param.At());
      var failure := ObtainChannel(param, q.routing, q.setup, NO_CHANNEL, n);
      assert account.session.Some? ==> Holds(q, holder, account);
      if failure.Some? {
        return Run(failure, None, n, account.session.Some?);
      }
      if q.body(n).Some? {
        return Run(q.body(n), None, n, account.session.Some?);
      }
      SubmitMeans(q, n);
      if !Opened(q, n) { holder := n; }
      var answer := RelayTaskSubmit(q, n, account);
      n := n + 1;
      assert account.session.Some? ==> holder < n && Holds(q, holder, account);
      if answer.Accepted? {
        return Run(None, Some(answer.quota), n, account.session.Some?);
      }
      error := Some(answer.error);
      if !ShouldRetryTask(q.policy, n - 1, answer.error, q.routing.retryTimes - param.retry) {
        return Run(error, None, n, account.session.Some?);
      }
      param.IncreaseRetry();
    }
    return Run(error, None, n, account.session.Some?);
  }

  /** RelayTask, from the loop on: the user pays exactly for an accepted task, settled once and not
      refunded, or nothing, refunded once if a session was opened and not settled. With a negative
      RetryTimes there is neither; `crashed` stands for the nil dereference. */
  method RelayTask(q: Request, account: Account) returns (run: Run, crashed: bool)
    requires account.session.None?
    modifies account
    ensures run == Outcome(q)
    ensures crashed <==> q.routing.retryTimes < 0
    ensures account.wallet == old(account.wallet) - if run.result.Some? then run.result.value else 0
    ensures account.token == old(account.token) + if account.playground then 0 else account.wallet - old(account.wallet)
    ensures account.settleCalls == old(account.settleCalls) + if run.result.Some? then 1 else 0
    ensures account.refundCalls == old(account.refundCalls) + if run.error.Some? && run.billed then 1 else 0
  {
    var param := new RetryParam(q.start);
    run := Try(q, account, param);
    crashed := false;
    RunEndsOnce(q);
    if run.error.None? {
      if run.result.None? {
        crashed := true;
        return;
      }
      account.Settle(run.result.value);
    }
    if run.error.Some? {
      account.Refund();
    }
  }
}
