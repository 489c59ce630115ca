/**
 The Midjourney poller (controller/midjourney.go, UpdateMidjourneyTaskBulk): several instances of the
 gateway poll the same unfinished task, each from its own, possibly stale, copy of the row, and write
 it back under a compare-and-set on the status. One task is modelled; pollers are numbered.
 */
module Midjourney {
  import opened Options

  const DONE := "100%"
  const FAILURE := "FAILURE"
  const OVERDUE := "upstream task timed out (more than one hour)"
  const MAX_MILLISECONDS := 3600000

  /** A row of the midjourney table, also the copy of it a poller works on. */
  datatype Row = Row(
    code: int, progress: string, promptEn: string, state: string, submitTime: int, startTime: int,
    finishTime: int, imageUrl: string, status: string, failReason: string, properties: string,
    buttons: string, videoUrl: string, videoUrls: string, quota: int)

  /** An item of the upstream's answer; structured fields are in marshalled form, no videos are "". */
  datatype Response = Response(
    progress: string, promptEn: string, state: string, submitTime: int, startTime: int,
    finishTime: int, imageUrl: string, status: string, failReason: string, properties: Option<string>,
    buttons: Option<string>, videoUrl: string, videoUrls: string)

  // ---------------------------------------------------------------- one item

  predicate Overdue(task: Row, now: int) {
    now - task.submitTime > MAX_MILLISECONDS && task.progress != DONE
  }

  /** The item as the poller reads it: an overdue task has failed whatever the upstream says. */
  function Read(task: Row, item: Response, now: int): Response {
    if Overdue(task, now) then item.(failReason := OVERDUE, status := FAILURE) else item
  }

  /** checkMjTaskNeedUpdate. */
  predicate NeedsUpdate(task: Row, item: Response) {
    || task.code != 1
    || task.progress != item.progress
    || task.promptEn != item.promptEn
    || task.state != item.state
    || task.submitTime != item.submitTime
    || task.startTime != item.startTime
    || task.finishTime != item.finishTime
    || task.imageUrl != item.imageUrl
    || task.status != item.status
    || task.failReason != item.failReason
    || (task.progress != DONE && item.failReason != "")
    || task.videoUrl != item.videoUrl
    || task.videoUrls != item.videoUrls
  }

  /** The items that make the poller give the quota back. */
  predicate Refunds(item: Response) {
    (item.progress != DONE && item.failReason != "") || (item.progress == DONE && item.status == FAILURE)
  }

  /** The row an item asks for. */
  function Applied(task: Row, item: Response): Row {
    Row(
      1, if Refunds(item) then DONE else item.progress, item.promptEn, item.state, item.submitTime, item.startTime,
      item.finishTime, item.imageUrl, item.status, item.failReason,
      if item.properties.Some? then item.properties.value else task.properties,
      if item.buttons.Some? then item.buttons.value else task.buttons,
      item.videoUrl, item.videoUrls, task.quota)
  }

  datatype Outcome = Outcome(row: Row, task: Row, refunded: bool)

  /** An item processed by a poller whose copy is `task` while the table holds `row`. */
  function Poll(row: Row, task: Row, item: Response, now: int): Outcome {
    var read := Read(task, item, now);
    if !NeedsUpdate(task, read) then Outcome(row, task, false)
    else
      var next := Applied(task, read);
      if row.status == task.status then Outcome(next, next, Refunds(read) && task.quota != 0)
      else Outcome(row, next, false)
  }

  /** The database: the task's row and its owner's quota. */
  class Store {
    var row: Row
    var userQuota: int

    method UpdateWithStatus(next: Row, from: string) returns (won: bool)
      modifies this`row
      ensures won <==> old(row.status) == from
      ensures row == if won then next else old(row)
    {
      won := row.status == from;
      if won {
        row := next;
      }
    }

    method IncreaseUserQuota(quota: int)
      modifies this`userQuota
      ensures userQuota == old(userQuota) + quota
    {
      userQuota := userQuota + quota;
    }
  }

  /** A poller's copy of the task. */
  class Task {
    var copy: Row

    /** The fields an item carries; progress is not yet settled. */
    method Overwrite(item: Response)
      modifies this
      ensures copy == Applied(old(copy), item).(progress := item.progress)
    {
      hide Refunds;
      copy := copy.(
        code := 1, progress := item.progress, promptEn := item.promptEn, state := item.state,
        submitTime := item.submitTime, startTime := item.startTime, finishTime := item.finishTime,
        imageUrl := item.imageUrl, status := item.status, failReason := item.failReason);
      if item.properties.Some? {
        copy := copy.(properties := item.properties.value);
      }
      if item.buttons.Some? {
        copy := copy.(buttons := item.buttons.value);
      }
      copy := copy.(videoUrl := item.videoUrl, videoUrls := item.videoUrls);
    }

    /** The body of the poller's loop over the answer. Only the winner of the compare-and-set pays. */
    method Process(response: Response, now: int, store: Store) returns (refunded: bool)
      modifies this, store
      ensures var o := Poll(old(store.row), old(copy), response, now);
              store.row == o.row && copy == o.task && refunded == o.refunded
      ensures store.userQuota == old(store.userQuota) + if refunded then old(copy.quota) else 0
      ensures refunded ==> old(store.row.status) == old(copy.status)
    {
      hide NeedsUpdate;
      var item := response;
      refunded := false;
      if now - copy.submitTime > MAX_MILLISECONDS && copy.progress != DONE {
        item := item.(failReason := OVERDUE, status := FAILURE);
      }
      if !NeedsUpdate(copy, item) {
        return;
      }
      var preStatus := copy.status;
      Overwrite(item);
      var shouldReturnQuota := false;
      if (copy.progress != DONE && item.failReason != "") || (copy.progress == DONE && copy.status == FAILURE) {
        copy := copy.(progress := DONE);
        if copy.quota != 0 {
          shouldReturnQuota := true;
        }
      }
      assert copy == Applied(old(copy), item);
      var won := store.UpdateWithStatus(copy, preStatus);
      if won && shouldReturnQuota {
        store.IncreaseUserQuota(copy.quota);
        refunded := true;
      }
    }
  }

  /** A poll is skipped exactly when it reports the same progress and would change nothing of the task but
      its properties and buttons: a change in those alone is never stored. */
  lemma SkippedExactlyWhenUnchanged(task: Row, item: Response)
    ensures !NeedsUpdate(task, item) <==>
            && item.progress == task.progress
            && Applied(task, item).(properties := task.properties, buttons := task.buttons) == task
  {
    var next := Applied(task, item);
    if item.progress == task.progress && item.progress != DONE && item.failReason != "" {
      assert next.progress != task.progress;
    }
  }

  /** More than an hour old and not finished. */
  ghost predicate TooOld(task: Row, now: int) {
    now - task.submitTime > 3600000 && task.progress != "100%"
  }

  /** Asks for the quota to be given back: overdue, not finished with a reason to fail, or finished as failed. */
  ghost predicate AsksForRefund(task: Row, item: Response, now: int) {
    || TooOld(task, now)
    || (item.progress != "100%" && item.failReason != "")
    || (item.progress == "100%" && item.status == "FAILURE")
  }

  /** Main result: what one poll stores, field by field, and when it pays. Nothing but the winner of the
      compare-and-set changes the row, and it pays exactly if the poll asked for a refund of some quota. */
  lemma PollStores(row: Row, task: Row, item: Response, now: int)
    ensures var o, late, asked := Poll(row, task, item, now), TooOld(task, now), AsksForRefund(task, item, now);
            NeedsUpdate(task, Read(task, item, now)) ==>
            && o.row == (if row.status == task.status then o.task else row)
            && (o.refunded <==> row.status == task.status && asked && task.quota != 0)
            && o.task.code == 1 && o.task.progress == (if asked then "100%" else item.progress)
            && o.task.promptEn == item.promptEn && o.task.state == item.state
            && o.task.submitTime == item.submitTime && o.task.startTime == item.startTime
            && o.task.finishTime == item.finishTime && o.task.imageUrl == item.imageUrl
            && o.task.status == (if late then "FAILURE" else item.status)
            && o.task.failReason == (if late then OVERDUE else item.failReason)
            && o.task.properties == (if item.properties.Some? then item.properties.value else task.properties)
            && o.task.buttons == (if item.buttons.Some? then item.buttons.value else task.buttons)
            && o.task.videoUrl == item.videoUrl && o.task.videoUrls == item.videoUrls
            && o.task.quota == task.quota
    ensures !NeedsUpdate(task, Read(task, item, now)) ==>
              Poll(row, task, item, now) == Outcome(row, task, false) && !TooOld(task, now)
  {
  }

  // ---------------------------------------------------------------- all pollers together

  /** A poller's copy, and the items for the task that are still to come in the upstream's answer. The copy
      stays the poller's for the whole answer, overwritten item by item. */
  datatype Holding = Holding(copy: Row, rest: seq<Response>)

  /** The row, what pollers hold, how often the quota was given back and how much in all. */
  datatype System = System(row: Row, held: map<nat, Holding>, refunds: nat, credited: int)

  /** Reading the unfinished tasks, which the upstream is going to answer with some items for the task; the
      next of these items; or the bulk failure of tasks without a channel or an upstream identifier. */
  datatype Action =
    | Fetch(poller: nat, answer: seq<Response>)
    | Item(poller: nat, now: int)
    | BulkFail(poller: nat, reason: Option<string>)

  function Next(s: System, a: Action): System {
    match a
    case Fetch(p, answer) => if s.row.progress != DONE then s.(held := s.held[p := Holding(s.row, answer)]) else s
    case Item(p, now) =>
      if p !in s.held || |s.held[p].rest| == 0 then s
      else
        var h := s.held[p];
        var o := Poll(s.row, h.copy, h.rest[0], now);
        System(o.row, s.held[p := Holding(o.task, h.rest[1..])], s.refunds + (if o.refunded then 1 else 0),
               s.credited + if o.refunded then h.copy.quota else 0)
    case BulkFail(p, reason) =>
      if p !in s.held then s
      else
        var failReason := if reason.Some? then reason.value else s.row.failReason;
        s.(row := s.row.(status := FAILURE, progress := DONE, failReason := failReason), held := s.held - {p})
  }

  function Run(s: System, actions: seq<Action>): System
    decreases |actions|
  {
    if |actions| == 0 then s else Next(Run(s, actions[..|actions| - 1]), actions[|actions| - 1])
  }

  function Start(row: Row): System {
    System(row, map[], 0, 0)
  }

  /** The upstream reports a failure to be refunded exactly when it reports the status FAILURE. */
  predicate Consistent(item: Response) {
    Refunds(item) <==> item.status == FAILURE
  }

  /** An item that tells a poller nothing new once it has taken the task as overdue at `first`. */
  predicate Restates(first: Response, item: Response) {
    && item.progress == DONE && item.status == FAILURE && item.failReason == OVERDUE
    && item.promptEn == first.promptEn && item.state == first.state && item.submitTime == first.submitTime
    && item.startTime == first.startTime && item.finishTime == first.finishTime
    && item.imageUrl == first.imageUrl && item.videoUrl == first.videoUrl && item.videoUrls == first.videoUrls
  }

  /** What an answer may say of one task: at most one item, consistent; any further ones restate it as failed
      with the gateway's own time-out reason, which must be its own reason if it is a failure itself. */
  ghost predicate SafeAnswer(answer: seq<Response>) {
    |answer| > 0 ==>
      && Consistent(answer[0])
      && (forall i :: 1 <= i < |answer| ==> Restates(answer[0], answer[i]))
      && (|answer| > 1 && answer[0].status == FAILURE ==> answer[0].failReason == OVERDUE)
  }

  /** An upstream that does not know the gateway's time-out reason must list a task at most once. */
  lemma SafeMeansListedOnce(answer: seq<Response>)
    requires forall i :: 0 <= i < |answer| ==> answer[i].failReason != OVERDUE
    ensures SafeAnswer(answer) <==> |answer| == 0 || (|answer| == 1 && Consistent(answer[0]))
  {
    if |answer| > 1 { assert answer[1].failReason != OVERDUE; }
  }

  ghost predicate Answers(actions: seq<Action>, allowed: seq<Response> -> bool) {
    forall i :: 0 <= i < |actions| && actions[i].Fetch? ==> allowed(actions[i].answer)
  }

  /** A copy that has not failed may still be answered safely; to one that has, the rest is no news. */
  ghost predicate Harmless(h: Holding, quota: int) {
    && h.copy.quota == quota
    && (h.copy.status != FAILURE ==> SafeAnswer(h.rest))
    && (h.copy.status == FAILURE ==> h.copy.progress == DONE &&
                                     forall i :: 0 <= i < |h.rest| ==> !NeedsUpdate(h.copy, h.rest[i]))
  }

  /** A failed row is finished; whatever pollers hold is harmless; the quota came back at most once, and
      only for a failed row. */
  ghost predicate Inv(s: System, quota: int) {
    && s.row.quota == quota
    && (s.row.status == FAILURE ==> s.row.progress == DONE)
    && (forall p :: p in s.held ==> Harmless(s.held[p], quota))
    && s.refunds <= 1
    && (s.refunds == 1 ==> s.row.status == FAILURE)
    && s.credited == s.refunds * quota
  }

  lemma ReadIsConsistent(task: Row, item: Response, now: int)
    requires Consistent(item)
    ensures Consistent(Read(task, item, now))
  {
  }

  lemma TailIsSafe(answer: seq<Response>)
    requires SafeAnswer(answer) && |answer| > 0
    ensures SafeAnswer(answer[1..])
  {
    var rest := answer[1..];
    assert forall i :: 0 <= i < |rest| ==> rest[i] == answer[i + 1];
  }

  /** When an item fails a copy, the rest of a safe answer is no news to it. */
  lemma NoMoreNews(copy: Row, answer: seq<Response>, now: int)
    requires SafeAnswer(answer) && |answer| > 0 && Read(copy, answer[0], now).status == FAILURE
    ensures var next, rest := Applied(copy, Read(copy, answer[0], now)), answer[1..];
            forall i :: 0 <= i < |rest| ==> !NeedsUpdate(next, rest[i])
  {
    var rest := answer[1..];
    assert forall i :: 0 <= i < |rest| ==> rest[i] == answer[i + 1];
    ReadIsConsistent(copy, answer[0], now);
  }

  /** What one item does to a poller's holding. */
  lemma HoldingStaysHarmless(row: Row, h: Holding, now: int, quota: int)
    requires Harmless(h, quota) && |h.rest| > 0
    ensures Harmless(Holding(Poll(row, h.copy, h.rest[0], now).task, h.rest[1..]), quota)
  {
    hide NeedsUpdate, Consistent, Restates;
    if h.copy.status != FAILURE {
      TailIsSafe(h.rest);
      ReadIsConsistent(h.copy, h.rest[0], now);
      if Read(h.copy, h.rest[0], now).status == FAILURE {
        FailedIsDone(h.copy, Read(h.copy, h.rest[0], now));
        NoMoreNews(h.copy, h.rest, now);
      }
    }
  }

  lemma FailedIsDone(task: Row, item: Response)
    requires Consistent(item) && item.status == FAILURE
    ensures Applied(task, item).progress == DONE && Refunds(item)
  {
  }

  /** What one item does to the row: nothing, unless the copy had not failed and the row still has the copy's
      status; then the quota comes back exactly if the row fails. */
  lemma RowChanges(row: Row, h: Holding, now: int, quota: int)
    requires Harmless(h, quota) && |h.rest| > 0 && row.quota == quota
    ensures var o := Poll(row, h.copy, h.rest[0], now);
            && o.row.quota == quota
            && (h.copy.status == FAILURE || row.status != h.copy.status ==> o.row == row && !o.refunded)
            && (o.row != row || o.refunded ==> (o.refunded <==> o.row.status == FAILURE && quota != 0))
            && (o.row != row && o.row.status == FAILURE ==> o.row.progress == DONE)
            && (o.row != row && o.row.status != FAILURE ==> !o.refunded)
  {
    hide NeedsUpdate, Restates;
    if h.copy.status != FAILURE {
      ReadIsConsistent(h.copy, h.rest[0], now);
    }
  }

  lemma NextKeepsInv(s: System, a: Action, quota: int)
    requires Inv(s, quota)
    requires a.Fetch? ==> SafeAnswer(a.answer)
    ensures Inv(Next(s, a), quota)
    ensures s.row.status == FAILURE ==> Next(s, a).row.status == FAILURE && Next(s, a).refunds == s.refunds
  {
    hide Poll, SafeAnswer, NeedsUpdate;
    if a.Item? && a.poller in s.held && |s.held[a.poller].rest| > 0 {
      HoldingStaysHarmless(s.row, s.held[a.poller], a.now, quota);
      RowChanges(s.row, s.held[a.poller], a.now, quota);
    }
  }

  /** Any number of pollers, from any copies however stale: the task's quota is given back at most once. */
  lemma {:induction false} RefundedAtMostOnce(row: Row, actions: seq<Action>)
    requires row.status != FAILURE
    requires Answers(actions, SafeAnswer)
    ensures Inv(Run(Start(row), actions), row.quota)
    decreases |actions|
  {
    hide Inv, SafeAnswer;
    if |actions| > 0 {
      var before := actions[..|actions| - 1];
      RefundedAtMostOnce(row, before);
      NextKeepsInv(Run(Start(row), before), actions[|actions| - 1], row.quota);
    } else {
      StartIsFine(row);
    }
  }

  lemma StartIsFine(row: Row)
    requires row.status != FAILURE
    ensures Inv(Start(row), row.quota)
  {
  }

  lemma {:induction false} RunConcat(s: System, a: seq<Action>, b: seq<Action>)
    ensures Run(s, a + b) == Run(Run(s, a), b)
    decreases |b|
  {
    if |b| == 0 {
      assert a + b == a;
    } else {
      var n := |b| - 1;
      RunConcat(s, a, b[..n]);
      assert (a + b)[..|a + b| - 1] == a + b[..n];
    }
  }

  lemma {:induction false} FailedStays(s: System, actions: seq<Action>, quota: int)
    requires Inv(s, quota) && s.row.status == FAILURE
    requires Answers(actions, SafeAnswer)
    ensures Inv(Run(s, actions), quota) && Run(s, actions).row.status == FAILURE
    ensures Run(s, actions).refunds == s.refunds
    decreases |actions|
  {
    hide Inv, SafeAnswer;
    if |actions| > 0 {
      var before := actions[..|actions| - 1];
      FailedStays(s, before, quota);
      NextKeepsInv(Run(s, before), actions[|actions| - 1], quota);
    }
  }

  /** Failing is final: once the row has failed, whatever the pollers still do, it stays failed and
      finished, and no further quota is given back. In particular a task failed in bulk before any
      refund never gets one. */
  lemma FailureIsFinal(row: Row, actions: seq<Action>, more: seq<Action>)
    requires row.status != FAILURE
    requires Answers(actions, SafeAnswer) && Answers(more, SafeAnswer)
    requires Run(Start(row), actions).row.status == FAILURE
    ensures var s, t := Run(Start(row), actions), Run(Start(row), actions + more);
            t.row.status == FAILURE && t.row.progress == DONE && t.refunds == s.refunds && t.credited == s.credited
  {
    RefundedAtMostOnce(row, actions);
    RunConcat(Start(row), actions, more);
    FailedStays(Run(Start(row), actions), more, row.quota);
  }

  /** The first poll to win after an hour ends the task and returns its quota. */
  lemma OverdueEnds(row: Row, task: Row, item: Response, now: int)
    requires now - task.submitTime > 3600000 && task.progress != "100%" && row.status == task.status
    ensures var o := Poll(row, task, item, now);
            o.row.status == "FAILURE" && o.row.progress == "100%" && (o.refunded <==> task.quota != 0)
  {
  }

  /** A bulk failure by a poller ends the task at once, without its quota. */
  lemma BulkFailureEnds(s: System, p: nat, reason: Option<string>)
    requires p in s.held
    ensures var t := Next(s, BulkFail(p, reason));
            && t.row.status == "FAILURE" && t.row.progress == "100%" && t.refunds == s.refunds && t.credited == s.credited
            && t.row.failReason == (if reason.Some? then reason.value else s.row.failReason)
  {
  }

  // ---------------------------------------------------------------- exactly when it is safe

  /** With answers of these kinds no run, from any unfailed row, refunds twice. */
  ghost predicate Safe(allowed: seq<Response> -> bool) {
    forall row: Row, actions: seq<Action> ::
      row.status != FAILURE && Answers(actions, allowed) ==> Run(Start(row), actions).refunds <= 1
  }

  /** A row in some status, submitted `at`, worth a refund and not yet polled. */
  function RowBefore(status: string, at: int): Row {
    Row(0, "", "", "", at, 0, 0, "", status, "", "", "", "", "", 1)
  }

  lemma TwoSteps(s: System, a: Action, b: Action)
    ensures Run(s, [a, b]) == Next(Next(s, a), b)
  {
    assert [a, b][..1] == [a] && [a][..0] == [];
    assert Run(s, [a]) == Next(Run(s, []), a);
  }

  /** A refund that leaves the status alone: two copies of the row both win. */
  lemma RefundWithoutFailure(answer: seq<Response>)
    requires |answer| > 0 && Refunds(answer[0]) && answer[0].status != FAILURE
    ensures Run(Start(RowBefore(answer[0].status, 0)),
                [Fetch(0, answer), Fetch(1, answer)] + [Item(0, 0), Item(1, 0)]).refunds == 2
  {
    var row := RowBefore(answer[0].status, 0);
    var first, second := [Fetch(0, answer), Fetch(1, answer)], [Item(0, 0), Item(1, 0)];
    RunConcat(Start(row), first, second);
    TwoSteps(Start(row), Fetch(0, answer), Fetch(1, answer));
    TwoSteps(Run(Start(row), first), Item(0, 0), Item(1, 0));
  }

  /** An overdue copy with the row's status wins, and the quota comes back. */
  lemma StaleCopyWins(s: System, p: nat, row: Row, answer: seq<Response>, now: int)
    requires p in s.held && s.held[p] == Holding(row, answer) && |answer| > 0
    requires row.status == s.row.status && row.progress != DONE && row.quota != 0
    requires now - row.submitTime > MAX_MILLISECONDS
    ensures var t := Next(s, Item(p, now));
            && t.refunds == s.refunds + 1 && t.row.status == FAILURE
            && forall q :: q in s.held && q != p ==> q in t.held && t.held[q] == s.held[q]
  {
  }

  /** A failed row that is not finished is fetched again as failed, and when the hour is over the copy wins
      and the quota comes back. */
  lemma LateCopy(s: System, p: nat, answer: seq<Response>, now: int)
    requires s.row.progress != DONE && s.row.quota != 0 && |answer| > 0
    requires now - s.row.submitTime > MAX_MILLISECONDS
    ensures Run(s, [Fetch(p, answer), Item(p, now)]).refunds == s.refunds + 1
  {
    hide Poll;
    TwoSteps(s, Fetch(p, answer), Item(p, now));
    StaleCopyWins(Next(s, Fetch(p, answer)), p, s.row, answer, now);
  }

  lemma TwoLateCopies(s: System, answer: seq<Response>, now: int)
    requires s.row.progress != DONE && s.row.status == FAILURE && s.row.quota != 0 && |answer| > 0
    requires now - s.row.submitTime > MAX_MILLISECONDS
    ensures Run(s, [Fetch(1, answer), Fetch(2, answer)] + [Item(1, now), Item(2, now)]).refunds == s.refunds + 2
  {
    hide Poll;
    var first, second := [Fetch(1, answer), Fetch(2, answer)], [Item(1, now), Item(2, now)];
    RunConcat(s, first, second);
    TwoSteps(s, Fetch(1, answer), Fetch(2, answer));
    var t := Run(s, first);
    TwoSteps(t, Item(1, now), Item(2, now));
    StaleCopyWins(t, 1, s.row, answer, now);
    StaleCopyWins(Next(t, Item(1, now)), 2, s.row, answer, now);
  }

  /** A failure that asks for no refund leaves such a row. */
  lemma FailureWithoutRefund(answer: seq<Response>)
    requires |answer| > 0 && !Refunds(answer[0]) && answer[0].status == FAILURE
    ensures var now := answer[0].submitTime + MAX_MILLISECONDS + 1;
            Run(Start(RowBefore("", now)), [Fetch(0, answer), Item(0, now)] +
                ([Fetch(1, answer), Fetch(2, answer)] + [Item(1, now), Item(2, now)])).refunds == 2
  {
    var now := answer[0].submitTime + MAX_MILLISECONDS + 1;
    var row := RowBefore("", now);
    RunConcat(Start(row), [Fetch(0, answer), Item(0, now)],
              [Fetch(1, answer), Fetch(2, answer)] + [Item(1, now), Item(2, now)]);
    TwoSteps(Start(row), Fetch(0, answer), Item(0, now));
    TwoLateCopies(Run(Start(row), [Fetch(0, answer), Item(0, now)]), answer, now);
  }

  // ---------------------------------------------------------------- an answer that lists the task again

  /** Poller p has failed the task and got its quota back, holds the failed copy, and has items left. */
  ghost predicate JustFailed(s: System, p: nat, rest: seq<Response>) {
    && p in s.held && s.held[p] == Holding(s.row, rest)
    && s.row.status == FAILURE && s.row.progress == DONE && s.row.quota == 1 && s.refunds == 1
  }

  function Items(p: nat, now: int, k: nat): (actions: seq<Action>)
    ensures |actions| == k && forall i :: 0 <= i < k ==> actions[i] == Item(p, now)
  {
    if k == 0 then [] else Items(p, now, k - 1) + [Item(p, now)]
  }

  lemma SkipsItem(s: System, p: nat, rest: seq<Response>, now: int)
    requires p in s.held && s.held[p] == Holding(s.row, rest) && |rest| > 0
    requires s.row.progress == DONE && !NeedsUpdate(s.row, rest[0])
    ensures Next(s, Item(p, now)) == s.(held := s.held[p := Holding(s.row, rest[1..])])
  {
    hide NeedsUpdate, Applied;
  }

  /** Items that are no news are skipped. */
  lemma {:induction false} SkipsItems(s: System, p: nat, rest: seq<Response>, now: int, k: nat)
    requires JustFailed(s, p, rest) && k <= |rest| && forall i :: 0 <= i < k ==> !NeedsUpdate(s.row, rest[i])
    ensures Run(s, Items(p, now, k)) == s.(held := s.held[p := Holding(s.row, rest[k..])])
  {
    hide NeedsUpdate, Poll, Next;
    if k == 0 {
      assert rest[0..] == rest;
      assert s.held[p := Holding(s.row, rest)] == s.held;
    } else {
      SkipsItems(s, p, rest, now, k - 1);
      var t := Run(s, Items(p, now, k - 1));
      LastStep(s, Items(p, now, k - 1), Item(p, now));
      SkipsItem(t, p, rest[k - 1..], now);
      assert rest[k - 1..][1..] == rest[k..];
      assert t.held[p := Holding(s.row, rest[k..])] == s.held[p := Holding(s.row, rest[k..])];
    }
  }

  lemma LastStep(s: System, actions: seq<Action>, a: Action)
    ensures Run(s, actions + [a]) == Next(Run(s, actions), a)
  {
    assert (actions + [a])[..|actions|] == actions;
  }

  /** The next item is news: the failed copy wins again, and either the quota comes back a second time, or
      the row is no longer both failed and finished. */
  lemma NewsWins(s: System, p: nat, rest: seq<Response>, now: int)
    requires JustFailed(s, p, rest) && |rest| > 0 && NeedsUpdate(s.row, rest[0])
    ensures var t := Next(s, Item(p, now));
            && t.held.Keys == s.held.Keys && (forall q :: q in s.held && q != p ==> t.held[q] == s.held[q])
            && t.row.quota == 1 && t.row.status == rest[0].status && t.row.submitTime == rest[0].submitTime
            && (if Refunds(rest[0]) then t.refunds == 2
                else t.refunds == 1 && (t.row.status != FAILURE || t.row.progress != DONE))
  {
  }

  /** Two pollers fetch the task, and the first item fails the copy of one. */
  lemma FirstListing(status: string, answer: seq<Response>, at: int, now: int) returns (actions: seq<Action>)
    requires |answer| > 0 && status != FAILURE
    requires var task := RowBefore("", at); var read := Read(task, answer[0], now);
             Applied(task, read).status == FAILURE && Applied(task, read).progress == DONE && Refunds(read)
    ensures Answers(actions, a => a == answer)
    ensures var row := RowBefore(status, at); var s := Run(Start(row), actions);
            && JustFailed(s, 0, answer[1..]) && 1 in s.held && s.held[1] == Holding(row, answer)
            && s.row == Applied(RowBefore("", at), Read(RowBefore("", at), answer[0], now))
  {
    hide Run, NeedsUpdate, Applied, Refunds;
    var row := RowBefore(status, at);
    actions := [Fetch(1, answer), Fetch(0, answer)] + [Item(0, now)];
    LastStep(Start(row), [Fetch(1, answer), Fetch(0, answer)], Item(0, now));
    TwoSteps(Start(row), Fetch(1, answer), Fetch(0, answer));
    StatusDoesNotMatter(status, at, answer[0], now);
  }

  /** Then k - 1 items are skipped and the next one is news. */
  lemma ThenNews(s: System, answer: seq<Response>, row: Row, k: nat, now: int) returns (actions: seq<Action>)
    requires 1 <= k < |answer| && JustFailed(s, 0, answer[1..]) && 1 in s.held && s.held[1] == Holding(row, answer)
    requires (forall i :: 1 <= i < k ==> !NeedsUpdate(s.row, answer[i])) && NeedsUpdate(s.row, answer[k])
    ensures forall i :: 0 <= i < |actions| ==> actions[i].Item?
    ensures var t := Run(s, actions);
            && 1 in t.held && t.held[1] == Holding(row, answer)
            && t.row.quota == 1 && t.row.status == answer[k].status && t.row.submitTime == answer[k].submitTime
            && (t.refunds == 2 || (t.refunds == 1 && (t.row.status != FAILURE || t.row.progress != DONE)))
  {
    hide NeedsUpdate, Run, Next, Applied, Refunds;
    var rest := answer[1..];
    assert forall i :: 0 <= i < |rest| ==> rest[i] == answer[i + 1];
    SkipsItems(s, 0, rest, now, k - 1);
    var t := Run(s, Items(0, now, k - 1));
    LastStep(s, Items(0, now, k - 1), Item(0, now));
    assert rest[k - 1..][0] == answer[k];
    NewsWins(t, 0, rest[k - 1..], now);
    actions := Items(0, now, k - 1) + [Item(0, now)];
  }

  /** If that did not refund twice already, a stale copy does, or a late one. */
  lemma ThenAgain(s: System, answer: seq<Response>, row: Row, late: int) returns (actions: seq<Action>)
    requires |answer| > 0 && 1 in s.held && s.held[1] == Holding(row, answer) && s.row.quota == 1
    requires s.refunds == 2 || (s.refunds == 1 && (s.row.status != FAILURE || s.row.progress != DONE))
    requires s.row.status != FAILURE ==> row.status == s.row.status
    requires row.progress != DONE && row.quota != 0
    requires late - row.submitTime > MAX_MILLISECONDS && late - s.row.submitTime > MAX_MILLISECONDS
    ensures Answers(actions, a => a == answer)
    ensures Run(s, actions).refunds >= 2
  {
    hide Next;
    if s.refunds == 2 {
      actions := [];
    } else if s.row.status != FAILURE {
      StaleCopyWins(s, 1, row, answer, late);
      OneStep(s, Item(1, late));
      actions := [Item(1, late)];
    } else {
      LateCopy(s, 2, answer, late);
      actions := [Fetch(2, answer), Item(2, late)];
    }
  }

  /** An answer with a later item that is news to the failed copy: a run that refunds twice. */
  lemma SecondListing(answer: seq<Response>, k: nat, at: int, now: int) returns (actions: seq<Action>)
    requires 1 <= k < |answer|
    requires var task := RowBefore("", at); var read := Read(task, answer[0], now);
             var failed := Applied(task, read);
             && failed.status == FAILURE && failed.progress == DONE && Refunds(read)
             && (forall i :: 1 <= i < k ==> !NeedsUpdate(failed, answer[i])) && NeedsUpdate(failed, answer[k])
    ensures Answers(actions, a => a == answer)
    ensures exists status :: status != FAILURE && Run(Start(RowBefore(status, at)), actions).refunds >= 2
  {
    hide Run, Read, Applied, NeedsUpdate, Refunds;
    // the stale copy has the status the row may get back
    var status := if answer[k].status == FAILURE then "" else answer[k].status;
    var row := RowBefore(status, at);
    var first := FirstListing(status, answer, at, now);
    var s := Run(Start(row), first);
    var news := ThenNews(s, answer, row, k, now);
    var again := ThenAgain(Run(s, news), answer, row, Later(at, now, answer[k]));
    RunConcat(Start(row), first, news);
    RunConcat(Start(row), first + news, again);
    actions := first + news + again;
    assert Run(Start(RowBefore(status, at)), actions).refunds >= 2;
  }

  function Later(at: int, now: int, item: Response): (late: int)
    ensures late >= now && late - at > MAX_MILLISECONDS && late - item.submitTime > MAX_MILLISECONDS
  {
    var latest := if at > item.submitTime then at else item.submitTime;
    (if now > latest then now else latest) + MAX_MILLISECONDS + 1
  }

  lemma OneStep(s: System, a: Action)
    ensures Run(s, [a]) == Next(s, a)
  {
    assert [a][..0] == [];
  }

  lemma StatusDoesNotMatter(status: string, at: int, item: Response, now: int)
    requires status != FAILURE
    ensures var task, same := RowBefore(status, at), RowBefore("", at);
            && Read(task, item, now) == Read(same, item, now)
            && Applied(task, Read(task, item, now)) == Applied(same, Read(same, item, now))
            && NeedsUpdate(task, Read(task, item, now))
            && Applied(task, Read(task, item, now)).quota == 1
  {
  }

  /** Any answer that is not safe can refund twice. */
  lemma UnsafeAnswer(allowed: seq<Response> -> bool, answer: seq<Response>)
    requires allowed(answer) && !SafeAnswer(answer)
    ensures !Safe(allowed)
  {
    hide Run, Applied, NeedsUpdate, Refunds, Restates;
    var first := answer[0];
    if !Consistent(first) {
      InconsistentFirst(allowed, answer);
    } else if bad :| 1 <= bad < |answer| && !Restates(first, answer[bad]) {
      var now := MAX_MILLISECONDS + 1;
      var k := FirstNews(first, answer);
      RestatedIsNoNews(answer, k, now);
      var actions := SecondListing(answer, k, 0, now);
      TwiceIsUnsafe(allowed, answer, 0, actions);
    } else {
      OtherReasonIsNews(answer);
      var actions := SecondListing(answer, 1, 0, 0);
      TwiceIsUnsafe(allowed, answer, 0, actions);
    }
  }

  lemma TwiceIsUnsafe(allowed: seq<Response> -> bool, answer: seq<Response>, at: int, actions: seq<Action>)
    requires allowed(answer) && Answers(actions, a => a == answer)
    requires exists status :: status != FAILURE && Run(Start(RowBefore(status, at)), actions).refunds >= 2
    ensures !Safe(allowed)
  {
    hide Run;
    var status :| status != FAILURE && Run(Start(RowBefore(status, at)), actions).refunds >= 2;
    assert Answers(actions, allowed);
    assert RowBefore(status, at).status != FAILURE;
  }

  lemma InconsistentFirst(allowed: seq<Response> -> bool, answer: seq<Response>)
    requires allowed(answer) && |answer| > 0 && !Consistent(answer[0])
    ensures !Safe(allowed)
  {
    hide Run;
    if Refunds(answer[0]) {
      RefundWithoutFailure(answer);
      var a := [Fetch(0, answer), Fetch(1, answer)] + [Item(0, 0), Item(1, 0)];
      assert Answers(a, allowed);
      assert Run(Start(RowBefore(answer[0].status, 0)), a).refunds == 2;
    } else {
      FailureWithoutRefund(answer);
      var now := answer[0].submitTime + MAX_MILLISECONDS + 1;
      var a := [Fetch(0, answer), Item(0, now)] +
               ([Fetch(1, answer), Fetch(2, answer)] + [Item(1, now), Item(2, now)]);
      assert Answers(a, allowed);
      assert Run(Start(RowBefore("", now)), a).refunds == 2;
    }
  }

  lemma FirstNews(first: Response, answer: seq<Response>) returns (k: nat)
    requires exists i :: 1 <= i < |answer| && !Restates(first, answer[i])
    ensures 1 <= k < |answer| && !Restates(first, answer[k]) && forall i :: 1 <= i < k ==> Restates(first, answer[i])
  {
    hide Restates;
    k := 1;
    while Restates(first, answer[k])
      invariant 1 <= k < |answer| && forall i :: 1 <= i < k ==> Restates(first, answer[i])
      decreases |answer| - k
    {
      k := k + 1;
    }
  }

  /** To a copy failed as overdue by the first item, a later item is no news exactly if it restates it. */
  lemma OverdueNews(first: Response, item: Response, now: int)
    requires now > MAX_MILLISECONDS
    ensures var task := RowBefore("", 0); var read := Read(task, first, now); var failed := Applied(task, read);
            && failed.status == FAILURE && failed.progress == DONE && Refunds(read)
            && (!NeedsUpdate(failed, item) <==> Restates(first, item))
  {
  }

  lemma RestatedIsNoNews(answer: seq<Response>, k: nat, now: int)
    requires 1 <= k < |answer| && !Restates(answer[0], answer[k])
    requires forall i :: 1 <= i < k ==> Restates(answer[0], answer[i])
    requires now > MAX_MILLISECONDS
    ensures var task := RowBefore("", 0); var read := Read(task, answer[0], now); var failed := Applied(task, read);
            && failed.status == FAILURE && failed.progress == DONE && Refunds(read)
            && (forall i :: 1 <= i < k ==> !NeedsUpdate(failed, answer[i])) && NeedsUpdate(failed, answer[k])
  {
    hide NeedsUpdate, Restates, Applied, Refunds, Read;
    forall i | 1 <= i <= k
      ensures !NeedsUpdate(Applied(RowBefore("", 0), Read(RowBefore("", 0), answer[0], now)), answer[i]) <==>
                Restates(answer[0], answer[i])
    {
      OverdueNews(answer[0], answer[i], now);
    }
    OverdueNews(answer[0], answer[k], now);
  }

  /** A failure for another reason, listed again with the time-out reason. */
  lemma OtherReasonIsNews(answer: seq<Response>)
    requires !SafeAnswer(answer) && Consistent(answer[0])
    requires forall i :: 1 <= i < |answer| ==> Restates(answer[0], answer[i])
    ensures |answer| > 1
    ensures var task := RowBefore("", 0); var read := Read(task, answer[0], 0); var failed := Applied(task, read);
            && failed.status == FAILURE && failed.progress == DONE && Refunds(read)
            && NeedsUpdate(failed, answer[1])
  {
    assert Restates(answer[0], answer[1]);
  }

  /** Main result: double refunds are impossible exactly when every answer is safe. */
  lemma SafeExactly(allowed: seq<Response> -> bool)
    ensures Safe(allowed) <==> forall answer :: allowed(answer) ==> SafeAnswer(answer)
  {
    hide SafeAnswer;
    if forall answer :: allowed(answer) ==> SafeAnswer(answer) {
      forall row: Row, actions: seq<Action> | row.status != FAILURE && Answers(actions, allowed)
        ensures Run(Start(row), actions).refunds <= 1
      {
        RefundedAtMostOnce(row, actions);
      }
    } else {
      var answer :| allowed(answer) && !SafeAnswer(answer);
      UnsafeAnswer(allowed, answer);
    }
  }

  /** A second item for a failed task in one answer refunds it again exactly if it reports FAILURE and differs
      from the finished row. */
  lemma ListedTwice(row: Row, item: Response, again: Response, now: int)
    requires Consistent(item) && Consistent(again)
    requires row.status != FAILURE && row.progress != DONE && row.quota != 0 && item.status == FAILURE
    ensures var one := Poll(row, row, item, now);
            var two := Poll(one.row, one.task, again, now);
            one.refunded && (two.refunded <==> again.status == FAILURE && NeedsUpdate(one.task, again))
  {
  }
}
