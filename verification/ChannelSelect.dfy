/**
 Choosing the channel for the next attempt (service/channel_select.go), and how many attempts the
 retry counter it moves can allow (the loops of controller/relay.go).
 */
module ChannelSelect {
  import opened Options

  /** What looking a channel up in a group answers: one, none, or an error. */
  datatype Lookup = Found | Missing | Broken

  /**
   What the choice depends on. With `auto` the user's groups 0..groups are tried in turn, otherwise
   the lookup stands for the token's own group or groups. `bound` says that the loop does not choose
   at all but keeps to one channel. The lookup may answer differently on every attempt.
   */
  datatype Routing = Routing(
    retryTimes: int, auto: bool, crossGroup: bool, groups: nat, bound: bool, lookup: (nat, nat, int) -> Lookup)

  /** The context's group index, the retry counter, and whether the next increase is skipped. */
  datatype Cursor = Cursor(group: nat, retry: int, keep: bool)

  /** RetryParam.IncreaseRetry. */
  function Increased(c: Cursor): Cursor {
    if c.keep then c.(keep := false) else c.(retry := c.retry + 1)
  }

  /** The search from group i on, at a priority. */
  function SelectFrom(r: Routing, attempt: nat, i: nat, priority: int, c: Cursor): (bool, Cursor)
    decreases r.groups - i
  {
    if i >= r.groups then (false, c)
    else if r.lookup(attempt, i, priority) != Found then SelectFrom(r, attempt, i + 1, 0, Cursor(i + 1, 0, c.keep))
    else if r.crossGroup && priority >= r.retryTimes then (true, Cursor(i + 1, 0, true))
    else (true, c.(group := i))
  }

  /** CacheGetRandomSatisfiedChannel: whether a channel was found, and the state left for the next try. */
  function Select(r: Routing, attempt: nat, c: Cursor): (bool, Cursor) {
    if r.auto then SelectFrom(r, attempt, c.group, c.retry, c)
    else (r.lookup(attempt, 0, c.retry) == Found, c)
  }

  class RetryParam {
    var retry: int
    var resetNextTry: bool
    /** The context's auto group index. */
    var groupIndex: nat

    constructor (groupIndex: nat)
      ensures At() == Cursor(groupIndex, 0, false)
    {
      retry, resetNextTry, this.groupIndex := 0, false, groupIndex;
    }

    function At(): Cursor
      reads this
    {
      Cursor(groupIndex, retry, resetNextTry)
    }

    method IncreaseRetry()
      modifies this
      ensures At() == Increased(old(At()))
    {
      if resetNextTry {
        resetNextTry := false;
        return;
      }
      retry := retry + 1;
    }

    method SelectChannel(r: Routing, attempt: nat) returns (found: bool)
      modifies this
      ensures (found, At()) == Select(r, attempt, old(At()))
    {
      if !r.auto {
        var answer := r.lookup(attempt, 0, retry);
        return answer == Found;
      }
      var start := groupIndex;
      var i := start;
      while i < r.groups
        invariant start <= i && (i == start ==> At() == old(At()))
        invariant Select(r, attempt, old(At())) == SelectFrom(r, attempt, i, if i > start then 0 else retry, At())
      {
        var priority := retry;
        if i > start {
          priority := 0;
        }
        var answer := r.lookup(attempt, i, priority);
        if answer != Found {
          groupIndex, retry := i + 1, 0;
          i := i + 1;
          continue;
        }
        if r.crossGroup && priority >= r.retryTimes {
          groupIndex, retry, resetNextTry := i + 1, 0, true;
        } else {
          groupIndex := i;
        }
        return true;
      }
      return false;
    }
  }

  // ---------------------------------------------------------------- which group is chosen

  /** The priority a group is asked for: the group the search starts in continues, every later one starts over. */
  function PriorityIn(c: Cursor, g: nat): int {
    if g == c.group then c.retry else 0
  }

  /** Group g is the first one from the cursor on that has a channel. */
  ghost predicate FirstWithChannel(r: Routing, attempt: nat, c: Cursor, g: nat) {
    && c.group <= g < r.groups && r.lookup(attempt, g, PriorityIn(c, g)) == Found
    && forall i :: c.group <= i < g ==> r.lookup(attempt, i, PriorityIn(c, i)) != Found
  }

  lemma {:induction false} SearchFrom(r: Routing, attempt: nat, i: nat, c: Cursor, d: Cursor) returns (g: nat)
    requires i >= c.group && d == if i == c.group then c else Cursor(i, 0, c.keep)
    ensures var (found, e) := SelectFrom(r, attempt, i, d.retry, d);
            && (found ==> i <= g < r.groups && r.lookup(attempt, g, PriorityIn(c, g)) == Found
                          && (forall k :: i <= k < g ==> r.lookup(attempt, k, PriorityIn(c, k)) != Found)
                          && e == MovedOn(r, c, g))
            && (!found ==> (forall k :: i <= k < r.groups ==> r.lookup(attempt, k, PriorityIn(c, k)) != Found)
                           && e == if i >= r.groups then d else Cursor(r.groups, 0, c.keep))
    decreases r.groups - i
  {
    g := i;
    if i < r.groups && r.lookup(attempt, i, d.retry) != Found {
      g := SearchFrom(r, attempt, i + 1, c, Cursor(i + 1, 0, c.keep));
    }
  }

  /** Where a choice in group g leaves the cursor: there, or, when cross-group retry has used up the group's
      retries, at the next group, with the next increase of the counter to be skipped. */
  function MovedOn(r: Routing, c: Cursor, g: nat): Cursor {
    if r.crossGroup && PriorityIn(c, g) >= r.retryTimes then Cursor(g + 1, 0, true) else Cursor(g, PriorityIn(c, g), c.keep)
  }

  /** Main result: an "auto" token gets a channel of the first group, from the current one on, that has one, and a
      search without success ends behind the last group; other tokens ask once and leave the cursor alone. */
  lemma SelectsFirst(r: Routing, attempt: nat, c: Cursor)
    ensures var (found, d) := Select(r, attempt, c);
            && (!r.auto ==> (found <==> r.lookup(attempt, 0, c.retry) == Found) && d == c)
            && (r.auto ==> (found <==> exists g :: FirstWithChannel(r, attempt, c, g)))
            && (r.auto && found ==> exists g :: FirstWithChannel(r, attempt, c, g) && d == MovedOn(r, c, g))
            && (r.auto && !found && c.group < r.groups ==> d == Cursor(r.groups, 0, c.keep))
  {
    if r.auto {
      var g := SearchFrom(r, attempt, c.group, c, c);
      assert Select(r, attempt, c).0 ==> FirstWithChannel(r, attempt, c, g);
    }
  }

  // ---------------------------------------------------------------- how many attempts are left

  /** Choosing may move through the groups. */
  predicate Moves(r: Routing) {
    r.auto && !r.bound
  }

  /** k groups of n attempts each. */
  function Times(k: nat, n: nat): nat {
    if k == 0 then 0 else n + Times(k - 1, n)
  }

  lemma {:induction false} TimesIsProduct(k: nat, n: nat)
    ensures Times(k, n) == k * n
  {
    if k > 0 {
      TimesIsProduct(k - 1, n);
      assert k * n == (k - 1) * n + n;
    }
  }

  lemma {:induction false} MoreGroupsHoldMore(j: nat, k: nat, n: nat)
    requires j < k
    ensures Times(k, n) >= Times(j, n) + n
  {
    if j < k - 1 { MoreGroupsHoldMore(j, k - 1, n); }
  }

  /** Attempts a further group is good for. With cross-group retry the choice leaves a group only after its
      last attempt; without, it leaves a group that has no channel for the last priority, at the cost of the
      next group's first. */
  function PerGroup(r: Routing): nat {
    if r.retryTimes < 0 then 0 else if r.crossGroup then r.retryTimes + 1 else r.retryTimes
  }

  /** Attempts the counter can still allow, when every failure is worth a retry. */
  function Left(r: Routing, c: Cursor): nat {
    if c.retry > r.retryTimes || c.retry < 0 then 0
    else if !Moves(r) then r.retryTimes + 1 - c.retry
    else if c.group >= r.groups then 0
    else r.retryTimes + 1 - c.retry + Times(r.groups - c.group - 1, PerGroup(r))
  }

  /** A loop about to try: the counter in range, no skipped increase pending. */
  predicate AtHead(r: Routing, c: Cursor) {
    0 <= c.retry <= r.retryTimes && !c.keep
  }

  /** After the increase, either there is another try or the counter is exhausted. */
  predicate AfterStep(r: Routing, c: Cursor) {
    0 <= c.retry <= r.retryTimes + 1 && !c.keep
  }

  /** Wherever the search ends, the attempt it allows is paid for: one fewer is left. */
  lemma {:induction false} SelectFromSpends(r: Routing, attempt: nat, start: Cursor, i: nat, c: Cursor)
    requires Moves(r) && AtHead(r, start)
    requires i >= start.group
    requires if i == start.group then c == start else c == Cursor(i, 0, false)
    ensures var (found, d) := SelectFrom(r, attempt, i, c.retry, c);
            found ==> AfterStep(r, Increased(d)) && Left(r, Increased(d)) < Left(r, start)
    decreases r.groups - i
  {
    if i < r.groups {
      if r.lookup(attempt, i, c.retry) != Found {
        SelectFromSpends(r, attempt, start, i + 1, Cursor(i + 1, 0, false));
      } else {
        if i > start.group {
          MoreGroupsHoldMore(r.groups - i - 1, r.groups - start.group - 1, PerGroup(r));
        }
      }
    }
  }

  lemma SelectSpends(r: Routing, attempt: nat, c: Cursor)
    requires AtHead(r, c) && !r.bound
    ensures var (found, d) := Select(r, attempt, c);
            found ==> AfterStep(r, Increased(d)) && Left(r, Increased(d)) < Left(r, c)
  {
    if r.auto {
      SelectFromSpends(r, attempt, c, c.group, c);
    }
  }

  /** Keeping to a channel costs one retry. */
  lemma BoundSpends(r: Routing, c: Cursor)
    requires AtHead(r, c) && !Moves(r)
    ensures AfterStep(r, Increased(c)) && Left(r, Increased(c)) < Left(r, c)
  {
  }

  /** The bound for a whole run: RetryTimes + 1 attempts, or more if the choice moves through groups. The
      first attempt uses the channel chosen beforehand. */
  function MaxAttempts(r: Routing, start: nat): nat
    requires r.retryTimes >= 0
  {
    if !Moves(r) then r.retryTimes + 1
    else if start >= r.groups || r.retryTimes == 0 then 1
    else if r.crossGroup then (r.groups - start) * (r.retryTimes + 1)
    else (r.groups - start) * r.retryTimes + 1
  }

  lemma FirstAttempt(r: Routing, start: nat)
    requires r.retryTimes >= 0
    ensures 1 + Left(r, Cursor(start, 1, false)) == MaxAttempts(r, start)
  {
    if Moves(r) && start < r.groups {
      TimesIsProduct(r.groups - start, PerGroup(r));
    }
  }

  /** The bound is RetryTimes + 1 or less exactly if there is no second group to move to. */
  lemma WhenWithinRetries(r: Routing, start: nat)
    requires r.retryTimes >= 0
    ensures MaxAttempts(r, start) <= r.retryTimes + 1 <==>
              !r.auto || r.bound || r.retryTimes == 0 || start + 1 >= r.groups
  {
    if Moves(r) && start + 1 < r.groups && r.retryTimes > 0 {
      TimesIsProduct(r.groups - start, PerGroup(r));
      MoreGroupsHoldMore(1, r.groups - start, PerGroup(r));
    }
  }

  /** A lookup that makes the choice last: every group has channels, but without cross-group retry all groups
      but the last have none for the last priority. */
  ghost predicate Generous(r: Routing) {
    forall attempt, group, priority :: r.lookup(attempt, group, priority) == Lasting(r, group, priority)
  }

  function Lasting(r: Routing, group: nat, priority: int): Lookup {
    if r.auto && !r.crossGroup && priority == r.retryTimes && group + 1 < r.groups then Missing else Found
  }

  /** With such a lookup each attempt costs exactly one. */
  lemma SelectSpendsOne(r: Routing, attempt: nat, c: Cursor)
    requires AtHead(r, c) && (c.retry > 0 || r.crossGroup || !r.auto) && !r.bound && Left(r, c) > 0 && Generous(r)
    ensures var (found, d) := Select(r, attempt, c);
            found && AfterStep(r, Increased(d)) && Left(r, Increased(d)) == Left(r, c) - 1 && (d.keep ==> d.retry == 0)
    ensures Increased(Select(r, attempt, c).1).retry > 0 || r.crossGroup || !r.auto
  {
    if r.auto && !r.crossGroup && c.retry == r.retryTimes && c.group + 1 < r.groups {
      assert r.lookup(attempt, c.group, c.retry) == Missing && r.lookup(attempt, c.group + 1, 0) == Found;
      var next := Cursor(c.group + 1, 0, c.keep);
      assert Select(r, attempt, c) == SelectFrom(r, attempt, c.group + 1, 0, next) == (true, next);
    } else {
      assert r.lookup(attempt, if r.auto then c.group else 0, c.retry) == Found;
    }
  }

  /** Any routing's parameters with such a lookup. */
  function MadeGenerous(r: Routing): (g: Routing)
    ensures Generous(g) && SameParameters(r, g)
  {
    r.(lookup := (attempt: nat, group: nat, priority: int) => Lasting(r, group, priority))
  }

  /** The same settings and token, whatever channels there are. */
  predicate SameParameters(r: Routing, g: Routing) {
    && g.retryTimes == r.retryTimes && g.auto == r.auto && g.crossGroup == r.crossGroup
    && g.groups == r.groups && g.bound == r.bound
  }

  lemma SameBound(r: Routing, g: Routing, start: nat)
    requires SameParameters(r, g) && r.retryTimes >= 0
    ensures MaxAttempts(g, start) == MaxAttempts(r, start)
  {
  }

  /** What getChannel answers: the first attempt uses the channel the request came with; later ones keep to it or
      choose, and set the channel up, which may fail. */
  function GetChannel<E>(r: Routing, setup: nat -> Option<E>, missing: E, n: nat, c: Cursor): (Option<E>, Cursor) {
    if n == 0 then (None, c)
    else if r.bound then (setup(n), c)
    else
      var (found, d) := Select(r, n, c);
      if !found then (Some(missing), d) else (setup(n), d)
  }

  /** Every attempt after the first is paid for, so the retry loops end. */
  lemma GetChannelSpends<E>(r: Routing, setup: nat -> Option<E>, missing: E, n: nat, c: Cursor)
    requires AtHead(r, c)
    ensures var (e, d) := GetChannel(r, setup, missing, n, c);
            e.None? ==> AfterStep(r, Increased(d)) && (n > 0 ==> Left(r, Increased(d)) < Left(r, c))
  {
    if n == 0 {
    } else if r.bound { BoundSpends(r, c); } else { SelectSpends(r, n, c); }
  }

  /** getChannel, on the retry counter. */
  method ObtainChannel<E>(param: RetryParam, r: Routing, setup: nat -> Option<E>, missing: E, n: nat)
    returns (failure: Option<E>)
    modifies param
    ensures (failure, param.At()) == GetChannel(r, setup, missing, n, old(param.At()))
  {
    if n == 0 {
      return None;
    }
    if !r.bound {
      var found := param.SelectChannel(r, n);
      if !found {
        return Some(missing);
      }
    }
    return setup(n);
  }
}
