/**
 The invite-reward limiter: an in-memory counter table with lazy expiry and the Redis script
 that replaces it when Redis is enabled (common/invite_reward_limit.go).
 */
module InviteLimit {
  import opened Numbers
  import opened Options
  import opened Windows
  import Text

  datatype Entry = Entry(count: int, expiredAt: int)
  type Store = map<string, Entry>

  // ---------------------------------------------------------------- reference semantics

  /** The counters that still count at instant now. */
  function Live(store: Store, now: int): Store {
    map k | k in store && store[k].expiredAt > now :: store[k]
  }

  /** Some limited key of the call has reached its limit. */
  ghost predicate Exhausted(live: Store, keys: seq<string>, limits: seq<int>)
    requires |keys| == |limits|
  {
    exists i :: 0 <= i < |keys| && limits[i] > 0 && keys[i] in live && live[keys[i]].count >= limits[i]
  }

  /** One more use of a key: an absent counter starts a window of ttl seconds. */
  function Bump(live: Store, key: string, now: int, ttl: int): Store {
    if key in live then live[key := live[key].(count := live[key].count + 1)]
    else if ttl > 0 then live[key := Entry(1, now + ttl)]
    else live
  }

  function BumpAll(live: Store, keys: seq<string>, limits: seq<int>, now: int, ttl: int): Store
    requires |keys| == |limits|
  {
    if keys == [] then live
    else
      var n := |keys| - 1;
      var most := BumpAll(live, keys[..n], limits[..n], now, ttl);
      if limits[n] > 0 then Bump(most, keys[n], now, ttl) else most
  }

  /** All-or-nothing admission on live counters. */
  ghost function Admit(live: Store, keys: seq<string>, limits: seq<int>, now: int, ttl: int): (Store, bool)
    requires |keys| == |limits|
  {
    if Exhausted(live, keys, limits) then (live, false) else (BumpAll(live, keys, limits, now, ttl), true)
  }

  // ---------------------------------------------------------------- the in-memory limiter

  class InviteRewardMemoryLimiter {
    var store: Store

    constructor ()
      ensures store == map[]
    {
      store := map[];
    }

    /** One use of a key: an absent or expired entry is replaced before it is counted. */
    method Count(key: string, now: int, ttlSeconds: int)
      modifies this
      ensures Live(store, now) == Bump(Live(old(store), now), key, now, ttlSeconds)
      ensures forall k :: k != key ==> (k in store <==> k in old(store)) && (k in store ==> store[k] == old(store)[k])
    {
      var entry := if key in store && store[key].expiredAt > now then store[key] else Entry(0, now + ttlSeconds);
      store := store[key := entry.(count := entry.count + 1)];
    }

    method Allow(keys: seq<string>, limits: seq<int>, now: int, ttlSeconds: int) returns (ok: bool)
      modifies this
      ensures |keys| != |limits| ==> ok && store == old(store)
      ensures |keys| == |limits| ==>
                (Live(store, now), ok) == Admit(Live(old(store), now), keys, limits, now, ttlSeconds)
      ensures forall k :: k !in keys ==> (k in store <==> k in old(store)) && (k in store ==> store[k] == old(store)[k])
    {
      if |keys| == 0 || |keys| != |limits| {
        return true;
      }
      ghost var live := Live(store, now);
      for index := 0 to |keys|
        invariant Live(store, now) == live
        invariant forall j :: 0 <= j < index && limits[j] > 0 && keys[j] in live ==> live[keys[j]].count < limits[j]
        invariant forall k :: k !in keys ==> (k in store <==> k in old(store)) && (k in store ==> store[k] == old(store)[k])
      {
        var key, limit := keys[index], limits[index];
        if limit <= 0 {
          continue;
        }
        var present := key in store;
        if present && store[key].expiredAt <= now {
          store := store - {key};
          present := false;
        }
        if present && store[key].count >= limit {
          assert key in live;
          return false;
        }
      }
      for index := 0 to |keys|
        invariant Live(store, now) == BumpAll(live, keys[..index], limits[..index], now, ttlSeconds)
        invariant forall k :: k !in keys ==> (k in store <==> k in old(store)) && (k in store ==> store[k] == old(store)[k])
      {
        assert keys[..index + 1][..index] == keys[..index] && limits[..index + 1][..index] == limits[..index];
        var key := keys[index];
        if limits[index] <= 0 {
          continue;
        }
        Count(key, now, ttlSeconds);
      }
      assert keys[..|keys|] == keys && limits[..|keys|] == limits;
      return true;
    }
  }

  // ---------------------------------------------------------------- the Redis script

  /** A Redis integer value and, once EXPIRE has run, the instant it disappears. */
  datatype RedisValue = RedisValue(value: int, expireAt: Option<int>)

  predicate Visible(v: RedisValue, now: int) {
    v.expireAt == None || v.expireAt.value > now
  }

  /** Every counter the script leaves behind is positive and has an expiry. */
  ghost predicate ValidRedis(store: map<string, RedisValue>) {
    forall k :: k in store ==> store[k].value >= 1 && store[k].expireAt.Some?
  }

  /** The counters a Redis client sees at instant now. */
  ghost function RedisView(store: map<string, RedisValue>, now: int): Store
    requires ValidRedis(store)
  {
    map k | k in store && Visible(store[k], now) :: Entry(store[k].value, store[k].expireAt.value)
  }

  class RedisServer {
    var store: map<string, RedisValue>

    constructor ()
      ensures store == map[]
    {
      store := map[];
    }

    /** INCR, and EXPIRE when the counter has just been created. */
    method Count(key: string, ttl: int, now: int)
      requires ValidRedis(store)
      modifies this
      ensures ValidRedis(store)
      ensures RedisView(store, now) == Bump(RedisView(old(store), now), key, now, ttl)
    {
      var current := if key in store && Visible(store[key], now) then store[key] else RedisValue(0, None);
      var nextValue := current.value + 1;
      if nextValue != 1 {
        store := store[key := current.(value := nextValue)];
      } else if ttl > 0 {
        store := store[key := RedisValue(nextValue, Some(now + ttl))];
      } else {
        store := store - {key};
      }
    }

    /** The embedded script, run atomically by the server; an expired key is never visible to it. */
    method Eval(keys: seq<string>, limits: seq<int>, ttl: int, now: int) returns (result: int)
      requires |keys| == |limits| && ValidRedis(store)
      requires forall i :: 0 <= i < |limits| ==> limits[i] > 0
      modifies this
      ensures ValidRedis(store)
      ensures (RedisView(store, now), result == 1) == Admit(RedisView(old(store), now), keys, limits, now, ttl)
    {
      ghost var live := RedisView(store, now);
      for i := 0 to |keys|
        invariant forall j :: 0 <= j < i && keys[j] in live ==> live[keys[j]].count < limits[j]
      {
        if keys[i] in store && Visible(store[keys[i]], now) && store[keys[i]].value >= limits[i] {
          assert keys[i] in live;
          return 0;
        }
      }
      for i := 0 to |keys|
        invariant ValidRedis(store)
        invariant RedisView(store, now) == BumpAll(live, keys[..i], limits[..i], now, ttl)
      {
        assert keys[..i + 1][..i] == keys[..i] && limits[..i + 1][..i] == limits[..i];
        Count(keys[i], ttl, now);
      }
      assert keys[..|keys|] == keys && limits[..|keys|] == limits;
      return 1;
    }
  }

  // ---------------------------------------------------------------- the common front end

  /** The keys (with their limits) that actually limit: not empty, with a positive limit. */
  function Limiting(keys: seq<string>, limits: seq<int>): (r: (seq<string>, seq<int>))
    ensures |r.0| == |r.1|
    ensures forall i :: 0 <= i < |r.0| ==> r.0[i] != "" && r.1[i] > 0
  {
    if keys == [] then ([], [])
    else
      var n := |keys| - 1;
      var r := Limiting(keys[..n], limits);
      if keys[n] == "" || n >= |limits| || limits[n] <= 0 then r else (r.0 + [keys[n]], r.1 + [limits[n]])
  }

  method FilterLimits(keys: seq<string>, limits: seq<int>) returns (filteredKeys: seq<string>, filteredLimits: seq<int>)
    ensures (filteredKeys, filteredLimits) == Limiting(keys, limits)
  {
    filteredKeys, filteredLimits := [], [];
    for index := 0 to |keys|
      invariant (filteredKeys, filteredLimits) == Limiting(keys[..index], limits)
    {
      assert keys[..index + 1][..index] == keys[..index];
      var key := keys[index];
      if key == "" || index >= |limits| || limits[index] <= 0 {
        continue;
      }
      filteredKeys := filteredKeys + [key];
      filteredLimits := filteredLimits + [limits[index]];
    }
    assert keys[..|keys|] == keys;
  }

  /** checkInviteRewardLimits when Redis is disabled. */
  method CheckWithMemory(limiter: InviteRewardMemoryLimiter, keys: seq<string>, limits: seq<int>, now: int, ttl: int)
      returns (ok: bool)
    modifies limiter
    ensures var f := Limiting(keys, limits);
            (Live(limiter.store, now), ok) == Admit(Live(old(limiter.store), now), f.0, f.1, now, ttl)
  {
    var filteredKeys, filteredLimits := FilterLimits(keys, limits);
    if |filteredKeys| == 0 {
      return true;
    }
    ok := limiter.Allow(filteredKeys, filteredLimits, now, ttl);
  }

  /** checkInviteRewardLimits when Redis is enabled and answers. */
  method CheckWithRedis(server: RedisServer, keys: seq<string>, limits: seq<int>, now: int, ttl: int)
      returns (ok: bool)
    requires ValidRedis(server.store)
    modifies server
    ensures ValidRedis(server.store)
    ensures var f := Limiting(keys, limits);
            (RedisView(server.store, now), ok) == Admit(RedisView(old(server.store), now), f.0, f.1, now, ttl)
  {
    var filteredKeys, filteredLimits := FilterLimits(keys, limits);
    if |filteredKeys| == 0 {
      return true;
    }
    var allowed := server.Eval(filteredKeys, filteredLimits, ttl, now);
    return allowed == 1;
  }

  // ---------------------------------------------------------------- counters after an admission

  ghost function Counter(live: Store, key: string): int {
    if key in live then live[key].count else 0
  }

  /** How often a call asks to count a key. */
  ghost function Uses(keys: seq<string>, limits: seq<int>, key: string): nat
    requires |keys| == |limits|
  {
    if keys == [] then 0
    else
      var n := |keys| - 1;
      Uses(keys[..n], limits[..n], key) + (if limits[n] > 0 && keys[n] == key then 1 else 0)
  }

  /** An admitted call adds to each counter the number of times it names the key, keeps the end of
      a running window, opens a window of ttl seconds otherwise, and touches nothing else. */
  lemma {:induction false} BumpAllAt(live: Store, keys: seq<string>, limits: seq<int>, now: int, ttl: int, key: string)
    requires |keys| == |limits| && ttl > 0
    ensures var after := BumpAll(live, keys, limits, now, ttl);
            && Counter(after, key) == Counter(live, key) + Uses(keys, limits, key)
            && (Uses(keys, limits, key) == 0 ==> (key in after <==> key in live))
            && (Uses(keys, limits, key) > 0 ==> key in after)
            && (key in after ==> after[key].expiredAt == if key in live then live[key].expiredAt else now + ttl)
  {
    if keys != [] {
      var n := |keys| - 1;
      BumpAllAt(live, keys[..n], limits[..n], now, ttl, key);
    }
  }

  lemma {:induction false} LimitingPrefix(keys: seq<string>, limits: seq<int>, longer: seq<int>)
    requires |keys| <= |limits| <= |longer| && limits == longer[..|limits|]
    ensures Limiting(keys, limits) == Limiting(keys, longer)
  {
    if keys != [] { LimitingPrefix(keys[..|keys| - 1], limits, longer); }
  }

  lemma {:induction false} FilterKeepsCounters(live: Store, keys: seq<string>, limits: seq<int>, now: int, ttl: int)
    requires |keys| == |limits| && forall i :: 0 <= i < |keys| && limits[i] > 0 ==> keys[i] != ""
    ensures var f := Limiting(keys, limits);
            BumpAll(live, keys, limits, now, ttl) == BumpAll(live, f.0, f.1, now, ttl)
  {
    if keys != [] {
      var n := |keys| - 1;
      FilterKeepsCounters(live, keys[..n], limits[..n], now, ttl);
      LimitingPrefix(keys[..n], limits[..n], limits);
      var g := Limiting(keys[..n], limits[..n]);
      BumpAllSnoc(live, g.0, g.1, keys[n], limits[n], now, ttl);
    }
  }

  lemma BumpAllSnoc(live: Store, keys: seq<string>, limits: seq<int>, key: string, limit: int, now: int, ttl: int)
    requires |keys| == |limits|
    ensures var most := BumpAll(live, keys, limits, now, ttl);
            BumpAll(live, keys + [key], limits + [limit], now, ttl) == if limit > 0 then Bump(most, key, now, ttl) else most
  {
    assert (keys + [key])[..|keys|] == keys && (limits + [limit])[..|keys|] == limits;
  }

  /** Some limited key, blank or not as asked, has reached its limit. */
  ghost predicate ExhaustedAmong(live: Store, keys: seq<string>, limits: seq<int>, blank: bool)
    requires |keys| == |limits|
  {
    exists i :: 0 <= i < |keys| && (keys[i] == "") == blank && limits[i] > 0
                && keys[i] in live && live[keys[i]].count >= limits[i]
  }

  lemma ExhaustedEither(live: Store, keys: seq<string>, limits: seq<int>)
    requires |keys| == |limits|
    ensures Exhausted(live, keys, limits) <==>
              ExhaustedAmong(live, keys, limits, true) || ExhaustedAmong(live, keys, limits, false)
  {
    if Exhausted(live, keys, limits) {
      var i :| 0 <= i < |keys| && limits[i] > 0 && keys[i] in live && live[keys[i]].count >= limits[i];
      assert (keys[i] == "") == true || (keys[i] == "") == false;
    }
  }

  lemma AmongSnoc(live: Store, keys: seq<string>, limits: seq<int>)
    requires |keys| == |limits| > 0
    ensures var n := |keys| - 1;
            ExhaustedAmong(live, keys, limits, false) <==>
              || ExhaustedAmong(live, keys[..n], limits[..n], false)
              || (keys[n] != "" && limits[n] > 0 && keys[n] in live && live[keys[n]].count >= limits[n])
  {
    var n := |keys| - 1;
    var ks, ls := keys[..n], limits[..n];
    if ExhaustedAmong(live, ks, ls, false) {
      var i :| 0 <= i < n && (ks[i] == "") == false && ls[i] > 0 && ks[i] in live && live[ks[i]].count >= ls[i];
      assert keys[i] == ks[i] && limits[i] == ls[i];
    }
    if ExhaustedAmong(live, keys, limits, false) {
      var i :| 0 <= i <= n && (keys[i] == "") == false && limits[i] > 0 && keys[i] in live && live[keys[i]].count >= limits[i];
      assert i < n ==> keys[i] == ks[i] && limits[i] == ls[i];
    }
  }

  lemma {:induction false} FilterKeepsAnswer(live: Store, keys: seq<string>, limits: seq<int>)
    requires |keys| == |limits|
    ensures var f := Limiting(keys, limits); Exhausted(live, f.0, f.1) <==> ExhaustedAmong(live, keys, limits, false)
  {
    hide Exhausted, ExhaustedAmong;
    if keys != [] {
      var n := |keys| - 1;
      var ks, ls := keys[..n], limits[..n];
      FilterKeepsAnswer(live, ks, ls);
      LimitingPrefix(ks, ls, limits);
      AmongSnoc(live, keys, limits);
      var g := Limiting(ks, ls);
      ExhaustedSnoc(live, g.0, g.1, keys[n], limits[n]);
    } else {
      NoneExhausted(live);
    }
  }

  lemma NoneExhausted(live: Store)
    ensures !Exhausted(live, [], []) && !ExhaustedAmong(live, [], [], false)
  {
  }

  /** What filtering leaves of the counters: all but the one of the empty key. */
  lemma {:induction false} FilterKeepsOtherCounters(live: Store, keys: seq<string>, limits: seq<int>, now: int, ttl: int)
    requires |keys| == |limits|
    ensures var f := Limiting(keys, limits);
            BumpAll(live, keys, limits, now, ttl) - {""} == BumpAll(live, f.0, f.1, now, ttl) - {""}
  {
    if keys != [] {
      var n := |keys| - 1;
      FilterKeepsOtherCounters(live, keys[..n], limits[..n], now, ttl);
      LimitingPrefix(keys[..n], limits[..n], limits);
      var g := Limiting(keys[..n], limits[..n]);
      BumpAllSnoc(live, g.0, g.1, keys[n], limits[n], now, ttl);
      BumpApart(BumpAll(live, keys[..n], limits[..n], now, ttl), keys[n], now, ttl);
      BumpApart(BumpAll(live, g.0, g.1, now, ttl), keys[n], now, ttl);
    }
  }

  lemma BumpApart(live: Store, key: string, now: int, ttl: int)
    ensures Bump(live, key, now, ttl) - {""} == if key == "" then live - {""} else Bump(live - {""}, key, now, ttl)
  {
  }

  /** Dropping unlimited and empty keys changes the answer exactly if an empty key is exhausted and no other is,
      and as long as it does not, no counter but the empty key's. Without limited empty keys it changes nothing. */
  lemma FilterHarmless(live: Store, keys: seq<string>, limits: seq<int>, now: int, ttl: int)
    requires |keys| == |limits|
    ensures var f := Limiting(keys, limits);
            var all, filtered := Admit(live, keys, limits, now, ttl), Admit(live, f.0, f.1, now, ttl);
            && (all.1 == filtered.1 <==>
                  (ExhaustedAmong(live, keys, limits, true) ==> ExhaustedAmong(live, keys, limits, false)))
            && (all.1 == filtered.1 ==> all.0 - {""} == filtered.0 - {""})
            && ((forall i :: 0 <= i < |keys| && limits[i] > 0 ==> keys[i] != "") ==> all == filtered)
  {
    hide Exhausted, ExhaustedAmong, BumpAll, Limiting;
    ExhaustedEither(live, keys, limits);
    FilterKeepsAnswer(live, keys, limits);
    FilterKeepsOtherCounters(live, keys, limits, now, ttl);
    if forall i :: 0 <= i < |keys| && limits[i] > 0 ==> keys[i] != "" {
      FilterKeepsCounters(live, keys, limits, now, ttl);
      NoBlankExhausted(live, keys, limits);
    }
  }

  lemma NoBlankExhausted(live: Store, keys: seq<string>, limits: seq<int>)
    requires |keys| == |limits| && forall i :: 0 <= i < |keys| && limits[i] > 0 ==> keys[i] != ""
    ensures !ExhaustedAmong(live, keys, limits, true)
  {
  }

  lemma ExhaustedSnoc(live: Store, keys: seq<string>, limits: seq<int>, key: string, limit: int)
    requires |keys| == |limits|
    ensures Exhausted(live, keys + [key], limits + [limit])
       <==> Exhausted(live, keys, limits) || (limit > 0 && key in live && live[key].count >= limit)
  {
    var n := |keys|;
    if limit > 0 && key in live && live[key].count >= limit {
      assert (keys + [key])[n] == key && (limits + [limit])[n] == limit;
    }
    if Exhausted(live, keys, limits) {
      var i :| 0 <= i < n && limits[i] > 0 && keys[i] in live && live[keys[i]].count >= limits[i];
      assert (keys + [key])[i] == keys[i] && (limits + [limit])[i] == limits[i];
    }
  }

  // ---------------------------------------------------------------- both backends, over whole runs

  datatype Call = Call(keys: seq<string>, limits: seq<int>, now: int, ttl: int)

  ghost predicate Monotone(calls: seq<Call>) {
    forall i, j :: 0 <= i < j < |calls| ==> calls[i].now <= calls[j].now
  }

  ghost function AdmitCall(live: Store, c: Call): (Store, bool) {
    var f := Limiting(c.keys, c.limits);
    Admit(live, f.0, f.1, c.now, c.ttl)
  }

  /** A run of the in-memory limiter: stores[i] is its table before call i, as CheckWithMemory ensures. */
  ghost predicate MemoryRun(calls: seq<Call>, stores: seq<Store>, answers: seq<bool>) {
    && |stores| == |calls| + 1 && |answers| == |calls| && stores[0] == map[]
    && forall i :: 0 <= i < |calls| ==>
         MemoryStep(calls[i], stores[i], stores[i + 1], answers[i])
  }

  /** A run of the Redis server, as CheckWithRedis ensures. */
  ghost predicate RedisRun(calls: seq<Call>, stores: seq<map<string, RedisValue>>, answers: seq<bool>) {
    && |stores| == |calls| + 1 && |answers| == |calls| && stores[0] == map[]
    && (forall i :: 0 <= i < |stores| ==> ValidRedis(stores[i]))
    && forall i :: 0 <= i < |calls| ==>
         RedisStep(calls[i], stores[i], stores[i + 1], answers[i])
  }

  /** Once expired, always expired: looking later never needs the entries already gone. */
  lemma LaterView(m: Store, r: map<string, RedisValue>, now: int, later: int)
    requires ValidRedis(r) && now <= later && Live(m, now) == RedisView(r, now)
    ensures Live(m, later) == RedisView(r, later)
  {
    assert Live(m, later) == Live(Live(m, now), later);
    assert RedisView(r, later) == Live(RedisView(r, now), later);
  }

  ghost predicate MemoryStep(c: Call, m: Store, m': Store, answer: bool) {
    (Live(m', c.now), answer) == AdmitCall(Live(m, c.now), c)
  }

  ghost predicate RedisStep(c: Call, r: map<string, RedisValue>, r': map<string, RedisValue>, answer: bool)
    requires ValidRedis(r) && ValidRedis(r')
  {
    (RedisView(r', c.now), answer) == AdmitCall(RedisView(r, c.now), c)
  }

  lemma SameStep(c: Call, m: Store, m': Store, mAnswer: bool, r: map<string, RedisValue>, r': map<string, RedisValue>,
                 rAnswer: bool)
    requires ValidRedis(r) && ValidRedis(r') && Live(m, c.now) == RedisView(r, c.now)
    requires MemoryStep(c, m, m', mAnswer) && RedisStep(c, r, r', rAnswer)
    ensures mAnswer == rAnswer && Live(m', c.now) == RedisView(r', c.now)
  {
  }

  lemma {:induction false} SameSoFar(calls: seq<Call>, ms: seq<Store>, rs: seq<map<string, RedisValue>>,
                                     mAnswers: seq<bool>, rAnswers: seq<bool>, n: nat)
    requires Monotone(calls) && MemoryRun(calls, ms, mAnswers) && RedisRun(calls, rs, rAnswers) && n <= |calls|
    ensures n > 0 ==> mAnswers[n - 1] == rAnswers[n - 1]
    ensures n > 0 ==> Live(ms[n], calls[n - 1].now) == RedisView(rs[n], calls[n - 1].now)
  {
    if n > 0 {
      var i, now := n - 1, calls[n - 1].now;
      if i > 0 {
        SameSoFar(calls, ms, rs, mAnswers, rAnswers, i);
        LaterView(ms[i], rs[i], calls[i - 1].now, now);
      }
      assert MemoryStep(calls[i], ms[i], ms[i + 1], mAnswers[i]);
      assert RedisStep(calls[i], rs[i], rs[i + 1], rAnswers[i]);
      SameStep(calls[i], ms[i], ms[i + 1], mAnswers[i], rs[i], rs[i + 1], rAnswers[i]);
    }
  }

  /** Main result: on every run the two backends give the same answers and show the same counters. */
  lemma Bisimilar(calls: seq<Call>, ms: seq<Store>, rs: seq<map<string, RedisValue>>, mAnswers: seq<bool>, rAnswers: seq<bool>)
    requires Monotone(calls) && MemoryRun(calls, ms, mAnswers) && RedisRun(calls, rs, rAnswers)
    ensures mAnswers == rAnswers
    ensures forall i :: 0 <= i < |calls| ==> Live(ms[i + 1], calls[i].now) == RedisView(rs[i + 1], calls[i].now)
  {
    forall i | 0 <= i < |calls|
      ensures mAnswers[i] == rAnswers[i] && Live(ms[i + 1], calls[i].now) == RedisView(rs[i + 1], calls[i].now)
    {
      SameSoFar(calls, ms, rs, mAnswers, rAnswers, i + 1);
    }
  }

  // ---------------------------------------------------------------- how often one key is admitted

  /** The live counters just after the last call of a run, and that call's answer. */
  ghost function After(calls: seq<Call>): (Store, bool) {
    if calls == [] then (map[], true)
    else
      var c := calls[|calls| - 1];
      AdmitCall(Live(After(calls[..|calls| - 1]).0, c.now), c)
  }

  /** What the in-memory limiter answers and shows, in any run, is exactly After. */
  lemma {:induction false} MemoryRunIsAfter(calls: seq<Call>, ms: seq<Store>, answers: seq<bool>, n: nat)
    requires Monotone(calls) && MemoryRun(calls, ms, answers) && 0 < n <= |calls|
    ensures (Live(ms[n], calls[n - 1].now), answers[n - 1]) == After(calls[..n])
  {
    var i, c := n - 1, calls[n - 1];
    assert calls[..n][..i] == calls[..i] && calls[..n][i] == c;
    if i > 0 {
      MemoryRunIsAfter(calls, ms, answers, i);
      LiveTwice(ms[i], calls[i - 1].now, c.now);
    }
    assert Live(ms[i], c.now) == Live(After(calls[..i]).0, c.now);
    assert MemoryStep(c, ms[i], ms[n], answers[i]);
    AfterSnoc(calls[..n], ms[i]);
  }

  lemma LiveTwice(store: Store, now: int, later: int)
    requires now <= later
    ensures Live(Live(store, now), later) == Live(store, later)
  {
  }

  lemma AfterSnoc(calls: seq<Call>, store: Store)
    requires calls != []
    requires var c := calls[|calls| - 1]; Live(store, c.now) == Live(After(calls[..|calls| - 1]).0, c.now)
    ensures var c := calls[|calls| - 1]; After(calls) == AdmitCall(Live(store, c.now), c)
  {
  }

  ghost function UsesOf(c: Call, key: string): nat {
    var f := Limiting(c.keys, c.limits);
    Uses(f.0, f.1, key)
  }

  /** The instants at which a key was counted. */
  ghost function Admissions(calls: seq<Call>, key: string): seq<int> {
    if calls == [] then []
    else
      var c := calls[|calls| - 1];
      Admissions(calls[..|calls| - 1], key) + (if After(calls).1 && UsesOf(c, key) > 0 then [c.now] else [])
  }

  /** A key used with one fixed limit and window length, at most once per call. */
  ghost predicate FixedUse(calls: seq<Call>, key: string, limit: int, ttl: int) {
    && limit >= 1 && ttl >= 1
    && forall i :: 0 <= i < |calls| ==> FixedCall(calls[i], key, limit, ttl)
  }

  ghost predicate FixedCall(c: Call, key: string, limit: int, ttl: int) {
    var f := Limiting(c.keys, c.limits);
    && c.ttl == ttl && Uses(f.0, f.1, key) <= 1
    && forall i :: 0 <= i < |f.0| && f.0[i] == key ==> f.1[i] == limit
  }

  /** Where the open window of a key starts in its list of admissions, and where the one before it
      did (-1 if there was none). */
  datatype Starts = Starts(previous: int, current: nat)

  ghost function WindowStarts(calls: seq<Call>, key: string): Starts {
    if calls == [] then Starts(-1, 0)
    else
      var c, before := calls[|calls| - 1], calls[..|calls| - 1];
      var w, a := WindowStarts(before, key), Admissions(before, key);
      if After(calls).1 && UsesOf(c, key) > 0 && key !in Live(After(before).0, c.now) && a != []
      then Starts(w.current, |a|) else w
  }

  /** Windows hold at most limit admissions within ttl seconds, and the next one starts ttl seconds
      or more after the start of the last; so any 2 * limit admissions span ttl seconds. */
  ghost predicate Windowed(a: seq<int>, w: Starts, limit: int, ttl: int)
    requires limit >= 1
  {
    && Ordered(a) && Spaced(a, 2 * limit - 1, ttl)
    && (a == [] ==> w == Starts(-1, 0))
    && (a != [] ==>
          && w.current < |a| <= w.current + limit && a[|a| - 1] < a[w.current] + ttl
          && (w.previous < 0 ==> w.current == 0)
          && (w.previous >= 0 ==> w.previous < w.current <= w.previous + limit && a[w.previous] + ttl <= a[w.current]))
  }

  /** The live counter of the key counts the admissions of its open window. */
  ghost predicate CountsOpenWindow(live: Store, key: string, a: seq<int>, w: Starts, ttl: int, now: int)
    requires a != [] ==> w.current < |a|
  {
    if key in live then a != [] && live[key] == Entry(|a| - w.current, a[w.current] + ttl)
    else a != [] ==> a[w.current] + ttl <= now
  }

  lemma {:induction false} UsesMeansListed(keys: seq<string>, limits: seq<int>, key: string)
    requires |keys| == |limits| && Uses(keys, limits, key) > 0
    ensures exists i :: 0 <= i < |keys| && keys[i] == key && limits[i] > 0
  {
    var n := |keys| - 1;
    if !(limits[n] > 0 && keys[n] == key) {
      UsesMeansListed(keys[..n], limits[..n], key);
    }
  }

  /** One call: either the key's counter is untouched or, below its limit, it goes up by one. */
  lemma CallStep(live: Store, c: Call, key: string, limit: int, ttl: int)
    requires FixedCall(c, key, limit, ttl) && ttl >= 1
    ensures var (after, ok) := AdmitCall(live, c);
            if ok && UsesOf(c, key) > 0 then
              && key in after && after[key].count == Counter(live, key) + 1 && (key in live ==> live[key].count < limit)
              && after[key].expiredAt == (if key in live then live[key].expiredAt else c.now + ttl)
            else (key in after <==> key in live) && (key in live ==> after[key] == live[key])
  {
    var f := Limiting(c.keys, c.limits);
    BumpAllAt(live, f.0, f.1, c.now, c.ttl, key);
    if UsesOf(c, key) > 0 {
      UsesMeansListed(f.0, f.1, key);
    }
  }

  ghost predicate WindowInvariant(a: seq<int>, w: Starts, live: Store, key: string, limit: int, ttl: int, now: int)
    requires limit >= 1
  {
    && Windowed(a, w, limit, ttl) && (a != [] ==> a[|a| - 1] <= now)
    && CountsOpenWindow(live, key, a, w, ttl, now)
  }

  lemma WaitKeepsWindows(a: seq<int>, w: Starts, live: Store, key: string, limit: int, ttl: int, now: int, later: int)
    requires limit >= 1 && WindowInvariant(a, w, live, key, limit, ttl, now) && now <= later
    ensures WindowInvariant(a, w, Live(live, later), key, limit, ttl, later)
  {
  }

  /** An admitted use of the key extends its open window, or opens the next one. */
  lemma UseKeepsWindows(a: seq<int>, w: Starts, live: Store, after: Store, key: string, limit: int, ttl: int, now: int)
    requires limit >= 1 && ttl >= 1 && WindowInvariant(a, w, live, key, limit, ttl, now)
    requires key in after && after[key].count == Counter(live, key) + 1 && (key in live ==> live[key].count < limit)
    requires after[key].expiredAt == if key in live then live[key].expiredAt else now + ttl
    requires key in live ==> live[key].expiredAt > now
    ensures var w' := if key !in live && a != [] then Starts(w.current, |a|) else w;
            WindowInvariant(a + [now], w', after, key, limit, ttl, now)
  {
    if key in live {
      StayInWindow(a, w, limit, ttl, now);
    } else {
      OpenWindow(a, w, limit, ttl, now);
    }
  }

  /** What does not touch the key's counter keeps its windows. */
  lemma OthersKeepWindows(a: seq<int>, w: Starts, live: Store, after: Store, key: string, limit: int, ttl: int, now: int)
    requires limit >= 1 && WindowInvariant(a, w, live, key, limit, ttl, now)
    requires (key in after <==> key in live) && (key in live ==> after[key] == live[key])
    ensures WindowInvariant(a, w, after, key, limit, ttl, now)
  {
  }

  lemma NoWindows(key: string, limit: int, ttl: int, now: int)
    requires limit >= 1
    ensures WindowInvariant([], Starts(-1, 0), Live(map[], now), key, limit, ttl, now)
  {
  }

  lemma {:induction false} WindowsHold(calls: seq<Call>, key: string, limit: int, ttl: int)
    requires Monotone(calls) && FixedUse(calls, key, limit, ttl) && calls != []
    ensures WindowInvariant(Admissions(calls, key), WindowStarts(calls, key), After(calls).0, key, limit, ttl,
                            calls[|calls| - 1].now)
  {
    hide WindowInvariant, AdmitCall, UsesOf, FixedCall;
    var n := |calls| - 1;
    var before, c := calls[..n], calls[n];
    var a, w, live := Admissions(before, key), WindowStarts(before, key), Live(After(before).0, c.now);
    if n > 0 {
      WindowsHold(before, key, limit, ttl);
      WaitKeepsWindows(a, w, After(before).0, key, limit, ttl, calls[n - 1].now, c.now);
    } else {
      NoWindows(key, limit, ttl, c.now);
    }
    CallStep(live, c, key, limit, ttl);
    var (after, ok) := AdmitCall(live, c);
    if ok && UsesOf(c, key) > 0 {
      UseKeepsWindows(a, w, live, after, key, limit, ttl, c.now);
    } else {
      assert Admissions(calls, key) == a && WindowStarts(calls, key) == w;
      OthersKeepWindows(a, w, live, after, key, limit, ttl, c.now);
    }
  }

  lemma StayInWindow(a: seq<int>, w: Starts, limit: int, ttl: int, now: int)
    requires limit >= 1 && Windowed(a, w, limit, ttl) && a != [] && a[|a| - 1] <= now
    requires |a| - w.current < limit && now < a[w.current] + ttl
    ensures Windowed(a + [now], w, limit, ttl)
  {
  }

  lemma OpenWindow(a: seq<int>, w: Starts, limit: int, ttl: int, now: int)
    requires limit >= 1 && ttl >= 1 && Windowed(a, w, limit, ttl) && (a != [] ==> a[|a| - 1] <= now)
    requires a != [] ==> a[w.current] + ttl <= now
    ensures Windowed(a + [now], if a == [] then w else Starts(w.current, |a|), limit, ttl)
  {
  }

  /** Main result: whatever the run, any ttl seconds hold at most 2 * limit - 1 admissions of a key. */
  lemma AdmissionBound(calls: seq<Call>, key: string, limit: int, ttl: int, from: int)
    requires Monotone(calls) && FixedUse(calls, key, limit, ttl)
    ensures CountIn(Admissions(calls, key), from, from + ttl) <= 2 * limit - 1
  {
    if calls != [] {
      WindowsHold(calls, key, limit, ttl);
      SpacedMeansBounded(Admissions(calls, key), 2 * limit - 1, ttl, from);
    }
  }

  // ---------------------------------------------------------------- the bound is reached

  /** A run followed by the same call n times. */
  ghost function Again(calls: seq<Call>, c: Call, n: nat): (r: seq<Call>)
    ensures |r| == |calls| + n && r[..|calls|] == calls && forall i :: |calls| <= i < |r| ==> r[i] == c
  {
    if n == 0 then calls else Again(calls, c, n - 1) + [c]
  }

  ghost function Solo(key: string, limit: int, ttl: int, now: int): Call {
    Call([key], [limit], now, ttl)
  }

  lemma SoloIsItself(key: string, limit: int, ttl: int, now: int)
    requires key != "" && limit >= 1
    ensures Limiting([key], [limit]) == ([key], [limit])
    ensures FixedCall(Solo(key, limit, ttl, now), key, limit, ttl) && UsesOf(Solo(key, limit, ttl, now), key) == 1
  {
    assert [key][..0] == [] && [limit][..0] == [];
    assert Limiting([], [limit]) == ([], []);
    assert [] + [key] == [key] && [] + [limit] == [limit];
  }

  /** A call naming just one key, below its limit, is admitted. */
  lemma SoloAdmitted(calls: seq<Call>, key: string, limit: int, ttl: int, now: int)
    requires key != "" && limit >= 1 && ttl >= 1
    requires var live := Live(After(calls).0, now); key in live ==> live[key].count < limit
    ensures var longer := calls + [Solo(key, limit, ttl, now)];
            && After(longer) == (Bump(Live(After(calls).0, now), key, now, ttl), true)
            && Admissions(longer, key) == Admissions(calls, key) + [now]
  {
    var c, live := Solo(key, limit, ttl, now), Live(After(calls).0, now);
    SoloIsItself(key, limit, ttl, now);
    assert (calls + [c])[..|calls|] == calls;
    assert [key][..0] == [] && [limit][..0] == [];
    assert BumpAll(live, [key], [limit], now, ttl) == Bump(live, key, now, ttl);
  }

  ghost function Copies(now: int, n: nat): (s: seq<int>)
    ensures |s| == n && forall i :: 0 <= i < n ==> s[i] == now
  {
    seq(n, i => now)
  }

  /** After these calls only this key counts, with this counter and these admissions. */
  ghost predicate Holds(calls: seq<Call>, key: string, count: int, end: int, a: seq<int>) {
    After(calls).0 == map[key := Entry(count, end)] && Admissions(calls, key) == a
  }

  lemma OneMoreAdmitted(calls: seq<Call>, key: string, limit: int, ttl: int, now: int, count: int, end: int, a: seq<int>)
    requires key != "" && ttl >= 1 && limit >= 1 && Holds(calls, key, count, end, a) && end > now && count < limit
    ensures Holds(calls + [Solo(key, limit, ttl, now)], key, count + 1, end, a + [now])
  {
    var live := map[key := Entry(count, end)];
    assert Live(After(calls).0, now) == live;
    assert Bump(live, key, now, ttl) == map[key := Entry(count + 1, end)];
    SoloAdmitted(calls, key, limit, ttl, now);
  }

  /** When nothing is live any more, the next call opens a fresh window. */
  lemma FreshAdmitted(calls: seq<Call>, key: string, limit: int, ttl: int, now: int, a: seq<int>)
    requires key != "" && ttl >= 1 && limit >= 1 && Live(After(calls).0, now) == map[] && Admissions(calls, key) == a
    ensures Holds(calls + [Solo(key, limit, ttl, now)], key, 1, now + ttl, a + [now])
  {
    SoloAdmitted(calls, key, limit, ttl, now);
  }

  lemma {:induction false} AgainAdmitted(calls: seq<Call>, key: string, limit: int, ttl: int, now: int,
                                         count: int, end: int, a: seq<int>, n: nat)
    requires key != "" && ttl >= 1 && limit >= 1 && Holds(calls, key, count, end, a) && end > now && count + n <= limit
    ensures Holds(Again(calls, Solo(key, limit, ttl, now), n), key, count + n, end, a + Copies(now, n))
  {
    hide Holds, AdmitCall;
    if n == 0 {
      assert a + Copies(now, 0) == a;
    } else {
      assert a + Copies(now, n) == a + Copies(now, n - 1) + [now];
      AgainAdmitted(calls, key, limit, ttl, now, count, end, a, n - 1);
      OneMoreAdmitted(Again(calls, Solo(key, limit, ttl, now), n - 1), key, limit, ttl, now, count + (n - 1), end,
                      a + Copies(now, n - 1));
    }
  }

  lemma CountSnoc(a: seq<int>, t: int, from: int, to: int)
    ensures CountIn(a + [t], from, to) == CountIn(a, from, to) + (if from <= t < to then 1 else 0)
  {
    assert (a + [t])[..|a|] == a;
  }

  lemma {:induction false} CountCopies(a: seq<int>, now: int, n: nat, from: int, to: int)
    ensures CountIn(a + Copies(now, n), from, to) == CountIn(a, from, to) + (if from <= now < to then n else 0)
  {
    hide CountIn;
    if n == 0 {
      assert a + Copies(now, 0) == a;
    } else {
      CountCopies(a, now, n - 1, from, to);
      CountSnoc(a + Copies(now, n - 1), now, from, to);
      assert a + Copies(now, n) == a + Copies(now, n - 1) + [now];
    }
  }

  /** Main result: the bound 2 * limit - 1 cannot be lowered, for any limit and any ttl of two seconds or more. */
  lemma AdmissionBoundIsTight(key: string, limit: int, ttl: int) returns (calls: seq<Call>)
    requires key != "" && limit >= 1 && ttl >= 2
    ensures Monotone(calls) && FixedUse(calls, key, limit, ttl)
    ensures CountIn(Admissions(calls, key), ttl - 1, 2 * ttl - 1) == 2 * limit - 1
  {
    var first, late, next := Solo(key, limit, ttl, 0), Solo(key, limit, ttl, ttl - 1), Solo(key, limit, ttl, ttl);
    var started := [first];
    var filled := Again(started, late, limit - 1);
    var reopened := filled + [next];
    calls := Again(reopened, next, limit - 1);
    TightShape(key, limit, ttl, started, filled, reopened, calls);
    TightAdmissions(key, limit, ttl, started, filled, reopened, calls);
    TightCount(ttl, limit);
  }

  /** One admission opens the first window, limit - 1 late ones fill it, and limit more fill the next. */
  lemma TightAdmissions(key: string, limit: int, ttl: int, started: seq<Call>, filled: seq<Call>, reopened: seq<Call>, calls: seq<Call>)
    requires key != "" && limit >= 1 && ttl >= 2
    requires started == [Solo(key, limit, ttl, 0)] && filled == Again(started, Solo(key, limit, ttl, ttl - 1), limit - 1)
    requires reopened == filled + [Solo(key, limit, ttl, ttl)] && calls == Again(reopened, Solo(key, limit, ttl, ttl), limit - 1)
    ensures Admissions(calls, key) == [0] + Copies(ttl - 1, limit - 1) + [ttl] + Copies(ttl, limit - 1)
  {
    hide Holds, After, AdmitCall;
    var a := [0] + Copies(ttl - 1, limit - 1);
    StartAdmitted(key, limit, ttl);
    AgainAdmitted(started, key, limit, ttl, ttl - 1, 1, ttl, [0], limit - 1);
    ReopenAdmitted(filled, key, limit, ttl, a);
    AgainAdmitted(reopened, key, limit, ttl, ttl, 1, 2 * ttl, a + [ttl], limit - 1);
    HoldsAdmissions(calls, key, limit, 2 * ttl, a + [ttl] + Copies(ttl, limit - 1));
  }

  lemma HoldsAdmissions(calls: seq<Call>, key: string, count: int, end: int, a: seq<int>)
    requires Holds(calls, key, count, end, a)
    ensures Admissions(calls, key) == a
  {
  }

  lemma StartAdmitted(key: string, limit: int, ttl: int)
    requires key != "" && ttl >= 1 && limit >= 1
    ensures Holds([Solo(key, limit, ttl, 0)], key, 1, ttl, [0])
  {
    FreshAdmitted([], key, limit, ttl, 0, []);
    assert [] + [Solo(key, limit, ttl, 0)] == [Solo(key, limit, ttl, 0)] && [] + [0] == [0];
  }

  lemma ReopenAdmitted(calls: seq<Call>, key: string, limit: int, ttl: int, a: seq<int>)
    requires key != "" && ttl >= 1 && limit >= 1 && Holds(calls, key, limit, ttl, a)
    ensures Holds(calls + [Solo(key, limit, ttl, ttl)], key, 1, 2 * ttl, a + [ttl])
  {
    hide AdmitCall, Admissions, CountIn;
    assert Live(map[key := Entry(limit, ttl)], ttl) == map[];
    FreshAdmitted(calls, key, limit, ttl, ttl, a);
  }

  lemma TightCount(ttl: int, limit: int)
    requires ttl >= 2 && limit >= 1
    ensures CountIn([0] + Copies(ttl - 1, limit - 1) + [ttl] + Copies(ttl, limit - 1), ttl - 1, 2 * ttl - 1) == 2 * limit - 1
  {
    var a := [0] + Copies(ttl - 1, limit - 1);
    assert CountIn([0], ttl - 1, 2 * ttl - 1) == 0;
    hide CountIn;
    CountSnoc(a, ttl, ttl - 1, 2 * ttl - 1);
    CountCopies([0], ttl - 1, limit - 1, ttl - 1, 2 * ttl - 1);
    CountCopies(a + [ttl], ttl, limit - 1, ttl - 1, 2 * ttl - 1);
  }

  lemma TightShape(key: string, limit: int, ttl: int, started: seq<Call>, filled: seq<Call>, reopened: seq<Call>, calls: seq<Call>)
    requires key != "" && limit >= 1 && ttl >= 2
    requires started == [Solo(key, limit, ttl, 0)] && filled == Again(started, Solo(key, limit, ttl, ttl - 1), limit - 1)
    requires reopened == filled + [Solo(key, limit, ttl, ttl)] && calls == Again(reopened, Solo(key, limit, ttl, ttl), limit - 1)
    ensures Monotone(calls) && FixedUse(calls, key, limit, ttl)
  {
    forall i | 0 <= i < |calls|
      ensures calls[i] == Solo(key, limit, ttl, if i == 0 then 0 else if i < limit then ttl - 1 else ttl)
    {
      if i < |reopened| {
        assert calls[i] == calls[..|reopened|][i];
        if i < |filled| { assert i == 0 ==> filled[i] == filled[..1][0]; }
      }
    }
    forall i | 0 <= i < |calls| ensures FixedCall(calls[i], key, limit, ttl) {
      SoloIsItself(key, limit, ttl, calls[i].now);
    }
  }

  // ---------------------------------------------------------------- the keys of one eligibility check

  /** A colon-free field is recovered from what follows it. */
  lemma {:induction false} FieldUnique(a: string, b: string, x: string, y: string)
    requires ':' !in a && ':' !in b && (x == "" || x[0] == ':') && (y == "" || y[0] == ':')
    requires a + x == b + y
    ensures a == b && x == y
  {
    var s := a + x;
    assert a != "" ==> s[0] == a[0] && a[0] in a;
    assert b != "" ==> s[0] == b[0] && b[0] in b;
    assert a == "" ==> s == x;
    assert b == "" ==> s == y;
    if a != "" && b != "" {
      assert s[1..] == a[1..] + x && s[1..] == b[1..] + y;
      FieldUnique(a[1..], b[1..], x, y);
    }
  }

  lemma CancelPrefix(p: string, a: string, b: string)
    requires p + a == p + b
    ensures a == b
  {
    assert a == (p + a)[|p|..] && b == (p + b)[|p|..];
  }

  datatype CounterId = PerInviter(inviter: nat) | PerIP(ip: string) | PerInviterIP(inviter: nat, ip: string)

  function TailOf(id: CounterId): (s: string)
    ensures |s| > 2 && s[0] == ':' && (s[2] == 'p' <==> id.PerIP?)
  {
    match id
    case PerInviter(inviter) => ":inviter:" + Decimal(inviter)
    case PerIP(ip) => ":ip:" + ip
    case PerInviterIP(inviter, ip) => ":inviter:" + (Decimal(inviter) + (":ip:" + ip))
  }

  /** The three formats "inviteReward:w:%d:inviter:%d", "...:ip:%s" and "...:inviter:%d:ip:%s". */
  function KeyOf(window: nat, id: CounterId): string {
    "inviteReward:w:" + (Decimal(window) + TailOf(id))
  }

  /** Main result: different counters never share a key, whatever text a client sends as its address. */
  lemma CountersNeverCollide(w: nat, id: CounterId, w': nat, id': CounterId)
    requires KeyOf(w, id) == KeyOf(w', id')
    ensures w == w' && id == id'
  {
    CancelPrefix("inviteReward:w:", Decimal(w) + TailOf(id), Decimal(w') + TailOf(id'));
    FieldUnique(Decimal(w), Decimal(w'), TailOf(id), TailOf(id'));
    DecimalInjective(w, w');
    TailUnique(id, id');
  }

  lemma TailUnique(id: CounterId, id': CounterId)
    requires TailOf(id) == TailOf(id')
    ensures id == id'
  {
    assert TailOf(id)[2] == TailOf(id')[2];
    if id.PerIP? {
      CancelPrefix(":ip:", id.ip, id'.ip);
    } else {
      var x := if id.PerInviter? then "" else ":ip:" + id.ip;
      var y := if id'.PerInviter? then "" else ":ip:" + id'.ip;
      assert Decimal(id.inviter) + "" == Decimal(id.inviter) && Decimal(id'.inviter) + "" == Decimal(id'.inviter);
      CancelPrefix(":inviter:", Decimal(id.inviter) + x, Decimal(id'.inviter) + y);
      FieldUnique(Decimal(id.inviter), Decimal(id'.inviter), x, y);
      DecimalInjective(id.inviter, id'.inviter);
      if x != "" { CancelPrefix(":ip:", id.ip, id'.ip); }
    }
  }

  /** The administrator's settings; zero or less switches a counter off. */
  datatype Settings = Settings(windowMinutes: int, perInviter: int, perIP: int, perInviterIP: int)

  /** The counters one check uses, in order. */
  function CountersOf(cfg: Settings, inviter: nat, ip: string): (r: (seq<CounterId>, seq<int>))
    ensures |r.0| == |r.1|
    ensures forall i :: 0 <= i < |r.1| ==> r.1[i] > 0
    ensures forall i, j :: 0 <= i < j < |r.0| ==> r.0[i] != r.0[j]
  {
    var a := if cfg.perInviter > 0 then ([PerInviter(inviter)], [cfg.perInviter]) else ([], []);
    if ip == "" then a
    else
      var b := if cfg.perIP > 0 then (a.0 + [PerIP(ip)], a.1 + [cfg.perIP]) else a;
      if cfg.perInviterIP > 0 then (b.0 + [PerInviterIP(inviter, ip)], b.1 + [cfg.perInviterIP]) else b
  }

  ghost function KeysOf(window: nat, ids: seq<CounterId>): (keys: seq<string>)
    ensures |keys| == |ids| && forall i :: 0 <= i < |ids| ==> keys[i] == KeyOf(window, ids[i])
  {
    seq(|ids|, i requires 0 <= i < |ids| => KeyOf(window, ids[i]))
  }

  method BuildKeys(cfg: Settings, inviterId: nat, ip: string) returns (keys: seq<string>, limits: seq<int>)
    requires cfg.windowMinutes > 0
    ensures var c := CountersOf(cfg, inviterId, ip); keys == KeysOf(cfg.windowMinutes, c.0) && limits == c.1
    ensures forall key :: key in keys <==> Counted(cfg, inviterId, ip, key)
  {
    hide KeyOf;
    keys, limits := [], [];
    if cfg.perInviter > 0 {
      keys := keys + [KeyOf(cfg.windowMinutes, PerInviter(inviterId))];
      limits := limits + [cfg.perInviter];
    }
    if ip == "" {
      return;
    }
    if cfg.perIP > 0 {
      keys := keys + [KeyOf(cfg.windowMinutes, PerIP(ip))];
      limits := limits + [cfg.perIP];
    }
    if cfg.perInviterIP > 0 {
      keys := keys + [KeyOf(cfg.windowMinutes, PerInviterIP(inviterId, ip))];
      limits := limits + [cfg.perInviterIP];
    }
  }

  /** A switched-on counter that has used up its limit. */
  ghost predicate Full(live: Store, key: string, limit: int) {
    limit > 0 && key in live && live[key].count >= limit
  }

  /** The keys a check of this inviter and address counts: each of the three counters that is switched on, the
      last two only where there is an address. */
  ghost predicate Counted(cfg: Settings, inviter: nat, ip: string, key: string)
    requires cfg.windowMinutes > 0
  {
    var w := cfg.windowMinutes;
    || (cfg.perInviter > 0 && key == KeyOf(w, PerInviter(inviter)))
    || (cfg.perIP > 0 && ip != "" && key == KeyOf(w, PerIP(ip)))
    || (cfg.perInviterIP > 0 && ip != "" && key == KeyOf(w, PerInviterIP(inviter, ip)))
  }

  /** One of them is full. */
  ghost predicate SomeFull(live: Store, cfg: Settings, inviter: nat, ip: string)
    requires cfg.windowMinutes > 0
  {
    var w := cfg.windowMinutes;
    || Full(live, KeyOf(w, PerInviter(inviter)), cfg.perInviter)
    || (ip != "" && Full(live, KeyOf(w, PerIP(ip)), cfg.perIP))
    || (ip != "" && Full(live, KeyOf(w, PerInviterIP(inviter, ip)), cfg.perInviterIP))
  }

  lemma OneMoreCounter(live: Store, w: nat, ids: seq<CounterId>, limits: seq<int>, id: CounterId, limit: int, key: string)
    requires |ids| == |limits|
    ensures Exhausted(live, KeysOf(w, ids + [id]), limits + [limit])
       <==> Exhausted(live, KeysOf(w, ids), limits) || Full(live, KeyOf(w, id), limit)
    ensures Uses(KeysOf(w, ids + [id]), limits + [limit], key)
         == Uses(KeysOf(w, ids), limits, key) + if limit > 0 && KeyOf(w, id) == key then 1 else 0
  {
    hide KeyOf, Exhausted;
    var keys := KeysOf(w, ids);
    assert KeysOf(w, ids + [id]) == keys + [KeyOf(w, id)];
    ExhaustedSnoc(live, keys, limits, KeyOf(w, id), limit);
    assert (keys + [KeyOf(w, id)])[..|keys|] == keys && (limits + [limit])[..|keys|] == limits;
  }

  lemma NoCounters(live: Store, w: nat, key: string)
    ensures !Exhausted(live, KeysOf(w, []), []) && Uses(KeysOf(w, []), [], key) == 0
  {
    assert KeysOf(w, []) == [];
  }

  /** Which counters decide, and which are counted. */
  lemma CountersDecide(cfg: Settings, inviter: nat, ip: string, live: Store, key: string)
    requires cfg.windowMinutes > 0
    ensures var c, w := CountersOf(cfg, inviter, ip), cfg.windowMinutes;
            && (Exhausted(live, KeysOf(w, c.0), c.1) <==> SomeFull(live, cfg, inviter, ip))
            && Uses(KeysOf(w, c.0), c.1, key) == if Counted(cfg, inviter, ip, key) then 1 else 0
  {
    hide KeyOf, Exhausted, Full, Uses;
    var w := cfg.windowMinutes;
    var own, address, both := PerInviter(inviter), PerIP(ip), PerInviterIP(inviter, ip);
    ThreeKeys(w, inviter, ip);
    NoCounters(live, w, key);
    SwitchedOff(live, cfg, inviter, ip);
    var ids, limits := [], [];
    if cfg.perInviter > 0 {
      OneMoreCounter(live, w, ids, limits, own, cfg.perInviter, key);
      assert [] + [own] == [own] && [] + [cfg.perInviter] == [cfg.perInviter];
      ids, limits := [own], [cfg.perInviter];
    }
    if ip != "" {
      if cfg.perIP > 0 {
        OneMoreCounter(live, w, ids, limits, address, cfg.perIP, key);
        ids, limits := ids + [address], limits + [cfg.perIP];
      }
      if cfg.perInviterIP > 0 {
        OneMoreCounter(live, w, ids, limits, both, cfg.perInviterIP, key);
        ids, limits := ids + [both], limits + [cfg.perInviterIP];
      }
    }
    assert CountersOf(cfg, inviter, ip) == (ids, limits);
  }

  lemma ThreeKeys(w: nat, inviter: nat, ip: string)
    ensures var own, address, both := KeyOf(w, PerInviter(inviter)), KeyOf(w, PerIP(ip)), KeyOf(w, PerInviterIP(inviter, ip));
            own != address && own != both && address != both
  {
    var own, address, both := PerInviter(inviter), PerIP(ip), PerInviterIP(inviter, ip);
    hide KeyOf;
    if KeyOf(w, own) == KeyOf(w, address) { CountersNeverCollide(w, own, w, address); }
    if KeyOf(w, own) == KeyOf(w, both) { CountersNeverCollide(w, own, w, both); }
    if KeyOf(w, address) == KeyOf(w, both) { CountersNeverCollide(w, address, w, both); }
  }

  lemma SwitchedOff(live: Store, cfg: Settings, inviter: nat, ip: string)
    requires cfg.windowMinutes > 0
    ensures var w := cfg.windowMinutes;
            && (cfg.perInviter <= 0 ==> !Full(live, KeyOf(w, PerInviter(inviter)), cfg.perInviter))
            && (cfg.perIP <= 0 ==> !Full(live, KeyOf(w, PerIP(ip)), cfg.perIP))
            && (cfg.perInviterIP <= 0 ==> !Full(live, KeyOf(w, PerInviterIP(inviter, ip)), cfg.perInviterIP))
  {
    hide KeyOf;
  }

  /** What one check does to a counter: it goes up by one, in its running window or in a fresh one. */
  ghost predicate GoesUp(before: Store, after: Store, key: string, end: int) {
    && key in after && after[key].count == Counter(before, key) + 1
    && after[key].expiredAt == if key in before then before[key].expiredAt else end
  }

  ghost predicate Untouched(before: Store, after: Store, key: string) {
    (key in after <==> key in before) && (key in before ==> after[key] == before[key])
  }

  /** An admitted check counts exactly its counters, each once. */
  lemma CheckCounts(cfg: Settings, inviter: nat, ip: string, live: Store, now: int)
    requires cfg.windowMinutes > 0
    ensures var c, w := CountersOf(cfg, inviter, ip), cfg.windowMinutes;
            var after := BumpAll(live, KeysOf(w, c.0), c.1, now, w * 60);
            forall k :: if Counted(cfg, inviter, ip, k) then GoesUp(live, after, k, now + w * 60) else Untouched(live, after, k)
  {
    hide BumpAll, CountersOf, Counted, Uses, KeyOf;
    var c, w := CountersOf(cfg, inviter, ip), cfg.windowMinutes;
    var after := BumpAll(live, KeysOf(w, c.0), c.1, now, w * 60);
    forall k
      ensures if Counted(cfg, inviter, ip, k) then GoesUp(live, after, k, now + w * 60) else Untouched(live, after, k)
    {
      CountersDecide(cfg, inviter, ip, live, k);
      BumpAllAt(live, KeysOf(w, c.0), c.1, now, w * 60, k);
    }
  }

  /** CheckInviteRewardEligibility with the in-memory backend. */
  method CheckEligibility(limiter: InviteRewardMemoryLimiter, cfg: Settings, inviterId: int, clientIP: string, now: int)
      returns (ok: bool, reason: string)
    modifies limiter
    ensures ok <==> reason == ""
    ensures inviterId <= 0 || cfg.windowMinutes <= 0 ==> ok && limiter.store == old(limiter.store)
    ensures inviterId > 0 && cfg.windowMinutes > 0 ==>
              var c := CountersOf(cfg, inviterId, Text.TrimSpace(clientIP));
              (Live(limiter.store, now), ok)
              == Admit(Live(old(limiter.store), now), KeysOf(cfg.windowMinutes, c.0), c.1, now, cfg.windowMinutes * 60)
    ensures inviterId > 0 && cfg.windowMinutes > 0 ==>
              var before, after, ip := Live(old(limiter.store), now), Live(limiter.store, now), Text.TrimSpace(clientIP);
              && (!ok <==> SomeFull(before, cfg, inviterId, ip))
              && forall k :: if ok && Counted(cfg, inviterId, ip, k) then GoesUp(before, after, k, now + cfg.windowMinutes * 60)
                             else Untouched(before, after, k)
  {
    if inviterId <= 0 {
      return true, "";
    }
    if cfg.windowMinutes <= 0 {
      return true, "";
    }
    var ttlSeconds := cfg.windowMinutes * 60;
    var keys, limits := BuildKeys(cfg, inviterId, Text.TrimSpace(clientIP));
    FilterHarmless(Live(limiter.store, now), keys, limits, now, ttlSeconds);
    CountersDecide(cfg, inviterId, Text.TrimSpace(clientIP), Live(limiter.store, now), "");
    CheckCounts(cfg, inviterId, Text.TrimSpace(clientIP), Live(limiter.store, now), now);
    ok := CheckWithMemory(limiter, keys, limits, now, ttlSeconds);
    reason := if ok then "" else "invite_reward_limit";
  }

  /** A check names each of its keys once, so the admission bound applies to it. */
  lemma EligibilityKeysDistinct(cfg: Settings, window: nat, inviter: nat, ip: string)
    ensures var keys := KeysOf(window, CountersOf(cfg, inviter, ip).0);
            forall i, j :: 0 <= i < j < |keys| ==> keys[i] != keys[j]
  {
    var ids := CountersOf(cfg, inviter, ip).0;
    var keys := KeysOf(window, ids);
    forall i, j | 0 <= i < j < |keys| ensures keys[i] != keys[j] {
      if keys[i] == keys[j] {
        CountersNeverCollide(window, ids[i], window, ids[j]);
      }
    }
  }

  /** What one eligibility check asks of the limiter. */
  datatype Check = Check(inviter: nat, ip: string, now: int)

  ghost function CallOf(cfg: Settings, check: Check): Call
    requires cfg.windowMinutes > 0
  {
    var c := CountersOf(cfg, check.inviter, check.ip);
    Call(KeysOf(cfg.windowMinutes, c.0), c.1, check.now, cfg.windowMinutes * 60)
  }

  function LimitOf(cfg: Settings, id: CounterId): int {
    match id
    case PerInviter(_) => cfg.perInviter
    case PerIP(_) => cfg.perIP
    case PerInviterIP(_, _) => cfg.perInviterIP
  }

  lemma {:induction false} AllLimiting(keys: seq<string>, limits: seq<int>)
    requires |keys| <= |limits| && forall i :: 0 <= i < |keys| ==> keys[i] != "" && limits[i] > 0
    ensures Limiting(keys, limits).0 == keys && Limiting(keys, limits).1 == limits[..|keys|]
  {
    if keys != [] {
      var n := |keys| - 1;
      AllLimiting(keys[..n], limits);
      LimitingSnoc(keys[..n], keys[n], limits);
      assert keys == keys[..n] + [keys[n]] && limits[..n + 1] == limits[..n] + [limits[n]];
    }
  }

  lemma LimitingSnoc(keys: seq<string>, key: string, limits: seq<int>)
    requires |keys| < |limits| && key != "" && limits[|keys|] > 0
    ensures var r := Limiting(keys, limits); Limiting(keys + [key], limits) == (r.0 + [key], r.1 + [limits[|keys|]])
  {
    assert (keys + [key])[..|keys|] == keys;
  }

  lemma {:induction false} DistinctUses(keys: seq<string>, limits: seq<int>, key: string)
    requires |keys| == |limits| && forall i, j :: 0 <= i < j < |keys| ==> keys[i] != keys[j]
    ensures Uses(keys, limits, key) <= 1 && (key !in keys ==> Uses(keys, limits, key) == 0)
  {
    if keys != [] {
      var n := |keys| - 1;
      DistinctUses(keys[..n], limits[..n], key);
    }
  }

  lemma CheckIsFixed(cfg: Settings, check: Check, id: CounterId)
    requires cfg.windowMinutes > 0
    ensures FixedCall(CallOf(cfg, check), KeyOf(cfg.windowMinutes, id), LimitOf(cfg, id), cfg.windowMinutes * 60)
  {
    var w, c := cfg.windowMinutes, CountersOf(cfg, check.inviter, check.ip);
    var keys := KeysOf(w, c.0);
    AllLimiting(keys, c.1);
    assert c.1[..|keys|] == c.1;
    EligibilityKeysDistinct(cfg, w, check.inviter, check.ip);
    DistinctUses(keys, c.1, KeyOf(w, id));
    forall i | 0 <= i < |keys| && keys[i] == KeyOf(w, id) ensures c.1[i] == LimitOf(cfg, id) {
      CountersNeverCollide(w, c.0[i], w, id);
      LimitsMatch(cfg, check.inviter, check.ip, i);
    }
  }

  lemma LimitsMatch(cfg: Settings, inviter: nat, ip: string, i: nat)
    requires i < |CountersOf(cfg, inviter, ip).0|
    ensures var c := CountersOf(cfg, inviter, ip); c.1[i] == LimitOf(cfg, c.0[i])
  {
  }

  ghost function CallsOf(cfg: Settings, checks: seq<Check>): (calls: seq<Call>)
    requires cfg.windowMinutes > 0
    ensures |calls| == |checks| && forall i :: 0 <= i < |calls| ==> calls[i] == CallOf(cfg, checks[i])
  {
    seq(|checks|, i requires 0 <= i < |checks| => CallOf(cfg, checks[i]))
  }

  /** Main result: with fixed settings, whatever checks arrive, no window length of time sees a counter
      admitted more than twice its limit, less one. */
  lemma EligibilityBound(cfg: Settings, checks: seq<Check>, id: CounterId, from: int)
    requires cfg.windowMinutes > 0 && LimitOf(cfg, id) >= 1
    requires forall i, j :: 0 <= i < j < |checks| ==> checks[i].now <= checks[j].now
    ensures CountIn(Admissions(CallsOf(cfg, checks), KeyOf(cfg.windowMinutes, id)), from, from + cfg.windowMinutes * 60)
         <= 2 * LimitOf(cfg, id) - 1
  {
    hide FixedCall, Admissions, CountIn, LimitOf, KeyOf, Limiting;
    var key, limit, ttl := KeyOf(cfg.windowMinutes, id), LimitOf(cfg, id), cfg.windowMinutes * 60;
    var calls := CallsOf(cfg, checks);
    forall i | 0 <= i < |calls| ensures FixedCall(calls[i], key, limit, ttl) {
      CheckIsFixed(cfg, checks[i], id);
    }
    AdmissionBound(calls, key, limit, ttl, from);
  }
}
