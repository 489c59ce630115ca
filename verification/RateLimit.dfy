/**
 The in-memory sliding-window rate limiter and its background sweeper
 (common/rate-limit.go), against an ideal limiter that keeps its whole history.
 */
module RateLimit {
  import opened Windows

  type Store = map<string, seq<int>>

  /** No stored queue is ever empty, so looking at its front is always safe. */
  ghost predicate ValidStore(store: Store) {
    forall k :: k in store ==> store[k] != []
  }

  /** What one request does to the store: the queue of a key is bounded by max and slides. */
  function Decide(store: Store, key: string, max: nat, duration: int, now: int): (r: (Store, bool))
    requires ValidStore(store)
    ensures ValidStore(r.0)
    ensures forall k :: k != key ==> (k in r.0 <==> k in store) && (k in store ==> r.0[k] == store[k])
  {
    if key !in store then (store[key := [now]], true)
    else if |store[key]| < max then (store[key := store[key] + [now]], true)
    else if now - store[key][0] >= duration then (store[key := store[key][1..] + [now]], true)
    else (store, false)
  }

  const SECOND := 1_000_000_000

  /** int64(d.Seconds()) for a time.Duration in nanoseconds: truncated towards zero. */
  function WholeSeconds(nanos: int): (r: int)
    ensures nanos >= 0 ==> r >= 0 && r * 1_000_000_000 <= nanos < (r + 1) * 1_000_000_000
  {
    if nanos >= 0 then nanos / SECOND else -(-nanos / SECOND)
  }

  /** One sweep keeps exactly the keys whose newest entry is not older than the expiration. */
  function Swept(store: Store, expiration: int, now: int): (r: Store)
    requires ValidStore(store)
    ensures ValidStore(r)
  {
    map k | k in store && now - store[k][|store[k]| - 1] <= expiration :: store[k]
  }

  class InMemoryRateLimiter {
    var store: Store
    /** A time.Duration in nanoseconds. */
    const expirationDuration: int

    constructor (expirationDuration: int)
      ensures store == map[] && this.expirationDuration == expirationDuration
    {
      store := map[];
      this.expirationDuration := expirationDuration;
    }

    method Request(key: string, max: nat, duration: int, now: int) returns (ok: bool)
      requires ValidStore(store)
      modifies this
      ensures (store, ok) == Decide(old(store), key, max, duration, now)
      ensures ValidStore(store)
    {
      if key in store {
        var queue := store[key];
        if |queue| < max {
          store := store[key := queue + [now]];
          return true;
        } else if now - queue[0] >= duration {
          queue := queue[1..];
          queue := queue + [now];
          store := store[key := queue];
          return true;
        } else {
          return false;
        }
      }
      var queue: seq<int> := [];
      queue := queue + [now];
      assert queue == [now];
      store := store[key := queue];
      return true;
    }

    /** One round of the background sweeper; the order in which keys are visited does not matter. */
    method ClearExpiredItems(now: int)
      requires ValidStore(store)
      modifies this
      ensures store == Swept(old(store), WholeSeconds(expirationDuration), now)
      ensures ValidStore(store)
    {
      var expiration := WholeSeconds(expirationDuration);
      var pending := store.Keys;
      while pending != {}
        invariant pending <= old(store).Keys
        invariant store == map k | k in old(store) && (k in pending || k in Swept(old(store), expiration, now)) :: old(store)[k]
        decreases |pending|
      {
        var key :| key in pending;
        var queue := store[key];
        var size := |queue|;
        if size == 0 || now - queue[size - 1] > expiration {
          store := store - {key};
        }
        pending := pending - {key};
      }
    }
  }

  // ---------------------------------------------------------------- runs

  /** Per-key parameters never change during a run; the sweeper runs for any positive duration, but forgets
      a key after the whole seconds in it, which may be none. */
  datatype Config = Config(max: string -> nat, duration: string -> int, expirationDuration: int) {
    predicate Sweeps() {
      expirationDuration > 0
    }

    function Patience(): (r: int)
      ensures Sweeps() ==> r >= 0
    {
      WholeSeconds(expirationDuration)
    }
  }

  datatype Event = Request(key: string, now: int) | Sweep(now: int)

  /** The runs that can happen: the clock never goes back and only an enabled sweeper sweeps. */
  ghost predicate Possible(cfg: Config, run: seq<Event>) {
    && (forall i, j :: 0 <= i < j < |run| ==> run[i].now <= run[j].now)
    && (!cfg.Sweeps() ==> forall i :: 0 <= i < |run| ==> run[i].Request?)
  }

  ghost function StoreAfter(cfg: Config, run: seq<Event>): (store: Store)
    ensures ValidStore(store)
  {
    if run == [] then map[]
    else
      var before := StoreAfter(cfg, run[..|run| - 1]);
      match run[|run| - 1]
      case Request(key, now) => Decide(before, key, cfg.max(key), cfg.duration(key), now).0
      case Sweep(now) => Swept(before, cfg.Patience(), now)
  }

  /** The limiter's answer to the last event of a run. */
  ghost predicate Accepts(cfg: Config, run: seq<Event>)
    requires run != [] && run[|run| - 1].Request?
  {
    var e := run[|run| - 1];
    Decide(StoreAfter(cfg, run[..|run| - 1]), e.key, cfg.max(e.key), cfg.duration(e.key), e.now).1
  }

  /** The timestamps the limiter has accepted for a key, oldest first. */
  ghost function Accepted(cfg: Config, run: seq<Event>, key: string): seq<int> {
    if run == [] then []
    else
      var e := run[|run| - 1];
      Accepted(cfg, run[..|run| - 1], key) + (if e.Request? && e.key == key && Accepts(cfg, run) then [e.now] else [])
  }

  /** How many timestamps of a history lie after a given instant. */
  ghost function CountAfter(history: seq<int>, instant: int): nat {
    if history == [] then 0
    else CountAfter(history[..|history| - 1], instant) + (if history[|history| - 1] > instant then 1 else 0)
  }

  /** The ideal limiter: accept iff fewer than max accepted timestamps lie in (now - duration, now]. */
  ghost predicate IdealAccepts(history: seq<int>, max: nat, duration: int, now: int) {
    CountAfter(history, now - duration) < max
  }

  /** The history the ideal limiter keeps for a key. */
  ghost function IdealHistory(cfg: Config, run: seq<Event>, key: string): seq<int> {
    if run == [] then []
    else
      var e := run[|run| - 1];
      var history := IdealHistory(cfg, run[..|run| - 1], key);
      if e.Request? && e.key == key && IdealAccepts(history, cfg.max(key), cfg.duration(key), e.now)
      then history + [e.now] else history
  }

  /** The two limiters give the same answer to the last request of a run. */
  ghost predicate SameAnswer(cfg: Config, run: seq<Event>)
    requires run != [] && run[|run| - 1].Request?
  {
    var e := run[|run| - 1];
    Accepts(cfg, run)
    <==> IdealAccepts(IdealHistory(cfg, run[..|run| - 1], e.key), cfg.max(e.key), cfg.duration(e.key), e.now)
  }

  ghost predicate AlwaysAgrees(cfg: Config) {
    forall run: seq<Event> :: Possible(cfg, run) && run != [] && run[|run| - 1].Request? ==> SameAnswer(cfg, run)
  }

  /** Bounded queues lose nothing that matters: every key may be asked once, and the sweeper
      forgets a key only when nothing of it can still count. */
  ghost predicate WellConfigured(cfg: Config) {
    forall key :: cfg.max(key) >= 1 && (!cfg.Sweeps() || cfg.duration(key) <= cfg.Patience() + 1)
  }

  // ---------------------------------------------------------------- counting

  lemma {:induction false} CountAtMost(history: seq<int>, instant: int, k: nat)
    requires k <= |history| && forall i :: 0 <= i < k ==> history[i] <= instant
    ensures CountAfter(history, instant) <= |history| - k
  {
    if |history| > k { CountAtMost(history[..|history| - 1], instant, k); }
    else if history != [] { CountAtMost(history[..|history| - 1], instant, k - 1); }
  }

  lemma {:induction false} CountAtLeast(history: seq<int>, instant: int, k: nat)
    requires k <= |history| && forall i :: k <= i < |history| ==> history[i] > instant
    ensures CountAfter(history, instant) >= |history| - k
  {
    if |history| > k { CountAtLeast(history[..|history| - 1], instant, k); }
  }

  // ---------------------------------------------------------------- agreement

  /** The queue stored for a key; a key the limiter does not know has the empty queue. */
  function QueueOf(store: Store, key: string): seq<int> {
    if key in store then store[key] else []
  }

  /** How a bounded queue relates to the full history at clock reading now: it is the newest part
      of it, and if it is not full then nothing older can still count. */
  ghost predicate Fits(queue: seq<int>, history: seq<int>, max: nat, duration: int, now: int) {
    && (forall i, j :: 0 <= i < j < |history| ==> history[i] <= history[j])
    && (forall i :: 0 <= i < |history| ==> history[i] <= now)
    && |queue| <= max && |queue| <= |history|
    && queue == history[|history| - |queue|..]
    && (|queue| < max ==> forall i :: 0 <= i < |history| - |queue| ==> now - history[i] >= duration)
  }

  /** What is kept of the queue, plus the new timestamp, fits the longer history. */
  lemma PushFits(kept: seq<int>, history: seq<int>, max: nat, duration: int, now: int)
    requires Fits(kept, history, max, duration, now) && |kept| < max
    ensures Fits(kept + [now], history + [now], max, duration, now)
  {
    var n, k := |history|, |kept|;
    assert (history + [now])[n - k..] == kept + [now];
  }

  lemma RequestAgrees(queue: seq<int>, history: seq<int>, max: nat, duration: int, now: int)
    requires max >= 1 && Fits(queue, history, max, duration, now)
    ensures |queue| < max ==> IdealAccepts(history, max, duration, now) && Fits(queue + [now], history + [now], max, duration, now)
    ensures |queue| == max && now - queue[0] >= duration ==>
              IdealAccepts(history, max, duration, now) && Fits(queue[1..] + [now], history + [now], max, duration, now)
    ensures |queue| == max && now - queue[0] < duration ==> !IdealAccepts(history, max, duration, now)
  {
    var n, q := |history|, |queue|;
    if q < max {
      CountAtMost(history, now - duration, n - q);
      PushFits(queue, history, max, duration, now);
    } else {
      assert queue[0] == history[n - q];
      if now - queue[0] >= duration {
        CountAtMost(history, now - duration, n - q + 1);
        assert history[n - q..][1..] == history[n - q + 1..];
        PushFits(queue[1..], history, max, duration, now);
      } else {
        CountAtLeast(history, now - duration, n - q);
      }
    }
  }

  ghost predicate Related(store: Store, key: string, history: seq<int>, cfg: Config, now: int) {
    Fits(QueueOf(store, key), history, cfg.max(key), cfg.duration(key), now)
  }

  lemma SweepKeepsFit(cfg: Config, store: Store, key: string, history: seq<int>, now: int)
    requires WellConfigured(cfg) && cfg.Sweeps() && ValidStore(store) && Related(store, key, history, cfg, now)
    ensures Related(Swept(store, cfg.Patience(), now), key, history, cfg, now)
  {
    if key in store && key !in Swept(store, cfg.Patience(), now) {
      var queue, n := store[key], |history|;
      assert queue[|queue| - 1] == history[n - 1];
      forall i | 0 <= i < n ensures now - history[i] >= cfg.duration(key) {
        assert history[i] <= history[n - 1];
      }
    }
  }

  lemma {:induction false} RunRelated(cfg: Config, run: seq<Event>, key: string)
    requires WellConfigured(cfg) && Possible(cfg, run) && run != []
    ensures Related(StoreAfter(cfg, run), key, IdealHistory(cfg, run, key), cfg, run[|run| - 1].now)
    ensures run[|run| - 1].Request? ==> SameAnswer(cfg, run)
    decreases |run|, 1
  {
    var e := run[|run| - 1];
    var prefix := run[..|run| - 1];
    RelatedBefore(cfg, run, key);
    match e
    case Sweep(now) =>
      SweepKeepsFit(cfg, StoreAfter(cfg, prefix), key, IdealHistory(cfg, prefix, key), now);
    case Request(k, now) =>
      RelatedBefore(cfg, run, k);
      var queue := QueueOf(StoreAfter(cfg, prefix), k);
      RequestAgrees(queue, IdealHistory(cfg, prefix, k), cfg.max(k), cfg.duration(k), now);
      assert queue == [] ==> queue + [now] == [now];
  }

  lemma {:induction false} RelatedBefore(cfg: Config, run: seq<Event>, key: string)
    requires WellConfigured(cfg) && Possible(cfg, run) && run != []
    ensures var prefix := run[..|run| - 1];
            Related(StoreAfter(cfg, prefix), key, IdealHistory(cfg, prefix, key), cfg, run[|run| - 1].now)
    decreases |run|, 0
  {
    var prefix := run[..|run| - 1];
    if prefix != [] {
      assert Possible(cfg, prefix);
      RunRelated(cfg, prefix, key);
    }
  }

  // ---------------------------------------------------------------- when it fails

  /** n requests for one key at instant 0. */
  ghost function Burst(key: string, n: nat): (run: seq<Event>)
    ensures |run| == n && forall i :: 0 <= i < n ==> run[i] == Request(key, 0)
  {
    if n == 0 then [] else Burst(key, n - 1) + [Request(key, 0)]
  }

  ghost function Zeros(n: nat): (s: seq<int>)
    ensures |s| == n && forall i :: 0 <= i < n ==> s[i] == 0
  {
    seq(n, i => 0)
  }

  lemma Snoc(cfg: Config, run: seq<Event>, key: string, now: int)
    ensures var store := StoreAfter(cfg, run); var longer := run + [Request(key, now)];
            && StoreAfter(cfg, longer) == Decide(store, key, cfg.max(key), cfg.duration(key), now).0
            && Accepts(cfg, longer) == Decide(store, key, cfg.max(key), cfg.duration(key), now).1
    ensures var history := IdealHistory(cfg, run, key);
            IdealHistory(cfg, run + [Request(key, now)], key)
            == if IdealAccepts(history, cfg.max(key), cfg.duration(key), now) then history + [now] else history
  {
    var longer := run + [Request(key, now)];
    assert longer[..|longer| - 1] == run;
  }

  lemma RoomMeansAppend(store: Store, key: string, max: nat, duration: int, now: int)
    requires ValidStore(store) && |QueueOf(store, key)| < max
    ensures QueueOf(Decide(store, key, max, duration, now).0, key) == QueueOf(store, key) + [now]
  {
    assert [] + [now] == [now];
  }

  ghost predicate HoldsZeros(cfg: Config, run: seq<Event>, key: string, n: nat) {
    QueueOf(StoreAfter(cfg, run), key) == Zeros(n) && IdealHistory(cfg, run, key) == Zeros(n)
  }

  lemma OneMore(cfg: Config, run: seq<Event>, key: string, n: nat)
    requires HoldsZeros(cfg, run, key, n) && n < cfg.max(key)
    ensures HoldsZeros(cfg, run + [Request(key, 0)], key, n + 1)
  {
    hide Decide, StoreAfter, IdealHistory, CountAfter;
    Snoc(cfg, run, key, 0);
    RoomMeansAppend(StoreAfter(cfg, run), key, cfg.max(key), cfg.duration(key), 0);
    CountAtMost(Zeros(n), 0 - cfg.duration(key), 0);
    assert Zeros(n + 1) == Zeros(n) + [0];
  }

  lemma {:induction false} AfterBurst(cfg: Config, key: string, n: nat)
    requires n <= cfg.max(key)
    ensures HoldsZeros(cfg, Burst(key, n), key, n)
  {
    if n > 0 {
      AfterBurst(cfg, key, n - 1);
      OneMore(cfg, Burst(key, n - 1), key, n - 1);
    }
  }

  /** A run on which a badly configured limiter and the ideal one give different answers. */
  lemma Disagreement(cfg: Config, key: string) returns (run: seq<Event>)
    requires cfg.max(key) == 0 || (cfg.Sweeps() && cfg.duration(key) > cfg.Patience() + 1)
    ensures Possible(cfg, run) && run != [] && run[|run| - 1].Request? && !SameAnswer(cfg, run)
  {
    if cfg.max(key) == 0 {
      run := [Request(key, 0)];
    } else {
      var n, late := cfg.max(key), cfg.Patience() + 1;
      var burst := Burst(key, n);
      AfterBurst(cfg, key, n);
      var swept := SweptBurst(cfg, key, burst, late);
      run := swept + [Request(key, late)];
      Snoc(cfg, swept, key, late);
      assert run[..|run| - 1] == swept;
      CountAtLeast(Zeros(n), late - cfg.duration(key), 0);
    }
  }

  lemma SweptBurst(cfg: Config, key: string, burst: seq<Event>, late: int) returns (swept: seq<Event>)
    requires burst != [] && late > cfg.Patience()
    requires QueueOf(StoreAfter(cfg, burst), key) == Zeros(|burst|)
    ensures swept == burst + [Sweep(late)] && key !in StoreAfter(cfg, swept)
    ensures IdealHistory(cfg, swept, key) == IdealHistory(cfg, burst, key)
  {
    swept := burst + [Sweep(late)];
    assert swept[..|swept| - 1] == burst;
  }

  /** Main result: the bounded, swept limiter answers every run as the ideal one does
      if and only if every key has max >= 1 and no window outlives the sweeper's patience. */
  lemma AgreesExactly(cfg: Config)
    ensures AlwaysAgrees(cfg) <==> WellConfigured(cfg)
  {
    if WellConfigured(cfg) {
      forall run: seq<Event> | Possible(cfg, run) && run != [] && run[|run| - 1].Request? ensures SameAnswer(cfg, run) {
        RunRelated(cfg, run, run[|run| - 1].key);
      }
    } else {
      var key :| !(cfg.max(key) >= 1 && (!cfg.Sweeps() || cfg.duration(key) <= cfg.Patience() + 1));
      var run := Disagreement(cfg, key);
    }
  }

  // ---------------------------------------------------------------- the rate bound

  lemma {:induction false} AcceptedIsIdeal(cfg: Config, run: seq<Event>, key: string)
    requires WellConfigured(cfg) && Possible(cfg, run)
    ensures Accepted(cfg, run, key) == IdealHistory(cfg, run, key)
  {
    if run != [] {
      assert Possible(cfg, run[..|run| - 1]);
      AcceptedIsIdeal(cfg, run[..|run| - 1], key);
      RunRelated(cfg, run, key);
    }
  }

  /** A timestamp the ideal limiter accepts keeps the history spaced. */
  lemma SpacedStep(a: seq<int>, max: nat, duration: int, now: int)
    requires max >= 1 && IdealAccepts(a, max, duration, now) && Ordered(a) && Spaced(a, max, duration)
    ensures Spaced(a + [now], max, duration)
  {
    if |a| >= max && now - a[|a| - max] < duration {
      CountAtLeast(a, now - duration, |a| - max);
    }
  }

  lemma {:induction false} IdealIsSpaced(cfg: Config, run: seq<Event>, key: string)
    requires WellConfigured(cfg) && Possible(cfg, run)
    ensures Ordered(IdealHistory(cfg, run, key))
    ensures Spaced(IdealHistory(cfg, run, key), cfg.max(key), cfg.duration(key))
  {
    if run != [] {
      var prefix, e := run[..|run| - 1], run[|run| - 1];
      assert Possible(cfg, prefix);
      IdealIsSpaced(cfg, prefix, key);
      RunRelated(cfg, run, key);
      var a := IdealHistory(cfg, prefix, key);
      if e.Request? && IdealAccepts(a, cfg.max(key), cfg.duration(key), e.now) {
        SpacedStep(a, cfg.max(key), cfg.duration(key), e.now);
      }
    }
  }

  /** Any max + 1 consecutive acceptances of a key span at least its duration. */
  lemma AcceptancesAreSpaced(cfg: Config, run: seq<Event>, key: string)
    requires WellConfigured(cfg) && Possible(cfg, run)
    ensures Ordered(Accepted(cfg, run, key))
    ensures Spaced(Accepted(cfg, run, key), cfg.max(key), cfg.duration(key))
  {
    AcceptedIsIdeal(cfg, run, key);
    IdealIsSpaced(cfg, run, key);
  }

  /** Main result: in every run, every window of length duration holds at most max acceptances. */
  lemma WindowBound(cfg: Config, run: seq<Event>, key: string, from: int)
    requires WellConfigured(cfg) && Possible(cfg, run)
    ensures CountIn(Accepted(cfg, run, key), from, from + cfg.duration(key)) <= cfg.max(key)
  {
    AcceptancesAreSpaced(cfg, run, key);
    SpacedMeansBounded(Accepted(cfg, run, key), cfg.max(key), cfg.duration(key), from);
  }
}
