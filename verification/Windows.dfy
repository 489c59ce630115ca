/** Timestamps in sliding windows: the counting facts both limiters rest on. */
module Windows {

  ghost predicate Ordered(a: seq<int>) {
    forall i, j :: 0 <= i < j < |a| ==> a[i] <= a[j]
  }

  /** Any max + 1 consecutive timestamps span at least the duration. */
  ghost predicate Spaced(a: seq<int>, max: nat, duration: int) {
    forall i :: max <= i < |a| ==> a[i] - a[i - max] >= duration
  }

  /** How many timestamps lie in [from, to). */
  ghost function CountIn(history: seq<int>, from: int, to: int): nat {
    if history == [] then 0
    else CountIn(history[..|history| - 1], from, to) + (if from <= history[|history| - 1] < to then 1 else 0)
  }

  lemma {:induction false} CountInAtMost(history: seq<int>, from: int, to: int, k: nat)
    requires k <= |history| && forall i :: 0 <= i < k ==> history[i] < from
    ensures CountIn(history, from, to) <= |history| - k
  {
    if |history| > k { CountInAtMost(history[..|history| - 1], from, to, k); }
    else if history != [] { CountInAtMost(history[..|history| - 1], from, to, k - 1); }
  }

  lemma {:induction false} SpacedMeansBounded(a: seq<int>, max: nat, duration: int, from: int)
    requires max >= 1 && Ordered(a) && Spaced(a, max, duration)
    ensures CountIn(a, from, from + duration) <= max
  {
    if |a| > max {
      var last := a[|a| - 1];
      if from <= last < from + duration {
        forall i | 0 <= i < |a| - max ensures a[i] < from {
          assert last - a[|a| - 1 - max] >= duration;
          assert a[i] <= a[|a| - 1 - max];
        }
        CountInAtMost(a, from, from + duration, |a| - max);
      } else {
        SpacedMeansBounded(a[..|a| - 1], max, duration, from);
      }
    } else {
      CountInAtMost(a, from, from + duration, 0);
    }
  }
}
