/**
 The counters of cached request bodies and the disk cache configuration
 (common/disk_cache_config.go).
 */
module CacheStats {

  datatype Usage = Usage(diskFiles: int, diskBytes: int, memoryBuffers: int, memoryBytes: int)

  function ClampedSub(a: int, b: int): int {
    if a - b < 0 then 0 else a - b
  }

  /** What opening and closing a storage do to the counters; the disk counters stop at zero. */
  function Added(u: Usage, disk: bool, size: nat): Usage {
    if disk then u.(diskFiles := u.diskFiles + 1, diskBytes := u.diskBytes + size)
    else u.(memoryBuffers := u.memoryBuffers + 1, memoryBytes := u.memoryBytes + size)
  }

  function Removed(u: Usage, disk: bool, size: nat): Usage {
    if disk then u.(diskFiles := ClampedSub(u.diskFiles, 1), diskBytes := ClampedSub(u.diskBytes, size))
    else u.(memoryBuffers := u.memoryBuffers - 1, memoryBytes := u.memoryBytes - size)
  }

  datatype Config = Config(enabled: bool, thresholdMB: int, maxSizeMB: int) {
    function Threshold(): int { thresholdMB * 0x10_0000 }
    function MaxSize(): int { maxSizeMB * 0x10_0000 }
  }

  /** The process-wide counters. */
  class Stats {
    var diskFiles: int
    var diskBytes: int
    var memoryBuffers: int
    var memoryBytes: int
    var diskHits: int
    var memoryHits: int

    constructor ()
      ensures Now() == Usage(0, 0, 0, 0) && diskHits == 0 && memoryHits == 0
    {
      diskFiles, diskBytes, memoryBuffers, memoryBytes, diskHits, memoryHits := 0, 0, 0, 0, 0, 0;
    }

    function Now(): Usage
      reads this
    {
      Usage(diskFiles, diskBytes, memoryBuffers, memoryBytes)
    }

    method IncrementDiskFiles(size: nat)
      modifies this`diskFiles, this`diskBytes
      ensures Now() == Added(old(Now()), true, size)
    {
      diskFiles := diskFiles + 1;
      diskBytes := diskBytes + size;
    }

    method DecrementDiskFiles(size: nat)
      modifies this`diskFiles, this`diskBytes
      ensures Now() == Removed(old(Now()), true, size)
    {
      diskFiles := diskFiles - 1;
      if diskFiles < 0 {
        diskFiles := 0;
      }
      diskBytes := diskBytes - size;
      if diskBytes < 0 {
        diskBytes := 0;
      }
    }

    method IncrementMemoryBuffers(size: nat)
      modifies this`memoryBuffers, this`memoryBytes
      ensures Now() == Added(old(Now()), false, size)
    {
      memoryBuffers := memoryBuffers + 1;
      memoryBytes := memoryBytes + size;
    }

    method DecrementMemoryBuffers(size: nat)
      modifies this`memoryBuffers, this`memoryBytes
      ensures Now() == Removed(old(Now()), false, size)
    {
      memoryBuffers := memoryBuffers - 1;
      memoryBytes := memoryBytes - size;
    }

    predicate IsDiskCacheAvailable(config: Config, size: int)
      reads this
    {
      config.enabled && diskBytes + size <= config.MaxSize()
    }
  }

  // ---------------------------------------------------------------- all storages together

  datatype Handle = Handle(disk: bool, size: nat, open: bool, swept: bool)

  /** A storage is opened, closed, perhaps again, or its file is removed by the age sweep. */
  datatype Action = Open(disk: bool, size: nat) | Close(i: nat) | Sweep(i: nat)

  datatype Pool = Pool(handles: seq<Handle>, usage: Usage)

  function Next(p: Pool, a: Action): Pool {
    match a
    case Open(disk, size) => Pool(p.handles + [Handle(disk, size, true, false)], Added(p.usage, disk, size))
    case Close(i) =>
      if i >= |p.handles| || !p.handles[i].open then p
      else Pool(p.handles[i := p.handles[i].(open := false)], Removed(p.usage, p.handles[i].disk, p.handles[i].size))
    case Sweep(i) =>
      if !Sweepable(p, i) then p
      else Pool(p.handles[i := p.handles[i].(swept := true)], Removed(p.usage, true, p.handles[i].size))
  }

  /** A file still there: its storage is open and no earlier sweep removed it. */
  predicate Sweepable(p: Pool, i: nat) {
    i < |p.handles| && p.handles[i].open && p.handles[i].disk && !p.handles[i].swept
  }

  predicate Closable(p: Pool, i: nat) {
    i < |p.handles| && p.handles[i].open && p.handles[i].disk
  }

  function Run(actions: seq<Action>): Pool {
    if |actions| == 0 then Pool([], Usage(0, 0, 0, 0))
    else Next(Run(actions[..|actions| - 1]), actions[|actions| - 1])
  }

  /** How many storages of a kind are open, and their total size. */
  function OpenCount(handles: seq<Handle>, disk: bool): nat {
    if |handles| == 0 then 0
    else
      var last := handles[|handles| - 1];
      OpenCount(handles[..|handles| - 1], disk) + if last.open && last.disk == disk then 1 else 0
  }

  function OpenBytes(handles: seq<Handle>, disk: bool): nat {
    if |handles| == 0 then 0
    else
      var last := handles[|handles| - 1];
      OpenBytes(handles[..|handles| - 1], disk) + if last.open && last.disk == disk then last.size else 0
  }

  lemma {:induction false} ClosingCounts(handles: seq<Handle>, i: nat, disk: bool)
    requires i < |handles| && handles[i].open
    ensures var after := handles[i := handles[i].(open := false)];
            && OpenCount(after, disk) == OpenCount(handles, disk) - (if handles[i].disk == disk then 1 else 0)
            && OpenBytes(after, disk) == OpenBytes(handles, disk) - if handles[i].disk == disk then handles[i].size else 0
  {
    var n := |handles| - 1;
    var after := handles[i := handles[i].(open := false)];
    if i < n {
      ClosingCounts(handles[..n], i, disk);
      assert after[..n] == handles[..n][i := handles[i].(open := false)];
    } else {
      assert after[..n] == handles[..n];
    }
  }

  lemma {:induction false} SweepingCounts(handles: seq<Handle>, i: nat, disk: bool)
    requires i < |handles|
    ensures var after := handles[i := handles[i].(swept := true)];
            OpenCount(after, disk) == OpenCount(handles, disk) && OpenBytes(after, disk) == OpenBytes(handles, disk)
  {
    var n := |handles| - 1;
    var after := handles[i := handles[i].(swept := true)];
    if i < n {
      SweepingCounts(handles[..n], i, disk);
      assert after[..n] == handles[..n][i := handles[i].(swept := true)];
    } else {
      assert after[..n] == handles[..n];
    }
  }

  lemma OpeningCounts(handles: seq<Handle>, h: Handle, disk: bool)
    requires h.open
    ensures OpenCount(handles + [h], disk) == OpenCount(handles, disk) + (if h.disk == disk then 1 else 0)
    ensures OpenBytes(handles + [h], disk) == OpenBytes(handles, disk) + if h.disk == disk then h.size else 0
  {
    assert (handles + [h])[..|handles|] == handles;
  }

  /** The memory counters are exact; the disk counters never exceed what is open. */
  ghost predicate Bounded(p: Pool) {
    && p.usage.memoryBuffers == OpenCount(p.handles, false) && p.usage.memoryBytes == OpenBytes(p.handles, false)
    && 0 <= p.usage.diskFiles <= OpenCount(p.handles, true) && 0 <= p.usage.diskBytes <= OpenBytes(p.handles, true)
  }

  ghost predicate Exact(p: Pool) {
    Bounded(p) && p.usage.diskFiles == OpenCount(p.handles, true) && p.usage.diskBytes == OpenBytes(p.handles, true)
  }

  ghost predicate NoSweep(actions: seq<Action>) {
    forall i :: 0 <= i < |actions| ==> !actions[i].Sweep?
  }

  lemma NextIsBounded(p: Pool, a: Action)
    requires Bounded(p)
    ensures Bounded(Next(p, a))
    ensures Exact(p) && !a.Sweep? ==> Exact(Next(p, a))
  {
    match a
    case Open(disk, size) =>
      OpeningCounts(p.handles, Handle(disk, size, true, false), true);
      OpeningCounts(p.handles, Handle(disk, size, true, false), false);
    case Close(i) =>
      if i < |p.handles| && p.handles[i].open {
        ClosingCounts(p.handles, i, true);
        ClosingCounts(p.handles, i, false);
      }
    case Sweep(i) =>
      if Sweepable(p, i) {
        SweepingCounts(p.handles, i, true);
        SweepingCounts(p.handles, i, false);
      }
  }

  /** Over every run of openings, closings, however often repeated, and sweeps, the disk counters never
      claim more than is open, and without sweeps all counters are exact. */
  lemma {:induction false} CountersFollow(actions: seq<Action>)
    ensures Bounded(Run(actions))
    ensures NoSweep(actions) ==> Exact(Run(actions))
  {
    if |actions| > 0 {
      var before := actions[..|actions| - 1];
      CountersFollow(before);
      NextIsBounded(Run(before), actions[|actions| - 1]);
    }
  }

  // ---------------------------------------------------------------- sweeps

  /** What a decrement by n takes off a counter that stops at zero. */
  function Taken(counter: int, n: nat): (t: int)
    ensures counter >= 0 ==> ClampedSub(counter, n) == counter - t
  {
    if counter < n then counter else n
  }

  /** Files and bytes an action, if it is a sweep, takes off the counters while the storage is open. */
  function SweepTakes(p: Pool, a: Action): (int, int) {
    if a.Sweep? && Sweepable(p, a.i) then (Taken(p.usage.diskFiles, 1), Taken(p.usage.diskBytes, p.handles[a.i].size))
    else (0, 0)
  }

  /** Files and bytes an action, if it is a closing, should take off the counters and finds gone. */
  function CloseMisses(p: Pool, a: Action): (int, int) {
    if a.Close? && Closable(p, a.i) then
      (1 - Taken(p.usage.diskFiles, 1), p.handles[a.i].size - Taken(p.usage.diskBytes, p.handles[a.i].size))
    else (0, 0)
  }

  /** What sweeps have taken over a run, and what closings have found gone. */
  function SweptOff(actions: seq<Action>): (int, int) {
    if |actions| == 0 then (0, 0)
    else
      var n := |actions| - 1;
      var (before, now) := (SweptOff(actions[..n]), SweepTakes(Run(actions[..n]), actions[n]));
      (before.0 + now.0, before.1 + now.1)
  }

  function FoundGone(actions: seq<Action>): (int, int) {
    if |actions| == 0 then (0, 0)
    else
      var n := |actions| - 1;
      var (before, now) := (FoundGone(actions[..n]), CloseMisses(Run(actions[..n]), actions[n]));
      (before.0 + now.0, before.1 + now.1)
  }

  function ShortFiles(p: Pool): int {
    OpenCount(p.handles, true) - p.usage.diskFiles
  }

  function ShortBytes(p: Pool): int {
    OpenBytes(p.handles, true) - p.usage.diskBytes
  }

  lemma LedgerStep(p: Pool, a: Action)
    requires Bounded(p)
    ensures ShortFiles(Next(p, a)) == ShortFiles(p) + SweepTakes(p, a).0 - CloseMisses(p, a).0
    ensures ShortBytes(Next(p, a)) == ShortBytes(p) + SweepTakes(p, a).1 - CloseMisses(p, a).1
  {
    match a
    case Open(disk, size) => OpeningCounts(p.handles, Handle(disk, size, true, false), true);
    case Close(i) => if i < |p.handles| && p.handles[i].open { ClosingCounts(p.handles, i, true); }
    case Sweep(i) => if Sweepable(p, i) { SweepingCounts(p.handles, i, true); }
  }

  lemma {:induction false} Ledger(actions: seq<Action>)
    ensures ShortFiles(Run(actions)) == SweptOff(actions).0 - FoundGone(actions).0
    ensures ShortBytes(Run(actions)) == SweptOff(actions).1 - FoundGone(actions).1
  {
    hide SweepTakes, CloseMisses, Next, Bounded;
    if |actions| > 0 {
      var n := |actions| - 1;
      hide ShortFiles, ShortBytes;
      Ledger(actions[..n]);
      CountersFollow(actions[..n]);
      LedgerStep(Run(actions[..n]), actions[n]);
    }
  }

  /** Main result: with sweeps the counters are exact exactly when closings have found as much gone as sweeps
      took; in particular whenever no disk storage is open. */
  lemma ExactAgain(actions: seq<Action>)
    ensures Exact(Run(actions)) <==> SweptOff(actions) == FoundGone(actions)
    ensures OpenCount(Run(actions).handles, true) == 0 ==> Exact(Run(actions))
  {
    hide Run, SweptOff, FoundGone;
    CountersFollow(actions);
    Ledger(actions);
    NoneOpen(Run(actions).handles, true);
  }

  lemma {:induction false} NoneOpen(handles: seq<Handle>, disk: bool)
    ensures OpenCount(handles, disk) == 0 ==> OpenBytes(handles, disk) == 0
  {
    if |handles| > 0 { NoneOpen(handles[..|handles| - 1], disk); }
  }

  /** A first sweep of an open file leaves the counters short by exactly that file. */
  lemma SweepUndercounts(actions: seq<Action>, i: nat)
    requires NoSweep(actions) && Closable(Run(actions), i)
    ensures var p := Run(actions + [Sweep(i)]);
            && p.usage.diskFiles == OpenCount(p.handles, true) - 1
            && p.usage.diskBytes == OpenBytes(p.handles, true) - p.handles[i].size
  {
    CountersFollow(actions);
    NotYetSwept(actions);
    assert (actions + [Sweep(i)])[..|actions|] == actions;
    ClosingCounts(Run(actions).handles, i, true);
    SweepingCounts(Run(actions).handles, i, true);
  }

  lemma {:induction false} NotYetSwept(actions: seq<Action>)
    requires NoSweep(actions)
    ensures forall h :: h in Run(actions).handles ==> !h.swept
  {
    if |actions| > 0 { NotYetSwept(actions[..|actions| - 1]); }
  }
}
