/**
 The two stores for request bodies, in memory and on disk, behind one interface, and how one is made
 from a stream (common/body_storage.go). I/O errors are left out, but for the one that makes the
 disk unusable at creation.
 */
module BodyStorage {
  import opened Streams
  import opened CacheStats

  const MAX_INT64 := 0x7FFF_FFFF_FFFF_FFFF

  /** What either store is: bytes, a position, and whether it was closed. */
  datatype View = View(data: seq<byte>, pos: nat, closed: bool)

  datatype Op = Read(n: nat) | Seek(offset: int, whence: Whence) | Bytes | Close | Size

  datatype Answer = Data(bytes: seq<byte>) | Eof | At(pos: nat) | BadSeek | SizeIs(size: nat) | Done | StorageClosed

  /** Where the stores' libraries differ: bytes.Reader reports EOF whenever nothing is left, a file
      answers an empty read before looking. */
  predicate AtEnd(disk: bool, v: View, n: nat) {
    |v.data| <= v.pos && (disk ==> n > 0)
  }

  function Step(disk: bool, v: View, op: Op): (View, Answer) {
    match op
    case Read(n) =>
      if v.closed then (v, StorageClosed)
      else if AtEnd(disk, v, n) then (v, Eof)
      else if n == 0 then (v, Data([]))
      else
        var end := ReadEnd(|v.data|, v.pos, n);
        (v.(pos := end), Data(v.data[v.pos..end]))
    case Seek(offset, whence) =>
      if v.closed then (v, StorageClosed)
      else
        var target := Target(|v.data|, v.pos, offset, whence);
        if target < 0 then (v, BadSeek) else (v.(pos := target), At(target))
    case Bytes => (v, if v.closed then StorageClosed else Data(v.data))
    case Close => (v.(closed := true), Done)
    case Size => (v, SizeIs(|v.data|))
  }

  // ---------------------------------------------------------------- the two stores

  class MemoryStorage {
    const data: seq<byte>
    const reader: Reader
    const size: nat
    var closed: bool

    ghost predicate Valid()
      reads this
    {
      reader.data == data && size == |data|
    }

    function V(): View
      reads this, reader
    {
      View(data, reader.pos, closed)
    }

    constructor (data: seq<byte>, stats: Stats)
      modifies stats`memoryBuffers, stats`memoryBytes
      ensures Valid() && V() == View(data, 0, false) && fresh(reader)
      ensures stats.Now() == Added(old(stats.Now()), false, |data|)
    {
      this.data, size, closed := data, |data|, false;
      reader := new Reader(data);
      new;
      stats.IncrementMemoryBuffers(size);
    }

    method Read(n: nat) returns (answer: Answer)
      requires Valid()
      modifies reader
      ensures Valid() && (V(), answer) == Step(false, old(V()), Op.Read(n))
    {
      if closed {
        return StorageClosed;
      }
      var buf, eof := reader.Read(n);
      answer := if eof then Eof else Data(buf);
    }

    method Seek(offset: int, whence: Whence) returns (answer: Answer)
      requires Valid()
      modifies reader
      ensures Valid() && (V(), answer) == Step(false, old(V()), Op.Seek(offset, whence))
    {
      if closed {
        return StorageClosed;
      }
      var ok := reader.Seek(offset, whence);
      answer := if ok then At(reader.pos) else BadSeek;
    }

    method Close(stats: Stats) returns (answer: Answer)
      requires Valid()
      modifies this`closed, stats`memoryBuffers, stats`memoryBytes
      ensures Valid() && (V(), answer) == Step(false, old(V()), Op.Close)
      ensures stats.Now() == if old(closed) then old(stats.Now()) else Removed(old(stats.Now()), false, size)
    {
      if !closed {
        closed := true;
        stats.DecrementMemoryBuffers(size);
      }
      answer := Done;
    }

    method Bytes() returns (answer: Answer)
      requires Valid()
      ensures (V(), answer) == Step(false, V(), Op.Bytes)
    {
      answer := if closed then StorageClosed else Data(data);
    }

    method Size() returns (answer: Answer)
      requires Valid()
      ensures (V(), answer) == Step(false, V(), Op.Size)
    {
      answer := SizeIs(size);
    }
  }

  class DiskStorage {
    const file: File
    const size: nat
    var closed: bool

    ghost predicate Valid()
      reads this, file
    {
      size == |file.content| && (!closed ==> file.isOpen)
    }

    function V(): View
      reads this, file
    {
      View(file.content, file.pos, closed)
    }

    /** Both constructors' last part: the data is in the file, whose pointer goes back to the start. */
    constructor (file: File, stats: Stats)
      requires file.isOpen
      modifies file`pos, stats`diskFiles, stats`diskBytes
      ensures Valid() && this.file == file && V() == View(old(file.content), 0, false)
      ensures stats.Now() == Added(old(stats.Now()), true, |old(file.content)|)
    {
      this.file, size, closed := file, |file.content|, false;
      new;
      var _ := file.Seek(0, FromStart);
      stats.IncrementDiskFiles(size);
    }

    method Read(n: nat) returns (answer: Answer)
      requires Valid()
      modifies file
      ensures Valid() && (V(), answer) == Step(true, old(V()), Op.Read(n))
    {
      if closed {
        return StorageClosed;
      }
      var buf, eof := file.Read(n);
      answer := if eof then Eof else Data(buf);
    }

    method Seek(offset: int, whence: Whence) returns (answer: Answer)
      requires Valid()
      modifies file
      ensures Valid() && (V(), answer) == Step(true, old(V()), Op.Seek(offset, whence))
    {
      if closed {
        return StorageClosed;
      }
      var ok := file.Seek(offset, whence);
      answer := if ok then At(file.pos) else BadSeek;
    }

    /** The second Close finds the file gone and the counters untouched. */
    method Close(stats: Stats) returns (answer: Answer)
      requires Valid()
      modifies this`closed, file`isOpen, stats`diskFiles, stats`diskBytes
      ensures Valid() && (V(), answer) == Step(true, old(V()), Op.Close)
      ensures stats.Now() == if old(closed) then old(stats.Now()) else Removed(old(stats.Now()), true, size)
    {
      if !closed {
        closed := true;
        file.Close();
        stats.DecrementDiskFiles(size);
      }
      answer := Done;
    }

    /** Reads the whole file from the start, then returns to where the caller was. */
    method Bytes() returns (answer: Answer)
      requires Valid()
      modifies file`pos
      ensures Valid() && (V(), answer) == Step(true, old(V()), Op.Bytes)
    {
      if closed {
        return StorageClosed;
      }
      var currentPos := file.pos;
      var _ := file.Seek(0, FromStart);
      var data, ok := file.ReadFull(size);
      if !ok {
        return Eof;
      }
      var _ := file.Seek(currentPos, FromStart);
      assert file.content[0..size] == file.content;
      answer := Data(data);
    }

    method Size() returns (answer: Answer)
      requires Valid()
      ensures (V(), answer) == Step(true, V(), Op.Size)
    {
      answer := SizeIs(size);
    }
  }

  // ---------------------------------------------------------------- they are interchangeable

  function After(disk: bool, v: View, ops: seq<Op>): View {
    if |ops| == 0 then v else Step(disk, After(disk, v, ops[..|ops| - 1]), ops[|ops| - 1]).0
  }

  /** The answers to a sequence of calls. */
  function Answers(disk: bool, v: View, ops: seq<Op>): seq<Answer> {
    if |ops| == 0 then []
    else
      var before := ops[..|ops| - 1];
      Answers(disk, v, before) + [Step(disk, After(disk, v, before), ops[|ops| - 1]).1]
  }

  /** No call reads nothing where nothing is left. */
  ghost predicate NoEmptyReadAtEnd(v: View, ops: seq<Op>) {
    forall i :: 0 <= i < |ops| && ops[i] == Op.Read(0) ==>
      var w := After(false, v, ops[..i]);
      w.closed || w.pos < |w.data|
  }

  lemma StepsAgree(v: View, op: Op)
    ensures Step(true, v, op).0 == Step(false, v, op).0
    ensures Step(true, v, op).1 == Step(false, v, op).1 <==> !(op == Op.Read(0) && !v.closed && |v.data| <= v.pos)
  {
  }

  lemma {:induction false} StatesAgree(v: View, ops: seq<Op>)
    ensures After(true, v, ops) == After(false, v, ops)
  {
    if |ops| > 0 {
      StatesAgree(v, ops[..|ops| - 1]);
      StepsAgree(After(false, v, ops[..|ops| - 1]), ops[|ops| - 1]);
    }
  }

  lemma {:induction false} OneAnswerEach(disk: bool, v: View, ops: seq<Op>)
    ensures |Answers(disk, v, ops)| == |ops|
  {
    if |ops| > 0 { OneAnswerEach(disk, v, ops[..|ops| - 1]); }
  }

  /** The stores answer every sequence of calls alike exactly when it has no empty read at the end. */
  lemma {:induction false} Interchangeable(v: View, ops: seq<Op>)
    ensures Answers(true, v, ops) == Answers(false, v, ops) <==> NoEmptyReadAtEnd(v, ops)
  {
    hide Step, After, NoEmptyReadAtEnd;
    if |ops| > 0 {
      var n := |ops| - 1;
      var before := ops[..n];
      Interchangeable(v, before);
      StatesAgree(v, before);
      OneAnswerEach(true, v, before);
      OneAnswerEach(false, v, before);
      StepsAgree(After(false, v, before), ops[n]);
      LastAnswer(Answers(true, v, before), Answers(false, v, before),
                 Step(true, After(true, v, before), ops[n]).1, Step(false, After(false, v, before), ops[n]).1);
      OneMoreCall(v, ops);
    } else {
      NoCalls(v);
    }
  }

  lemma NoCalls(v: View)
    ensures NoEmptyReadAtEnd(v, [])
  {
  }

  lemma OneMoreCall(v: View, ops: seq<Op>)
    requires |ops| > 0
    ensures var n := |ops| - 1; var w := After(false, v, ops[..n]);
            NoEmptyReadAtEnd(v, ops) <==>
              NoEmptyReadAtEnd(v, ops[..n]) && !(ops[n] == Op.Read(0) && !w.closed && |w.data| <= w.pos)
  {
    hide After;
    var before := ops[..|ops| - 1];
    assert forall i :: 0 <= i < |before| ==> before[..i] == ops[..i] && before[i] == ops[i];
  }

  lemma LastAnswer(a: seq<Answer>, b: seq<Answer>, x: Answer, y: Answer)
    requires |a| == |b|
    ensures a + [x] == b + [y] <==> a == b && x == y
  {
    if a + [x] == b + [y] {
      assert a == (a + [x])[..|a|] && b == (b + [y])[..|b|];
      assert x == (a + [x])[|a|];
    }
  }

  /** Once closed, a store stays closed and keeps its data: all calls but Close and Size fail. */
  lemma {:induction false} ClosedForGood(disk: bool, v: View, ops: seq<Op>)
    requires v.closed
    ensures After(disk, v, ops) == v
    ensures |Answers(disk, v, ops)| == |ops|
    ensures forall i :: 0 <= i < |ops| ==>
              Answers(disk, v, ops)[i] == match ops[i]
                                          case Close => Done
                                          case Size => SizeIs(|v.data|)
                                          case _ => StorageClosed
  {
    if |ops| > 0 {
      var before := ops[..|ops| - 1];
      ClosedForGood(disk, v, before);
      assert forall i :: 0 <= i < |before| ==> before[i] == ops[i];
    }
  }

  // ---------------------------------------------------------------- they read what was stored

  /** A seek leads to its offset from the start, the position or the end, past the end too, but not before the
      start. */
  lemma SeekLands(disk: bool, v: View, offset: int, whence: Whence)
    requires !v.closed
    ensures var from := match whence case FromStart => 0 case FromCurrent => v.pos case FromEnd => |v.data|;
            Step(disk, v, Op.Seek(offset, whence)) ==
            if from + offset < 0 then (v, BadSeek) else (View(v.data, from + offset, false), At(from + offset))
  {
  }

  /** How much a sequence of reads asks for. */
  function Wanted(ops: seq<Op>): nat {
    if |ops| == 0 then 0 else Wanted(ops[..|ops| - 1]) + if ops[|ops| - 1].Read? then ops[|ops| - 1].n else 0
  }

  /** The bytes in some answers, in order. */
  function Gathered(answers: seq<Answer>): seq<byte> {
    if |answers| == 0 then []
    else Gathered(answers[..|answers| - 1]) + if answers[|answers| - 1].Data? then answers[|answers| - 1].bytes else []
  }

  /** Main result: however the data is read, in reads of whatever sizes, the answers add up to the stored bytes
      from the position on, as many as were asked for or as there are. */
  lemma {:induction false} ReadsAddUp(disk: bool, v: View, ops: seq<Op>)
    requires !v.closed && v.pos <= |v.data| && forall i :: 0 <= i < |ops| ==> ops[i].Read?
    ensures var end := if v.pos + Wanted(ops) <= |v.data| then v.pos + Wanted(ops) else |v.data|;
            && After(disk, v, ops) == View(v.data, end, false)
            && Gathered(Answers(disk, v, ops)) == v.data[v.pos..end]
  {
    hide Step;
    if |ops| > 0 {
      var before, op := ops[..|ops| - 1], ops[|ops| - 1];
      ReadsAddUp(disk, v, before);
      var w := After(disk, v, before);
      OneRead(disk, w, op.n);
      var (next, more) := Step(disk, w, op);
      GatheredSnoc(Answers(disk, v, before), more);
      Adjacent(v.data, v.pos, w.pos, next.pos);
    }
  }

  lemma GatheredSnoc(answers: seq<Answer>, more: Answer)
    ensures Gathered(answers + [more]) == Gathered(answers) + if more.Data? then more.bytes else []
  {
    assert (answers + [more])[..|answers|] == answers;
  }

  lemma Adjacent(data: seq<byte>, i: nat, j: nat, k: nat)
    requires i <= j <= k <= |data|
    ensures data[i..j] + data[j..k] == data[i..k]
  {
  }

  /** One read yields what is left, up to n bytes; it ends the data exactly if nothing is left, but for an empty
      read of a file. */
  lemma OneRead(disk: bool, v: View, n: nat)
    requires !v.closed && v.pos <= |v.data|
    ensures var answer := Step(disk, v, Op.Read(n)).1;
            && (answer.Data? || answer.Eof?) && (answer.Eof? <==> v.pos == |v.data| && (n > 0 || !disk))
    ensures var end, (w, answer) := if v.pos + n <= |v.data| then v.pos + n else |v.data|, Step(disk, v, Op.Read(n));
            w == View(v.data, end, false) && (if answer.Data? then answer.bytes else []) == v.data[v.pos..end]
  {
    assert n == 0 ==> v.data[v.pos..v.pos] == [];
  }

  /** Going back to the start and reading everything gives what Bytes gives from anywhere, and Bytes does not move. */
  lemma RewoundReadIsBytes(disk: bool, v: View)
    requires !v.closed && |v.data| > 0
    ensures var rewound := Step(disk, v, Op.Seek(0, FromStart)).0;
            && Step(disk, rewound, Op.Read(|v.data|)).1 == Step(disk, v, Op.Bytes).1 == Data(v.data)
            && Step(disk, v, Op.Bytes).0 == v
  {
    assert v.data[0..|v.data|] == v.data;
  }

  // ---------------------------------------------------------------- making one

  /** A store of either kind. */
  datatype Storage = Memory(m: MemoryStorage) | Disk(d: DiskStorage) {
    ghost predicate Holds(data: seq<byte>)
      reads match this { case Memory(m) => {m, m.reader} case Disk(d) => {d, d.file} }
    {
      match this
      case Memory(m) => m.Valid() && m.V() == View(data, 0, false)
      case Disk(d) => d.Valid() && d.V() == View(data, 0, false)
    }
  }

  datatype Created = Stored(storage: Storage) | TooLarge | DiskFailed

  /** CreateBodyStorage; a failing disk falls back to memory. */
  method CreateBodyStorage(data: seq<byte>, config: Config, stats: Stats, diskWorks: bool) returns (storage: Storage)
    modifies stats
    ensures storage.Holds(data)
    ensures storage.Disk? <==> config.enabled && |data| >= config.thresholdMB * 1048576 && diskWorks &&
                               old(stats.diskBytes) + |data| <= config.maxSizeMB * 1048576
    ensures stats.Now() == Added(old(stats.Now()), storage.Disk?, |data|)
    ensures stats.diskHits == old(stats.diskHits) && stats.memoryHits == old(stats.memoryHits)
  {
    if config.enabled && |data| >= config.Threshold() && stats.IsDiskCacheAvailable(config, |data|) && diskWorks {
      var file := new File();
      file.Append(data);
      var d := new DiskStorage(file, stats);
      return Disk(d);
    }
    var m := new MemoryStorage(data, stats);
    return Memory(m);
  }

  /** Wrap-around of int64 addition. */
  function Wrap64(n: int): int {
    (n + MAX_INT64 + 1) % 0x1_0000_0000_0000_0000 - MAX_INT64 - 1
  }

  /** What io.LimitReader(reader, maxBytes + 1) lets through. */
  function Limited(stream: seq<byte>, maxBytes: int): (r: seq<byte>) {
    var limit := Wrap64(maxBytes + 1);
    if limit <= 0 then [] else if limit < |stream| then stream[..limit] else stream
  }

  /** CreateBodyStorageFromReader, the stream being all that the reader would yield. */
  method CreateFromReader(stream: seq<byte>, contentLength: int, maxBytes: int, config: Config, stats: Stats,
                          diskWorks: bool)
    returns (r: Created)
    modifies stats
    ensures var streamed := config.enabled && contentLength > 0 && contentLength >= config.thresholdMB * 1048576 &&
                            old(stats.diskBytes) + contentLength <= config.maxSizeMB * 1048576;
            && (r.DiskFailed? <==> streamed && !diskWorks)
            && (r.TooLarge? <==> !(streamed && !diskWorks) && |Limited(stream, maxBytes)| > maxBytes)
            && (r.Stored? && streamed ==> r.storage.Disk?)
    ensures r.Stored? ==> r.storage.Holds(Limited(stream, maxBytes))
    ensures stats.Now() == if r.Stored? then Added(old(stats.Now()), r.storage.Disk?, |Limited(stream, maxBytes)|)
                           else old(stats.Now())
    ensures stats.diskHits == old(stats.diskHits) + if r.Stored? && r.storage.Disk? then 1 else 0
    ensures stats.memoryHits == old(stats.memoryHits) + if r.Stored? && r.storage.Memory? then 1 else 0
  {
    var data := Limited(stream, maxBytes);
    if config.enabled && contentLength > 0 && contentLength >= config.Threshold()
       && stats.IsDiskCacheAvailable(config, contentLength) {
      if !diskWorks {
        return DiskFailed;
      }
      var file := new File();
      file.Append(data);
      if |data| > maxBytes {
        return TooLarge;
      }
      var d := new DiskStorage(file, stats);
      stats.diskHits := stats.diskHits + 1;
      return Stored(Disk(d));
    }
    if |data| > maxBytes {
      return TooLarge;
    }
    var storage := CreateBodyStorage(data, config, stats, diskWorks);
    if storage.Memory? {
      stats.memoryHits := stats.memoryHits + 1;
    } else {
      stats.diskHits := stats.diskHits + 1;
    }
    return Stored(storage);
  }

  /** The limit means what it says, a stream is refused iff it is longer and otherwise stored whole,
      exactly unless maxBytes is the largest int64, where maxBytes + 1 wraps around and whatever the
      stream holds, nothing of it is read and the empty body is stored. */
  lemma LimitIsKept(stream: seq<byte>, maxBytes: int)
    requires -0x8000_0000_0000_0000 <= maxBytes <= 0x7FFF_FFFF_FFFF_FFFF
    ensures var data := Limited(stream, maxBytes);
            ((|data| > maxBytes <==> |stream| > maxBytes) && (|stream| <= maxBytes ==> data == stream))
            <==> maxBytes < 0x7FFF_FFFF_FFFF_FFFF || |stream| == 0
    ensures maxBytes == 0x7FFF_FFFF_FFFF_FFFF ==> Limited(stream, maxBytes) == []
  {
    assert maxBytes < MAX_INT64 ==> Wrap64(maxBytes + 1) == maxBytes + 1;
    assert Wrap64(MAX_INT64 + 1) == -MAX_INT64 - 1;
  }
}
