/**
 The scanner that finds the length of an Opus file by walking the Ogg pages of a seekable
 stream (common/audio.go), against the stream of pages that was written.
 */
module Opus {
  import opened Numbers
  import opened Streams

  // ---------------------------------------------------------------- what the bytes mean

  const SIGNATURE: seq<byte> := [0x4F, 0x67, 0x67, 0x53]   // "OggS"
  const HEADER := 27
  const CLOCK := 48000.0

  predicate SignatureAt(data: seq<byte>, pos: nat) {
    pos + 4 <= |data| && data[pos..pos + 4] == SIGNATURE
  }

  function LittleEndian(bytes: seq<byte>): nat {
    if bytes == [] then 0 else bytes[0] as nat + 256 * LittleEndian(bytes[1..])
  }

  /** int64(uint64) in two's complement. */
  function Signed64(u: nat): int {
    if u < 0x8000_0000_0000_0000 then u else u - 0x1_0000_0000_0000_0000
  }

  function Sum(bytes: seq<byte>): nat {
    if bytes == [] then 0 else bytes[0] as nat + Sum(bytes[1..])
  }

  function GranuleAt(data: seq<byte>, pos: nat): int
    requires pos + HEADER <= |data|
  {
    Signed64(LittleEndian(data[pos + 6..pos + 14]))
  }

  /** Where a page header says the page ends, or nothing when its segment table is cut short. */
  function PageEnd(data: seq<byte>, pos: nat): (end: int)
    requires pos + HEADER <= |data|
    ensures end == -1 || end >= pos + HEADER
  {
    var table := pos + HEADER + data[pos + 26] as nat;
    if table > |data| then -1 else table + Sum(data[pos + HEADER..table])
  }

  /** The offsets the scanner takes for page headers, from pos on. */
  function Visited(data: seq<byte>, pos: nat): (offsets: seq<nat>)
    ensures forall i :: 0 <= i < |offsets| ==> offsets[i] + HEADER <= |data|
    decreases |data| - pos
  {
    if pos + HEADER > |data| then []
    else if !SignatureAt(data, pos) then Visited(data, pos + 1)
    else if PageEnd(data, pos) == -1 then [pos]
    else [pos] + Visited(data, PageEnd(data, pos))
  }

  /** The largest of the granule positions at some offsets, and at least floor. */
  function LargestGranule(data: seq<byte>, offsets: seq<nat>, floor: int): int
    requires forall i :: 0 <= i < |offsets| ==> offsets[i] + HEADER <= |data|
  {
    if offsets == [] then floor
    else
      var g := GranuleAt(data, offsets[0]);
      LargestGranule(data, offsets[1..], if g > floor then g else floor)
  }

  // ---------------------------------------------------------------- what a granule position is

  /** Eight bytes are a number in base 256, the first one its lowest digit. */
  lemma EightBytes(b: seq<byte>)
    requires |b| == 8
    ensures LittleEndian(b) ==
              b[0] as nat + 0x100 * b[1] as nat + 0x1_0000 * b[2] as nat + 0x100_0000 * b[3] as nat
              + 0x1_0000_0000 * b[4] as nat + 0x100_0000_0000 * b[5] as nat
              + 0x1_0000_0000_0000 * b[6] as nat + 0x100_0000_0000_0000 * b[7] as nat
  {
    FourBytes(b[..4]);
    FourBytes(b[4..]);
    FourThenFour(b);
  }

  lemma FourBytes(b: seq<byte>)
    requires |b| == 4
    ensures LittleEndian(b) == b[0] as nat + 0x100 * b[1] as nat + 0x1_0000 * b[2] as nat + 0x100_0000 * b[3] as nat
  {
    hide LittleEndian;
    FirstByte(b);
    FirstByte(b[1..]);
    FirstByte(b[2..]);
    FirstByte(b[3..]);
    NoBytes();
    assert b[1..][1..] == b[2..] && b[2..][1..] == b[3..] && b[3..][1..] == [];
  }

  lemma NoBytes()
    ensures LittleEndian([]) == 0
  {
  }

  lemma FourThenFour(b: seq<byte>)
    requires |b| == 8
    ensures LittleEndian(b) == LittleEndian(b[..4]) + 0x1_0000_0000 * LittleEndian(b[4..])
  {
    hide LittleEndian;
    FirstByte(b);
    FirstByte(b[1..]);
    FirstByte(b[2..]);
    FirstByte(b[3..]);
    FourBytes(b[..4]);
    assert b[1..][1..] == b[2..] && b[2..][1..] == b[3..] && b[3..][1..] == b[4..];
  }

  lemma FirstByte(b: seq<byte>)
    requires |b| > 0
    ensures LittleEndian(b) == b[0] as nat + 256 * LittleEndian(b[1..])
  {
  }

  /** The n lowest digits of a number in base 256, the lowest first. */
  function LowBytes(u: nat, n: nat): (b: seq<byte>)
    ensures |b| == n
    decreases n
  {
    if n == 0 then [] else [(u % 256) as byte] + LowBytes(u / 256, n - 1)
  }

  /** An int64 as the eight bytes of its two's complement. */
  function Written64(i: int): (b: seq<byte>)
    ensures |b| == 8
  {
    LowBytes(i % 0x1_0000_0000_0000_0000, 8)
  }

  function Power256(n: nat): (p: nat)
    ensures p > 0
  {
    if n == 0 then 1 else 256 * Power256(n - 1)
  }

  lemma {:induction false} LowBytesReadBack(u: nat, n: nat)
    requires u < Power256(n)
    ensures LittleEndian(LowBytes(u, n)) == u
    decreases n
  {
    if n > 0 {
      LowBytesReadBack(u / 256, n - 1);
      assert LowBytes(u, n)[1..] == LowBytes(u / 256, n - 1);
    }
  }

  lemma Power256Is64Bits()
    ensures Power256(8) == 0x1_0000_0000_0000_0000
  {
    assert Power256(4) == 0x1_0000_0000;
    assert Power256(8) == 256 * (256 * (256 * (256 * Power256(4))));
  }

  /** Main result: every int64 written as eight bytes is read back as itself. */
  lemma GranuleReadsBack(i: int)
    requires IsInt64(i)
    ensures Signed64(LittleEndian(Written64(i))) == i
  {
    hide LittleEndian, LowBytes, Power256;
    Power256Is64Bits();
    LowBytesReadBack(i % 0x1_0000_0000_0000_0000, 8);
  }

  /** Position -1 is eight bytes FF, and one second at 48 kHz is 80 BB and six zeros. */
  lemma WellKnownPositions(b: seq<byte>)
    ensures b == [0xFF, 0xFF, 0xFF, 0xFF, 0xFF, 0xFF, 0xFF, 0xFF] ==> Signed64(LittleEndian(b)) == -1
    ensures b == [0x80, 0xBB, 0, 0, 0, 0, 0, 0] ==> Signed64(LittleEndian(b)) == 48000
  {
    hide LittleEndian;
    if |b| == 8 { EightBytes(b); }
  }

  /** The sizes in a segment table add up, piece by piece. */
  lemma {:induction false} SumConcat(a: seq<byte>, b: seq<byte>)
    ensures Sum(a + b) == Sum(a) + Sum(b)
    ensures |a| == 1 ==> Sum(a) == a[0] as nat
  {
    if a == [] {
      assert a + b == b;
    } else {
      SumConcat(a[1..], b);
      assert (a + b)[1..] == a[1..] + b;
    }
  }

  // ---------------------------------------------------------------- the scanner

  method SegmentSum(table: seq<byte>) returns (pageSize: nat)
    ensures pageSize == Sum(table)
  {
    pageSize := 0;
    for i := 0 to |table|
      invariant pageSize + Sum(table[i..]) == Sum(table)
    {
      assert table[i..][0] == table[i] && table[i..][1..] == table[i + 1..];
      pageSize := pageSize + table[i] as nat;
    }
  }

  /** The largest granule position from here to the end of the data. */
  function Remaining(data: seq<byte>, pos: nat, floor: int): int {
    LargestGranule(data, Visited(data, pos), floor)
  }

  /** The duration of what the pages of the data hold. */
  function Seconds(data: seq<byte>): real {
    Remaining(data, 0, 0) as real / CLOCK
  }

  /** What one header contributes, and what one step over a byte leaves. */
  lemma Unfold(data: seq<byte>, pos: nat, floor: int)
    ensures pos + HEADER > |data| ==> Remaining(data, pos, floor) == floor
    ensures pos + HEADER <= |data| && !SignatureAt(data, pos) ==> Remaining(data, pos, floor) == Remaining(data, pos + 1, floor)
    ensures pos + HEADER <= |data| && SignatureAt(data, pos) ==>
              var g := GranuleAt(data, pos); var total := if g > floor then g else floor;
              Remaining(data, pos, floor)
              == if PageEnd(data, pos) == -1 then total else Remaining(data, PageEnd(data, pos), total)
  {
    if pos + HEADER <= |data| && SignatureAt(data, pos) {
      var rest := if PageEnd(data, pos) == -1 then [] else Visited(data, PageEnd(data, pos));
      assert Visited(data, pos) == [pos] + rest;
      LargestCons(data, pos, rest, floor);
    }
  }

  lemma LargestCons(data: seq<byte>, first: nat, rest: seq<nat>, floor: int)
    requires first + HEADER <= |data| && forall i :: 0 <= i < |rest| ==> rest[i] + HEADER <= |data|
    ensures forall i :: 0 <= i < |[first] + rest| ==> ([first] + rest)[i] + HEADER <= |data|
    ensures var g := GranuleAt(data, first);
            LargestGranule(data, [first] + rest, floor) == LargestGranule(data, rest, if g > floor then g else floor)
  {
    assert ([first] + rest)[1..] == rest;
  }

  /** Reads the segment table behind a header and skips the page's body. */
  method SkipBody(r: Reader, ghost start: nat, numSegments: nat) returns (ok: bool)
    requires r.pos == start + HEADER <= |r.data| && numSegments == r.data[start + 26] as nat
    modifies r
    ensures ok <==> PageEnd(r.data, start) != -1
    ensures ok ==> r.pos == PageEnd(r.data, start)
  {
    var segmentTable;
    segmentTable, ok := r.ReadFull(numSegments);
    if !ok {
      return;
    }
    assert segmentTable == r.data[start + HEADER..start + HEADER + numSegments];
    var pageSize := SegmentSum(segmentTable);
    ok := r.Seek(pageSize, FromCurrent);
  }

  lemma HeaderFields(data: seq<byte>, start: nat, buf: seq<byte>)
    requires start + HEADER <= |data| && buf == data[start..start + HEADER]
    ensures buf[..4] == SIGNATURE <==> SignatureAt(data, start)
    ensures Signed64(LittleEndian(buf[6..14])) == GranuleAt(data, start) && buf[26] == data[start + 26]
  {
    hide LittleEndian, Signed64;
    SliceOfSlice(data, start, HEADER, 0, 4);
    SliceOfSlice(data, start, HEADER, 6, 14);
  }

  lemma SliceOfSlice(data: seq<byte>, start: nat, n: nat, i: nat, j: nat)
    requires i <= j <= n && start + n <= |data|
    ensures data[start..start + n][i..j] == data[start + i..start + j]
  {
    var whole, part := data[start..start + n], data[start + i..start + j];
    assert |whole[i..j]| == |part| && forall k :: 0 <= k < |part| ==> whole[i..j][k] == whole[i + k] == part[k];
  }

  /** One turn of the scanner's loop; more is false where the loop is left. */
  method ScanOnce(r: Reader, total: int) returns (more: bool, newTotal: int)
    modifies r
    ensures Remaining(r.data, old(r.pos), total) == if more then Remaining(r.data, r.pos, newTotal) else newTotal
    ensures more ==> old(r.pos) + HEADER <= |r.data| && r.pos > old(r.pos)
  {
    newTotal := total;
    Unfold(r.data, r.pos, total);
    hide Remaining, Visited, LargestGranule, LittleEndian, Signed64, Sum, PageEnd, SignatureAt, GranuleAt;
    ghost var start := r.pos;
    var buf, eof := r.Read(HEADER);
    if eof || |buf| < HEADER {
      return false, total;
    }
    HeaderFields(r.data, start, buf);
    if buf[..4] != SIGNATURE {
      var ok := r.Seek(-26, FromCurrent);
      return true, total;
    }
    var granulePos := Signed64(LittleEndian(buf[6..14]));
    if granulePos > newTotal {
      newTotal := granulePos;
    }
    more := SkipBody(r, start, buf[26] as nat);
  }

  method GetOpusDuration(r: Reader) returns (duration: real)
    modifies r
    ensures duration == Seconds(r.data)
  {
    r.pos := 0;
    var totalGranulePos := 0;
    var more := true;
    while more
      invariant (if more then Remaining(r.data, r.pos, totalGranulePos) else totalGranulePos) == Remaining(r.data, 0, 0)
      decreases more, |r.data| - r.pos
    {
      more, totalGranulePos := ScanOnce(r, totalGranulePos);
    }
    duration := totalGranulePos as real / CLOCK;
  }

  // ---------------------------------------------------------------- what was written

  /** A page as section 6 of RFC 3533 lays it out; the fields the scanner ignores are kept as bytes. */
  datatype Page = Page(version: seq<byte>, granule: seq<byte>, serialSequenceChecksum: seq<byte>, segments: seq<byte>, body: seq<byte>) {
    predicate WellFormed() {
      |version| == 2 && |granule| == 8 && |serialSequenceChecksum| == 12 && |segments| <= 255 && |body| == Sum(segments)
    }

    function Encode(): (s: seq<byte>)
      requires WellFormed()
      ensures |s| == HEADER + |segments| + |body|
    {
      SIGNATURE + version + granule + serialSequenceChecksum + [|segments| as byte] + segments + body
    }

    lemma EncodeFields()
      requires WellFormed()
      ensures var s := Encode();
              && s[0..4] == [0x4F, 0x67, 0x67, 0x53] && s[6..14] == granule && s[26] as int == |segments|
              && s[HEADER..HEADER + |segments|] == segments
    {
      var upToGranule := SIGNATURE + version + granule;
      var header := upToGranule + serialSequenceChecksum + [|segments| as byte];
      var s := header + segments + body;
      assert upToGranule[6..14] == granule && header[..14] == upToGranule && |header| == HEADER;
      assert s[..HEADER] == header && s[6..14] == header[..14][6..14];
    }

    function Granule(): int {
      Signed64(LittleEndian(granule))
    }
  }

  /** Pages, each preceded by some bytes that belong to none. */
  datatype Chunk = Chunk(junk: seq<byte>, page: Page)

  predicate WellFormed(chunks: seq<Chunk>) {
    forall i :: 0 <= i < |chunks| ==> chunks[i].page.WellFormed()
  }

  function Stream(chunks: seq<Chunk>, tail: seq<byte>): seq<byte>
    requires WellFormed(chunks)
  {
    if chunks == [] then tail else chunks[0].junk + chunks[0].page.Encode() + Stream(chunks[1..], tail)
  }

  /** Where the pages start, when the stream itself starts at base. */
  function Starts(chunks: seq<Chunk>, base: nat): (starts: seq<nat>)
    requires WellFormed(chunks)
    ensures |starts| == |chunks|
  {
    if chunks == [] then []
    else
      var start := base + |chunks[0].junk|;
      [start] + Starts(chunks[1..], start + |chunks[0].page.Encode()|)
  }

  function LargestWritten(chunks: seq<Chunk>, floor: int): (r: int)
    ensures r >= floor
    ensures forall i :: 0 <= i < |chunks| ==> r >= chunks[i].page.Granule()
    ensures r == floor || exists i :: 0 <= i < |chunks| && r == chunks[i].page.Granule()
  {
    if chunks == [] then floor
    else
      var g := chunks[0].page.Granule();
      LargestWritten(chunks[1..], if g > floor then g else floor)
  }

  /** Junk before a page holds no whole signature; after the last page, none that could be a header. */
  ghost predicate Clean(chunks: seq<Chunk>, tail: seq<byte>) {
    && (forall i, j: nat :: 0 <= i < |chunks| ==> !SignatureAt(chunks[i].junk, j))
    && (forall j: nat :: j + HEADER <= |tail| ==> !SignatureAt(tail, j))
  }

  /** From base on, the data holds exactly these bytes. */
  ghost predicate Holds(data: seq<byte>, base: nat, bytes: seq<byte>) {
    base + |bytes| <= |data| && data[base..base + |bytes|] == bytes
  }

  lemma Slice(data: seq<byte>, base: nat, bytes: seq<byte>, i: nat, j: nat)
    requires Holds(data, base, bytes) && i <= j <= |bytes|
    ensures data[base + i..base + j] == bytes[i..j]
  {
    assert forall k :: i <= k < j ==> data[base + k] == data[base..base + |bytes|][k] == bytes[k];
    assert data[base + i..base + j] == data[base..base + |bytes|][i..j];
  }

  lemma SignatureInside(data: seq<byte>, base: nat, bytes: seq<byte>, j: nat)
    requires Holds(data, base, bytes) && j + 4 <= |bytes|
    ensures SignatureAt(data, base + j) <==> SignatureAt(bytes, j)
  {
    Slice(data, base, bytes, j, j + 4);
  }

  /** "OggS" has no self-overlap: none can begin in clean junk and run into the page behind it. */
  lemma NoOverlap(data: seq<byte>, base: nat, junk: seq<byte>, j: nat)
    requires Holds(data, base, junk) && SignatureAt(data, base + |junk|) && j < |junk|
    ensures SignatureAt(data, base + j) <==> SignatureAt(junk, j)
  {
    if j + 4 <= |junk| {
      SignatureInside(data, base, junk, j);
    } else {
      var k, next := |junk| - j, base + |junk|;
      assert data[base + j..base + j + 4][k] == data[next] == data[next..next + 4][0];
    }
  }

  /** The scanner steps over bytes that start no signature, one at a time. */
  lemma {:induction false} StepOver(data: seq<byte>, from: nat, to: nat)
    requires from <= to && to + HEADER <= |data|
    requires forall k :: from <= k < to ==> !SignatureAt(data, k)
    ensures Visited(data, from) == Visited(data, to)
    decreases |data| - from
  {
    if from < to { StepOver(data, from + 1, to); }
  }

  lemma {:induction false} StepOverAll(data: seq<byte>, from: nat)
    requires forall k: nat :: from <= k && k + HEADER <= |data| ==> !SignatureAt(data, k)
    ensures Visited(data, from) == []
    decreases |data| - from
  {
    if from + HEADER <= |data| { StepOverAll(data, from + 1); }
  }

  lemma {:induction false} FirstSignature(s: seq<byte>, j: nat) returns (first: nat)
    requires SignatureAt(s, j)
    ensures first <= j && first + 4 <= |s| && SignatureAt(s, first) && forall k: nat :: k < first ==> !SignatureAt(s, k)
  {
    if k: nat :| k < j && SignatureAt(s, k) {
      first := FirstSignature(s, k);
    } else {
      first := j;
    }
  }

  lemma VisitsSignature(data: seq<byte>, pos: nat)
    requires pos + HEADER <= |data| && SignatureAt(data, pos)
    ensures Visited(data, pos) == [pos] + (if PageEnd(data, pos) == -1 then [] else Visited(data, PageEnd(data, pos)))
  {
  }

  /** The scanner reaches the page behind clean junk, and something else first behind dirty junk. */
  lemma SkipJunk(data: seq<byte>, base: nat, junk: seq<byte>)
    requires Holds(data, base, junk) && SignatureAt(data, base + |junk|) && base + |junk| + HEADER <= |data|
    ensures (forall j: nat :: !SignatureAt(junk, j)) ==> Visited(data, base) == Visited(data, base + |junk|)
    ensures (exists j: nat :: SignatureAt(junk, j)) ==> |Visited(data, base)| > 0 && Visited(data, base)[0] < base + |junk|
  {
    hide Visited, SignatureAt, Holds, PageEnd;
    var first := |junk|;
    if j: nat :| SignatureAt(junk, j) {
      first := FirstSignature(junk, j);
      NoOverlap(data, base, junk, first);
      VisitsSignature(data, base + first);
    }
    forall k | base <= k < base + first ensures !SignatureAt(data, k) {
      NoOverlap(data, base, junk, k - base);
    }
    StepOver(data, base, base + first);
  }

  /** At a page's first byte the scanner reads its header right and lands just behind its last byte. */
  lemma ReadsPage(data: seq<byte>, pos: nat, page: Page)
    requires page.WellFormed() && Holds(data, pos, page.Encode())
    ensures SignatureAt(data, pos) && GranuleAt(data, pos) == page.Granule()
    ensures PageEnd(data, pos) == pos + |page.Encode()|
  {
    var p := page.Encode();
    page.EncodeFields();
    Slice(data, pos, p, 0, 4);
    Slice(data, pos, p, 6, 14);
    Slice(data, pos, p, HEADER, HEADER + |page.segments|);
    assert data[pos + 26] == data[pos..pos + |p|][26] == p[26];
  }

  /** From base on, the data is this stream. */
  ghost predicate LaidOut(data: seq<byte>, base: nat, chunks: seq<Chunk>, tail: seq<byte>)
    requires WellFormed(chunks)
  {
    Holds(data, base, Stream(chunks, tail)) && |data| == base + |Stream(chunks, tail)|
  }

  lemma FirstChunk(data: seq<byte>, base: nat, chunks: seq<Chunk>, tail: seq<byte>)
    requires WellFormed(chunks) && chunks != [] && LaidOut(data, base, chunks, tail)
    ensures WellFormed(chunks[1..]) && chunks[0].page.WellFormed()
    ensures var start := base + |chunks[0].junk|; var end := start + |chunks[0].page.Encode()|;
            && Holds(data, base, chunks[0].junk) && Holds(data, start, chunks[0].page.Encode())
            && LaidOut(data, end, chunks[1..], tail)
            && Starts(chunks, base) == [start] + Starts(chunks[1..], end)
  {
    var junk, p, more := chunks[0].junk, chunks[0].page.Encode(), Stream(chunks[1..], tail);
    var start := base + |junk|;
    var end := start + |p|;
    var s := junk + p + more;
    Slice(data, base, s, 0, |junk|);
    Slice(data, base, s, |junk|, |junk| + |p|);
    Slice(data, base, s, |junk| + |p|, |s|);
  }

  lemma TailCase(data: seq<byte>, base: nat, chunks: seq<Chunk>, tail: seq<byte>)
    requires chunks == [] && WellFormed(chunks) && LaidOut(data, base, chunks, tail)
    ensures Visited(data, base) == Starts(chunks, base) <==> Clean(chunks, tail)
  {
    TailVisits(data, base, tail);
  }

  lemma TailVisits(data: seq<byte>, base: nat, tail: seq<byte>)
    requires Holds(data, base, tail) && |data| == base + |tail|
    ensures Visited(data, base) == [] <==> forall j: nat :: j + HEADER <= |tail| ==> !SignatureAt(tail, j)
  {
    hide Visited, SignatureAt, Holds, PageEnd;
    forall j: nat | j + HEADER <= |tail| ensures SignatureAt(data, base + j) <==> SignatureAt(tail, j) {
      SignatureInside(data, base, tail, j);
    }
    if j: nat :| j + HEADER <= |tail| && SignatureAt(tail, j) {
      var first := FirstSignature(tail, j);
      forall k | base <= k < base + first ensures !SignatureAt(data, k) {
        assert !SignatureAt(tail, k - base);
      }
      StepOver(data, base, base + first);
      VisitsSignature(data, base + first);
      assert |Visited(data, base)| > 0;
    } else {
      forall k: nat | base <= k && k + HEADER <= |data| ensures !SignatureAt(data, k) {
        assert !SignatureAt(tail, k - base);
      }
      StepOverAll(data, base);
    }
  }

  lemma CleanRest(chunks: seq<Chunk>, tail: seq<byte>)
    requires chunks != [] && forall j: nat :: !SignatureAt(chunks[0].junk, j)
    ensures Clean(chunks, tail) <==> Clean(chunks[1..], tail)
  {
    if Clean(chunks[1..], tail) {
      forall i, j: nat | 0 <= i < |chunks| ensures !SignatureAt(chunks[i].junk, j) {
        if i > 0 { assert !SignatureAt(chunks[1..][i - 1].junk, j); }
      }
    }
  }

  /** Junk, then a page: the scanner takes the page's start next unless the junk is dirty. */
  lemma JunkThenPage(data: seq<byte>, base: nat, junk: seq<byte>, page: Page)
    requires page.WellFormed() && Holds(data, base, junk) && Holds(data, base + |junk|, page.Encode())
    ensures var start := base + |junk|; var end := start + |page.Encode()|;
            && ((forall j: nat :: !SignatureAt(junk, j)) ==> Visited(data, base) == [start] + Visited(data, end))
            && ((exists j: nat :: SignatureAt(junk, j)) ==> |Visited(data, base)| > 0 && Visited(data, base)[0] < start)
  {
    hide Visited, SignatureAt, GranuleAt, PageEnd;
    ReadsPage(data, base + |junk|, page);
    SkipJunk(data, base, junk);
    VisitsSignature(data, base + |junk|);
  }

  lemma SameLists(x: seq<nat>, y: seq<nat>, a: nat, x': seq<nat>, y': seq<nat>)
    requires x == [a] + x' && y == [a] + y'
    ensures x == y <==> x' == y'
  {
    assert x[1..] == x' && y[1..] == y';
  }

  lemma {:induction false} VisitsExactly(data: seq<byte>, base: nat, chunks: seq<Chunk>, tail: seq<byte>)
    requires WellFormed(chunks) && LaidOut(data, base, chunks, tail)
    ensures Visited(data, base) == Starts(chunks, base) <==> Clean(chunks, tail)
    decreases |chunks|
  {
    hide *;
    if chunks == [] {
      TailCase(data, base, chunks, tail);
    } else {
      var junk, page := chunks[0].junk, chunks[0].page;
      FirstChunk(data, base, chunks, tail);
      JunkThenPage(data, base, junk, page);
      var start := base + |junk|;
      var end := start + |page.Encode()|;
      VisitsExactly(data, end, chunks[1..], tail);
      StepExactly(chunks, tail, Visited(data, base), Starts(chunks, base), start, Visited(data, end), Starts(chunks[1..], end));
    }
  }

  lemma StepExactly(chunks: seq<Chunk>, tail: seq<byte>, x: seq<nat>, y: seq<nat>, start: nat, x': seq<nat>, y': seq<nat>)
    requires chunks != [] && y == [start] + y' && (x' == y' <==> Clean(chunks[1..], tail))
    requires (forall j: nat :: !SignatureAt(chunks[0].junk, j)) ==> x == [start] + x'
    requires (exists j: nat :: SignatureAt(chunks[0].junk, j)) ==> |x| > 0 && x[0] < start
    ensures x == y <==> Clean(chunks, tail)
  {
    if forall j: nat :: !SignatureAt(chunks[0].junk, j) {
      CleanRest(chunks, tail);
      SameLists(x, y, start, x', y');
    } else {
      assert x[0] != y[0];
    }
  }

  lemma {:induction false} GranulesMatch(data: seq<byte>, base: nat, chunks: seq<Chunk>, tail: seq<byte>, floor: int)
    requires WellFormed(chunks) && LaidOut(data, base, chunks, tail)
    ensures var starts := Starts(chunks, base);
            && (forall i :: 0 <= i < |starts| ==> starts[i] + HEADER <= |data|)
            && LargestGranule(data, starts, floor) == LargestWritten(chunks, floor)
    decreases |chunks|
  {
    hide SignatureAt, PageEnd, GranuleAt, Stream, Page.Encode, Page.Granule, LaidOut, LittleEndian, Sum;
    if chunks != [] {
      FirstChunk(data, base, chunks, tail);
      var page, start := chunks[0].page, base + |chunks[0].junk|;
      var end, g := start + |page.Encode()|, page.Granule();
      ReadsPage(data, start, page);
      GranulesMatch(data, end, chunks[1..], tail, if g > floor then g else floor);
      LargestCons(data, start, Starts(chunks[1..], end), floor);
    }
  }

  /** Main result: the scanner takes exactly the written pages for pages if and only if no junk in
      front of a page holds the signature and none after the last page could pass for a header. */
  lemma ScannerFindsExactlyThePages(chunks: seq<Chunk>, tail: seq<byte>)
    requires WellFormed(chunks)
    ensures Visited(Stream(chunks, tail), 0) == Starts(chunks, 0) <==> Clean(chunks, tail)
  {
    var data := Stream(chunks, tail);
    assert data[0..|data|] == data;
    VisitsExactly(data, 0, chunks, tail);
  }

  lemma TotalIsLargest(chunks: seq<Chunk>, tail: seq<byte>)
    requires WellFormed(chunks) && Clean(chunks, tail)
    ensures Remaining(Stream(chunks, tail), 0, 0) == LargestWritten(chunks, 0)
  {
    ScannerFindsExactlyThePages(chunks, tail);
    var data := Stream(chunks, tail);
    assert data[0..|data|] == data;
    GranulesMatch(data, 0, chunks, tail, 0);
  }

  /** The pages carry these granule positions. */
  ghost predicate Carry(chunks: seq<Chunk>, positions: seq<int>) {
    && |positions| == |chunks|
    && forall i :: 0 <= i < |chunks| ==> IsInt64(positions[i]) && chunks[i].page.granule == Written64(positions[i])
  }

  /** Main result: for pages written with these positions the duration is that of the largest of them, at 48000
      a second, and at least zero, so that -1, the position of a page on which no packet ends, does not count. */
  lemma ScannerFindsTheLength(chunks: seq<Chunk>, tail: seq<byte>, positions: seq<int>)
    requires WellFormed(chunks) && Clean(chunks, tail) && Carry(chunks, positions)
    ensures var duration := Seconds(Stream(chunks, tail));
            && duration >= 0.0 && (forall i :: 0 <= i < |positions| ==> duration >= positions[i] as real / 48000.0)
            && (duration == 0.0 || exists i :: 0 <= i < |positions| && duration == positions[i] as real / 48000.0)
  {
    hide Written64, WellFormed, Clean, Remaining, Stream, LittleEndian, Signed64;
    TotalIsLargest(chunks, tail);
    forall i | 0 <= i < |chunks| ensures chunks[i].page.Granule() == positions[i] {
      GranuleReadsBack(positions[i]);
    }
    var total := LargestWritten(chunks, 0);
    if total != 0 {
      var i :| 0 <= i < |chunks| && total == chunks[i].page.Granule();
      assert total == positions[i];
    }
  }
}
