/** Finding the duration of an Opus stream by walking its Ogg pages.

    The page layout is that of section 6 of RFC 3533; the duration is the largest granule position
    divided by 48000, as in section 4 of RFC 7845. */
module OggScanner {
  import opened Numbers

  const HEADER_SIZE := 27
  const MAGIC: seq<byte> := [0x4F, 0x67, 0x67, 0x53]  // "OggS"

  // ---------- Numbers in bytes ----------

  function FromLittleEndian(bs: seq<byte>): nat {
    if bs == [] then 0 else bs[0] as nat + 256 * FromLittleEndian(bs[1..])
  }

  function Pow256(n: nat): nat {
    if n == 0 then 1 else 256 * Pow256(n - 1)
  }

  function ToLittleEndian(v: nat, n: nat): (bs: seq<byte>)
    ensures |bs| == n
  {
    if n == 0 then [] else [(v % 256) as byte] + ToLittleEndian(v / 256, n - 1)
  }

  lemma {:induction false} LittleEndianRoundTrip(v: nat, n: nat)
    requires v < Pow256(n)
    ensures FromLittleEndian(ToLittleEndian(v, n)) == v
  {
    if n > 0 {
      LittleEndianRoundTrip(v / 256, n - 1);
      assert ToLittleEndian(v, n)[1..] == ToLittleEndian(v / 256, n - 1);
    }
  }

  lemma Regroup(x: nat, w: nat, y: nat)
    ensures 256 * (x + w * y) == 256 * x + (256 * w) * y
  {
    assert 256 * (w * y) == (256 * w) * y;
  }

  /** The first byte counts least: bytes that follow n others weigh 256 to the n-th as much. */
  lemma {:induction false} LaterBytesWeighMore(xs: seq<byte>, ys: seq<byte>)
    ensures FromLittleEndian(xs + ys) == FromLittleEndian(xs) + Pow256(|xs|) * FromLittleEndian(ys)
  {
    if xs == [] {
      assert xs + ys == ys;
    } else {
      assert (xs + ys)[1..] == xs[1..] + ys;
      LaterBytesWeighMore(xs[1..], ys);
      Regroup(FromLittleEndian(xs[1..]), Pow256(|xs| - 1), FromLittleEndian(ys));
    }
  }

  /** So two bytes are the first plus 256 times the second. */
  lemma TwoBytes(a: byte, b: byte)
    ensures FromLittleEndian([a, b]) == a as nat + 256 * b as nat
  {
    LaterBytesWeighMore([a], [b]);
    assert [a] + [b] == [a, b] && [a][1..] == [] && [b][1..] == [];
    assert Pow256(1) == 256 * Pow256(0);
  }

  /** The signed value is the unsigned one up to a multiple of 2^64. */
  lemma SignedIsCongruent(v: nat)
    requires v < 0x1_0000_0000_0000_0000
    ensures -0x8000_0000_0000_0000 <= ToInt64(v) < 0x8000_0000_0000_0000
    ensures ToInt64(v) == v || ToInt64(v) == v - 0x1_0000_0000_0000_0000
  {
  }

  /** The conversion from uint64 to int64. */
  function ToInt64(v: nat): int {
    if v < TWO63 then v else v - TWO64
  }

  function Max(a: int, b: int): int {
    if a > b then a else b
  }

  function Sum(bs: seq<byte>): nat {
    if bs == [] then 0 else bs[0] as nat + Sum(bs[1..])
  }

  /** A payload is as long as its segments together. */
  lemma {:induction false} SumOfBoth(xs: seq<byte>, ys: seq<byte>)
    ensures Sum(xs + ys) == Sum(xs) + Sum(ys)
  {
    if xs == [] {
      assert xs + ys == ys;
    } else {
      assert (xs + ys)[1..] == xs[1..] + ys;
      SumOfBoth(xs[1..], ys);
    }
  }

  lemma SumOfOne(b: byte)
    ensures Sum([b]) == b as nat && Sum([]) == 0
  {
    assert [b][1..] == [];
  }

  // ---------- What a scan of arbitrary bytes finds ----------

  predicate MagicAt(data: seq<byte>, pos: nat) {
    pos + 4 <= |data| && data[pos] == 0x4F && data[pos + 1] == 0x67 && data[pos + 2] == 0x67 && data[pos + 3] == 0x53
  }

  function GranuleAt(data: seq<byte>, pos: nat): int
    requires pos + HEADER_SIZE <= |data|
  {
    ToInt64(FromLittleEndian(data[pos + 6..pos + 14]))
  }

  /** The largest positive granule position found from `pos` on. */
  function Scan(data: seq<byte>, pos: nat): (best: nat)
    decreases |data| - pos
  {
    if pos + HEADER_SIZE > |data| then 0
    else if !MagicAt(data, pos) then Scan(data, pos + 1)
    else
      var granule := GranuleAt(data, pos);
      var segments := data[pos + 26] as nat;
      var table := pos + HEADER_SIZE;
      if table + segments > |data| then Max(granule, 0)
      else Max(granule, Scan(data, table + segments + Sum(data[table..table + segments])))
  }

  /** The pattern is the text "OggS". */
  lemma PatternIsOggS(data: seq<byte>, pos: nat)
    requires pos + 4 <= |data|
    ensures MagicAt(data, pos) <==>
      && data[pos] as int == 'O' as int && data[pos + 1] as int == 'g' as int
      && data[pos + 2] as int == 'g' as int && data[pos + 3] as int == 'S' as int
    ensures |MAGIC| == 4 && MagicAt(MAGIC, 0)
  {
  }

  /** At a complete page header a scan takes the granule position and moves past the payload. */
  lemma ScanPageStep(data: seq<byte>, pos: nat)
    requires pos + HEADER_SIZE <= |data| && MagicAt(data, pos)
    requires pos + HEADER_SIZE + data[pos + 26] as nat <= |data|
    ensures var table := pos + HEADER_SIZE; var segments := data[pos + 26] as nat;
      Scan(data, pos)
        == Max(GranuleAt(data, pos), Scan(data, table + segments + Sum(data[table..table + segments])))
  {
  }

  lemma SliceOfSlice(data: seq<byte>, a: nat, b: nat, c: nat, d: nat)
    requires a <= b <= |data| && c <= d <= b - a
    ensures data[a..b][c..d] == data[a + c..a + d]
  {
    var s, l, r := data[a..b], data[a..b][c..d], data[a + c..a + d];
    forall k | 0 <= k < d - c ensures l[k] == r[k] {
      assert l[k] == s[c + k] && r[k] == data[a + c + k];
    }
  }

  /** What the 27 bytes at `pos` say is what Scan reads there. */
  lemma HeaderFields(data: seq<byte>, pos: nat, buf: seq<byte>)
    requires pos + HEADER_SIZE <= |data| && buf == data[pos..pos + HEADER_SIZE]
    ensures buf[0..4] == MAGIC <==> MagicAt(data, pos)
    ensures GranuleAt(data, pos) == ToInt64(FromLittleEndian(buf[6..14])) && buf[26] == data[pos + 26]
    ensures !MagicAt(data, pos) ==> Scan(data, pos) == Scan(data, pos + 1)
  {
    SliceOfSlice(data, pos, pos + HEADER_SIZE, 6, 14);
    assert forall i :: 0 <= i < 4 ==> buf[i] == data[pos + i];
    assert buf[0..4] == [buf[0], buf[1], buf[2], buf[3]];
  }

  /** A seekable reader. */
  class Reader {
    const data: seq<byte>
    var pos: nat

    constructor (bytes: seq<byte>)
      ensures data == bytes && pos == 0
    {
      data, pos := bytes, 0;
    }

    /** Up to `n` bytes; none at the end of the data. */
    method Read(n: nat) returns (buf: seq<byte>)
      modifies this
      ensures |buf| == if old(pos) >= |data| then 0 else if |data| - old(pos) < n then |data| - old(pos) else n
      ensures buf == if old(pos) >= |data| then [] else data[old(pos)..old(pos) + |buf|]
      ensures pos == old(pos) + |buf|
    {
      if pos >= |data| {
        return [];
      }
      var end := if |data| - pos < n then |data| else pos + n;
      buf := data[pos..end];
      pos := end;
    }

    /** Relative seek; before the start it fails and moves nothing. */
    method SeekBy(offset: int) returns (ok: bool)
      modifies this
      ensures ok <==> old(pos) + offset >= 0
      ensures pos == if ok then old(pos) + offset else old(pos)
    {
      ok := pos + offset >= 0;
      if ok {
        pos := pos + offset;
      }
    }
  }

  /** The payload size that a segment table announces. */
  method TotalSize(segmentTable: seq<byte>) returns (pageSize: nat)
    ensures pageSize == Sum(segmentTable)
  {
    pageSize := 0;
    for i := 0 to |segmentTable|
      invariant pageSize + Sum(segmentTable[i..]) == Sum(segmentTable)
    {
      pageSize := pageSize + segmentTable[i] as nat;
      assert segmentTable[i..][1..] == segmentTable[i + 1..];
    }
  }

  /** The rest of a page whose header starts at `start`: its segment table and payload are skipped.
      `complete` is false when the data ends inside the table. */
  method SkipPage(r: Reader, numSegments: byte, ghost start: nat) returns (complete: bool)
    requires start + HEADER_SIZE <= |r.data| && r.pos == start + HEADER_SIZE && MagicAt(r.data, start)
    requires numSegments == r.data[start + 26]
    modifies r
    ensures r.pos > start
    ensures Scan(r.data, start) == Max(GranuleAt(r.data, start), if complete then Scan(r.data, r.pos) else 0)
  {
    var segmentTable := r.Read(numSegments as nat);
    if |segmentTable| < numSegments as nat {
      return false;
    }
    assert segmentTable == r.data[start + HEADER_SIZE..start + HEADER_SIZE + numSegments as nat];
    var pageSize := TotalSize(segmentTable);
    complete := r.SeekBy(pageSize);
    ScanPageStep(r.data, start);
  }

  /** getOpusDuration: `total / 48000` seconds, where total is what a scan from the start finds. */
  method GetOpusDuration(r: Reader) returns (total: nat, duration: real)
    modifies r
    ensures total == Scan(r.data, 0)
    ensures duration == total as real / 48000.0
  {
    r.pos := 0;
    total := 0;
    while true
      invariant Max(total, Scan(r.data, r.pos)) == Scan(r.data, 0)
      decreases |r.data| - r.pos
    {
      ghost var start := r.pos;
      var buf := r.Read(HEADER_SIZE);
      if |buf| < HEADER_SIZE {
        break;
      }
      HeaderFields(r.data, start, buf);
      if buf[0..4] != MAGIC {
        var ok := r.SeekBy(-26);
        if !ok {
          break;
        }
        continue;
      }
      var granulePos := ToInt64(FromLittleEndian(buf[6..14]));
      if granulePos > total {
        total := granulePos;
      }
      var complete := SkipPage(r, buf[26], start);
      if !complete {
        break;
      }
    }
    duration := total as real / 48000.0;
  }

  // ---------- Streams of well-formed pages ----------

  /** A page: everything between the capture pattern and the segment table is arbitrary except the
      granule position. */
  datatype Page = Page(
    version: byte, flags: byte, granule: int, serial: seq<byte>, number: seq<byte>, checksum: seq<byte>,
    segments: seq<byte>, payload: seq<byte>)

  predicate WellFormed(p: Page) {
    && IsInt64(p.granule) && |p.serial| == |p.number| == |p.checksum| == 4
    && |p.segments| < 256 && |p.payload| == Sum(p.segments)
  }

  function FromInt64(v: int): nat
    requires IsInt64(v)
  {
    if v >= 0 then v else v + TWO64
  }

  /** Section 6 of RFC 3533. */
  function Header(p: Page): (bs: seq<byte>)
    requires WellFormed(p)
    ensures |bs| == HEADER_SIZE
  {
    MAGIC + [p.version, p.flags] + ToLittleEndian(FromInt64(p.granule), 8)
      + p.serial + p.number + p.checksum + [|p.segments| as byte]
  }

  function Encode(p: Page): seq<byte>
    requires WellFormed(p)
  {
    Header(p) + p.segments + p.payload
  }

  /** No "OggS" inside. */
  predicate NoMagic(gap: seq<byte>) {
    forall i :: 0 <= i < |gap| ==> !MagicAt(gap, i)
  }

  /** A page and the garbage in front of it. */
  datatype Chunk = Chunk(gap: seq<byte>, page: Page)

  predicate GoodChunks(chunks: seq<Chunk>) {
    forall i :: 0 <= i < |chunks| ==> NoMagic(chunks[i].gap) && WellFormed(chunks[i].page)
  }

  /** Chunks followed by a garbage tail. */
  function Stream(chunks: seq<Chunk>, tail: seq<byte>): seq<byte>
    requires GoodChunks(chunks)
  {
    if chunks == [] then tail
    else chunks[0].gap + (Encode(chunks[0].page) + Stream(chunks[1..], tail))
  }

  function MaxGranule(chunks: seq<Chunk>): nat {
    if chunks == [] then 0 else Max(chunks[0].page.granule, MaxGranule(chunks[1..]))
  }

  lemma GranuleRoundTrip(v: int)
    requires IsInt64(v)
    ensures ToInt64(FromLittleEndian(ToLittleEndian(FromInt64(v), 8))) == v
  {
    assert Pow256(8) == TWO64;
    LittleEndianRoundTrip(FromInt64(v), 8);
  }

  lemma TailSlice(a: seq<byte>, b: seq<byte>, i: nat, j: nat)
    requires i <= j <= |b|
    ensures (a + b)[|a| + i..|a| + j] == b[i..j]
  {
  }

  /** Scanning depends only on the bytes from the position on. */
  lemma {:induction false} ScanShift(a: seq<byte>, b: seq<byte>, pos: nat)
    ensures Scan(a + b, |a| + pos) == Scan(b, pos)
    decreases |b| - pos
  {
    if pos + HEADER_SIZE <= |b| {
      assert MagicAt(a + b, |a| + pos) <==> MagicAt(b, pos);
      if !MagicAt(b, pos) {
        ScanShift(a, b, pos + 1);
      } else {
        var segments := b[pos + 26] as nat;
        var table := pos + HEADER_SIZE;
        TailSlice(a, b, pos + 6, pos + 14);
        if table + segments <= |b| {
          TailSlice(a, b, table, table + segments);
          ScanShift(a, b, table + segments + Sum(b[table..table + segments]));
        }
      }
    }
  }

  /** No match straddles garbage and what follows it, if that is empty or starts with the pattern:
      the pattern has no proper suffix that starts it. */
  lemma NoStraddle(gap: seq<byte>, rest: seq<byte>, pos: nat)
    requires NoMagic(gap) && pos < |gap| && (rest == [] || MagicAt(rest, 0))
    ensures !MagicAt(gap + rest, pos)
  {
    assert pos + 4 <= |gap| ==> !MagicAt(gap, pos);
    assert rest != [] ==> (gap + rest)[|gap|] == rest[0];
  }

  /** Garbage is skipped byte by byte up to the next page, or to the end. */
  lemma {:induction false} ScanSkipsGap(gap: seq<byte>, rest: seq<byte>, pos: nat)
    requires NoMagic(gap) && pos <= |gap| && (rest == [] || (MagicAt(rest, 0) && |rest| >= HEADER_SIZE))
    ensures Scan(gap + rest, pos) == Scan(rest, 0)
    decreases |gap| - pos
  {
    if pos == |gap| {
      ScanShift(gap, rest, 0);
    } else {
      NoStraddle(gap, rest, pos);
      if pos + HEADER_SIZE <= |gap + rest| {
        ScanSkipsGap(gap, rest, pos + 1);
      }
    }
  }

  lemma PageFields(p: Page, rest: seq<byte>)
    requires WellFormed(p)
    ensures var data := Encode(p) + rest;
      && data == Header(p) + (p.segments + (p.payload + rest))
      && data[..HEADER_SIZE] == Header(p) && data[HEADER_SIZE..HEADER_SIZE + |p.segments|] == p.segments
  {
    var tail := p.segments + (p.payload + rest);
    assert Encode(p) + rest == Header(p) + tail;
    TailSlice(Header(p), tail, 0, |p.segments|);
    assert tail[0..|p.segments|] == p.segments;
  }

  lemma PageHead(p: Page, rest: seq<byte>)
    requires WellFormed(p)
    ensures var data := Encode(p) + rest;
      |data| >= HEADER_SIZE && MagicAt(data, 0) && GranuleAt(data, 0) == p.granule && data[26] == |p.segments| as byte
  {
    PageFields(p, rest);
    HeaderBytes(p);
    HeaderFields(Encode(p) + rest, 0, Header(p));
    GranuleRoundTrip(p.granule);
  }

  /** A page contributes its granule position; its payload is never looked at. */
  lemma ScanSkipsPage(p: Page, rest: seq<byte>)
    requires WellFormed(p)
    ensures |Encode(p) + rest| >= HEADER_SIZE && MagicAt(Encode(p) + rest, 0)
    ensures Scan(Encode(p) + rest, 0) == Max(p.granule, Scan(rest, 0))
  {
    PageHead(p, rest);
    PageFields(p, rest);
    ScanPageStep(Encode(p) + rest, 0);
    ScanShift(Encode(p), rest, 0);
  }

  lemma HeaderBytes(p: Page)
    requires WellFormed(p)
    ensures var h := Header(p);
      h[0..4] == MAGIC && h[6..14] == ToLittleEndian(FromInt64(p.granule), 8) && h[26] == |p.segments| as byte
  {
    var front, granule := MAGIC + [p.version, p.flags], ToLittleEndian(FromInt64(p.granule), 8);
    var back := p.serial + p.number + p.checksum + [|p.segments| as byte];
    assert Header(p) == front + (granule + back);
    TailSlice(front, granule + back, 0, 8);
    assert (granule + back)[0..8] == granule;
    assert front[0..4] == MAGIC;
  }

  /** The main result: whatever garbage without the pattern stands before, between and after the
      pages, the scan finds the largest granule position, or 0 when none is positive. */
  lemma {:induction false} ScanFindsLargestGranule(chunks: seq<Chunk>, tail: seq<byte>)
    requires GoodChunks(chunks) && NoMagic(tail)
    ensures Scan(Stream(chunks, tail), 0) == MaxGranule(chunks)
  {
    if chunks == [] {
      ScanSkipsGap(tail, [], 0);
      assert tail + [] == tail;
    } else {
      var rest := Stream(chunks[1..], tail);
      ScanFindsLargestGranule(chunks[1..], tail);
      ScanSkipsPage(chunks[0].page, rest);
      ScanSkipsGap(chunks[0].gap, Encode(chunks[0].page) + rest, 0);
    }
  }

  /** A page cut off in its header says nothing; one cut off later still gives its granule position. */
  lemma CutPage(p: Page, k: nat)
    requires WellFormed(p) && k <= |Encode(p)|
    ensures Scan(Encode(p)[..k], 0) == if k < 27 then 0 else Max(p.granule, 0)
  {
    if k >= HEADER_SIZE {
      CutHead(p, k);
      var data := Encode(p)[..k];
      var segments, table := |p.segments|, HEADER_SIZE + |p.segments|;
      if table <= k {
        ScanPageStep(data, 0);
        assert data[HEADER_SIZE..table] == p.segments;
      }
    }
  }

  lemma CutHead(p: Page, k: nat)
    requires WellFormed(p) && HEADER_SIZE <= k <= |Encode(p)|
    ensures var data := Encode(p)[..k];
      && MagicAt(data, 0) && GranuleAt(data, 0) == p.granule && data[26] == |p.segments| as byte
      && (HEADER_SIZE + |p.segments| <= k ==> data[HEADER_SIZE..HEADER_SIZE + |p.segments|] == p.segments)
  {
    PageFields(p, []);
    PageHead(p, []);
    var data := Encode(p)[..k];
    assert Encode(p) + [] == Encode(p);
    assert data[..HEADER_SIZE] == Header(p);
    HeaderBytes(p);
    HeaderFields(data, 0, Header(p));
    GranuleRoundTrip(p.granule);
  }

  /** MaxGranule is 0 or the granule position of some page, and bounds them all. */
  lemma {:induction false} MaxGranuleIsLargest(chunks: seq<Chunk>)
    ensures forall i :: 0 <= i < |chunks| ==> chunks[i].page.granule <= MaxGranule(chunks)
    ensures MaxGranule(chunks) == 0 || exists i :: 0 <= i < |chunks| && chunks[i].page.granule == MaxGranule(chunks)
  {
    if chunks != [] {
      var rest := chunks[1..];
      MaxGranuleIsLargest(rest);
      assert forall i :: 0 < i < |chunks| ==> chunks[i] == rest[i - 1];
      if MaxGranule(chunks) != 0 && MaxGranule(chunks) != chunks[0].page.granule {
        var i :| 0 <= i < |rest| && rest[i].page.granule == MaxGranule(rest);
        assert chunks[i + 1] == rest[i];
      }
    }
  }
}
