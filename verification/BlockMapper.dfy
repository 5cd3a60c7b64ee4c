/** Block planning (src/block/mapper.rs): a byte range of a file as segments of fixed-size
    blocks, for reading and for writing. Offsets and lengths are `u64` in the source; the
    signed fields of `FileInfo` are reinterpreted by `AsU64`. */
module BlockMapper {
  import opened Types
  import opened Arithmetic

  /** Part of one block: `BlockWritePlan`, and what a `BlockReadPlan` adds an id to. */
  datatype Segment = Segment(block: nat, offset: nat, length: nat)

  datatype ReadPlan = ReadPlan(blockId: int, segment: Segment)

  /** `x as u64` for an `i64`. */
  function AsU64(x: int): (r: int) {
    if x < 0 then x + U64_SIZE else x
  }

  ghost predicate IsI64(x: int) {
    -I64_MAX - 1 <= x <= I64_MAX
  }

  /** The fields of a protobuf message are in the range of their types. */
  ghost predicate InRange(info: FileInfo) {
    && (info.blockSizeBytes.Some? ==> IsI64(info.blockSizeBytes.value))
    && (info.length.Some? ==> IsI64(info.length.value))
  }

  function BlockSize(info: FileInfo): int {
    AsU64(info.blockSizeBytes.GetOr(64 * 1024 * 1024))
  }

  function FileLength(info: FileInfo): int {
    AsU64(info.length.GetOr(0))
  }

  // ----- What a plan should be -----

  /** The block that holds position `j` of a file, and where in the block. */
  function BlockOf(bs: nat, j: nat): nat
    requires bs > 0
  {
    j / bs
  }

  function Within(bs: nat, j: nat): (r: nat)
    requires bs > 0
    ensures r < bs
  {
    j % bs
  }

  /** The range [offset, offset + length) cut at the multiples of the block size. */
  function Segments(bs: nat, offset: nat, length: nat): seq<Segment>
    requires bs > 0
    decreases length
  {
    if length == 0 then []
    else
      var n := Min(length, bs - Within(bs, offset));
      [Segment(BlockOf(bs, offset), Within(bs, offset), n)] + Segments(bs, offset + n, length - n)
  }

  function IdAt(ids: seq<int>, i: nat): int {
    if i < |ids| then ids[i] else -1
  }

  function WithIds(ids: seq<int>, segments: seq<Segment>): (r: seq<ReadPlan>)
    ensures |r| == |segments|
    ensures forall i :: 0 <= i < |r| ==> r[i] == ReadPlan(IdAt(ids, segments[i].block), segments[i])
  {
    seq(|segments|, i requires 0 <= i < |segments| => ReadPlan(IdAt(ids, segments[i].block), segments[i]))
  }

  lemma WithIdsThen(ids: seq<int>, done: seq<Segment>, s: Segment)
    ensures WithIds(ids, done + [s]) == WithIds(ids, done) + [ReadPlan(IdAt(ids, s.block), s)]
  {
  }

  /** The segments that a read of [offset, offset + length) touches, cut off at the end of file. */
  function ReadSegments(info: FileInfo, offset: nat, length: nat): seq<Segment>
    requires InRange(info)
  {
    if BlockSize(info) == 0 || offset >= FileLength(info) then []
    else Segments(BlockSize(info), offset, Min(length, FileLength(info) - offset))
  }

  // ----- The source's loops -----

  method PlanRead(info: FileInfo, offset: nat, length: nat) returns (plans: seq<ReadPlan>)
    requires InRange(info)
    ensures plans == WithIds(info.blockIds, ReadSegments(info, offset, length))
  {
    var blockSize := BlockSize(info);
    var fileLength := FileLength(info);
    if blockSize == 0 || length == 0 || offset >= fileLength {
      return [];
    }
    var effective := Min(length, fileLength - offset);
    plans := PlanWithin(info.blockIds, blockSize, offset, effective);
  }

  /** The loop of `plan_read`. Its sums stay within `u64`. */
  method PlanWithin(ids: seq<int>, blockSize: nat, offset: nat, length: nat) returns (plans: seq<ReadPlan>)
    requires blockSize > 0 && offset + length < U64_SIZE
    ensures plans == WithIds(ids, Segments(blockSize, offset, length))
  {
    hide WithIds, BlockOf, Within;
    plans := [];
    ghost var done: seq<Segment> := [];
    var remaining := length;
    var current := offset;
    while remaining > 0
      invariant 0 <= remaining && current + remaining == offset + length
      invariant plans == WithIds(ids, done)
      invariant done + Segments(blockSize, current, remaining) == Segments(blockSize, offset, length)
    {
      var blockIndex := BlockOf(blockSize, current);
      var offsetInBlock := Within(blockSize, current);
      var bytesInBlock := Min(remaining, blockSize - offsetInBlock);
      var blockId := IdAt(ids, blockIndex);
      var segment := Segment(blockIndex, offsetInBlock, bytesInBlock);
      WithIdsThen(ids, done, segment);
      done := done + [segment];
      plans := plans + [ReadPlan(blockId, segment)];
      current := current + bytesInBlock;
      remaining := remaining - bytesInBlock;
    }
  }

  /** The source's sums stay within `u64`. */
  method PlanWrite(blockSize: nat, fileOffset: nat, length: nat) returns (plans: seq<Segment>)
    requires fileOffset + length < U64_SIZE
    ensures plans == if blockSize == 0 then [] else Segments(blockSize, fileOffset, length)
  {
    hide BlockOf, Within;
    if blockSize == 0 || length == 0 {
      return [];
    }
    plans := [];
    var remaining := length;
    var current := fileOffset;
    while remaining > 0
      invariant 0 <= remaining && current + remaining == fileOffset + length
      invariant plans + Segments(blockSize, current, remaining) == Segments(blockSize, fileOffset, length)
    {
      var blockIndex := BlockOf(blockSize, current);
      var offsetInBlock := Within(blockSize, current);
      var bytesInBlock := Min(remaining, blockSize - offsetInBlock);
      plans := plans + [Segment(blockIndex, offsetInBlock, bytesInBlock)];
      current := current + bytesInBlock;
      remaining := remaining - bytesInBlock;
    }
  }

  // ----- What plans mean -----

  datatype Cell = Cell(block: nat, offset: nat)

  /** Contents of blocks. */
  type Store<T> = map<Cell, T>

  /** Where position `j` of a file is stored. */
  function Place(bs: nat, j: nat): Cell
    requires bs > 0
  {
    Cell(BlockOf(bs, j), Within(bs, j))
  }

  /** Cell `i` of a segment. */
  function CellAt(s: Segment, i: nat): Cell {
    Cell(s.block, s.offset + i)
  }

  /** What a file holds, by position. There may be gaps. */
  type Content<T> = map<nat, T>

  /** The blocks hold the content `f`. */
  ghost predicate Holds<T>(store: Store<T>, bs: nat, f: Content<T>)
    requires bs > 0
  {
    forall j :: j in f ==> Place(bs, j) in store && store[Place(bs, j)] == f[j]
  }

  function Cells(s: Segment): set<Cell> {
    set i | 0 <= i < s.length :: CellAt(s, i)
  }

  /** Write `d` to a segment. */
  function WriteSegment<T>(store: Store<T>, s: Segment, d: seq<T>): Store<T>
    requires |d| == s.length
  {
    store + map c | c in Cells(s) :: d[c.offset - s.offset]
  }

  function TotalLength(segments: seq<Segment>): nat {
    if segments == [] then 0 else segments[0].length + TotalLength(segments[1..])
  }

  function WriteAll<T>(store: Store<T>, segments: seq<Segment>, d: seq<T>): Store<T>
    requires |d| == TotalLength(segments)
    decreases |segments|
  {
    if segments == [] then store
    else
      var s := segments[0];
      WriteAll(WriteSegment(store, s, d[..s.length]), segments[1..], d[s.length..])
  }

  ghost predicate Readable<T>(store: Store<T>, s: Segment) {
    Cells(s) <= store.Keys
  }

  ghost function ReadSegment<T>(store: Store<T>, s: Segment): (r: seq<T>)
    requires Readable(store, s)
    ensures |r| == s.length
  {
    seq(s.length, i requires 0 <= i < s.length => assert CellAt(s, i) in Cells(s); store[CellAt(s, i)])
  }

  ghost function ReadAll<T>(store: Store<T>, segments: seq<Segment>): seq<T>
    requires forall s :: s in segments ==> Readable(store, s)
    decreases |segments|
  {
    if segments == [] then [] else ReadSegment(store, segments[0]) + ReadAll(store, segments[1..])
  }

  /** `f` with `d` written over it from position `w` on, wherever that is. */
  function Overwrite<T>(f: Content<T>, w: nat, d: seq<T>): (r: Content<T>)
    ensures forall j: nat :: j in r <==> j in f || w <= j < w + |d|
    ensures forall j: nat :: j in r ==> r[j] == if w <= j < w + |d| then d[j - w] else f[j]
    decreases |d|
  {
    if d == [] then f else Overwrite(f[w := d[0]], w + 1, d[1..])
  }

  /** There is no gap in `[o, o + n)`. */
  ghost predicate Filled<T>(f: Content<T>, o: nat, n: nat) {
    forall j: nat :: o <= j < o + n ==> j in f
  }

  ghost function Slice<T>(f: Content<T>, o: nat, n: nat): (r: seq<T>)
    requires Filled(f, o, n)
    ensures |r| == n && forall i :: 0 <= i < n ==> r[i] == f[o + i]
  {
    seq(n, i requires 0 <= i < n => f[o + i])
  }

  /** Positions within one block. */
  lemma PlaceWithin(bs: nat, offset: nat, i: nat)
    requires bs > 0 && i < bs - Within(bs, offset)
    ensures Place(bs, offset + i) == Cell(BlockOf(bs, offset), Within(bs, offset) + i)
  {
    var q, r := offset / bs, offset % bs;
    assert offset + i == bs * q + (r + i);
    DivModUnique(offset + i, bs, q, r + i);
  }

  lemma PlaceInjective(bs: nat, i: nat, j: nat)
    requires bs > 0 && Place(bs, i) == Place(bs, j)
    ensures i == j
  {
    assert i == bs * (i / bs) + i % bs && j == bs * (j / bs) + j % bs;
  }

  lemma {:induction false} SegmentsTotal(bs: nat, offset: nat, length: nat)
    requires bs > 0
    ensures TotalLength(Segments(bs, offset, length)) == length
    decreases length
  {
    if length > 0 {
      var n := Min(length, bs - Within(bs, offset));
      SegmentsTotal(bs, offset + n, length - n);
    }
  }

  /** Segment `i` starts where the segments before it end, in the block and at the offset in the block
      that this position has, and ends at the end of the block or of the range. */
  lemma {:induction false} SegmentsExactly(bs: nat, offset: nat, length: nat, i: nat)
    requires bs > 0 && i < |Segments(bs, offset, length)|
    ensures
      var segments := Segments(bs, offset, length);
      var start := offset + TotalLength(segments[..i]);
      && segments[i].block == start / bs
      && segments[i].offset == start % bs
      && segments[i].length == Min(bs - segments[i].offset, offset + length - start) > 0
    decreases length
  {
    var segments := Segments(bs, offset, length);
    var m := Min(length, bs - Within(bs, offset));
    if i > 0 {
      assert segments[1..] == Segments(bs, offset + m, length - m);
      SegmentsExactly(bs, offset + m, length - m, i - 1);
      assert segments[..i][1..] == segments[1..][..i - 1];
    } else {
      assert segments[..0] == [];
    }
  }

  /** The block size and the length of the file by its fields, with the source's defaults. A negative
      field stands for the `u64` with the same bits. */
  predicate HasFields(info: FileInfo, bs: nat, fileLength: nat) {
    && bs < U64_SIZE && fileLength < U64_SIZE
    && (info.blockSizeBytes.None? ==> bs == 0x400_0000)
    && (info.blockSizeBytes.Some? ==> info.blockSizeBytes.value in {bs, bs - U64_SIZE})
    && (info.length.None? ==> fileLength == 0)
    && (info.length.Some? ==> info.length.value in {fileLength, fileLength - U64_SIZE})
  }

  /** A read plan covers exactly the part of the range that is in the file. */
  lemma ReadPlanExactly(info: FileInfo, bs: nat, fileLength: nat, offset: nat, length: nat)
    requires InRange(info) && HasFields(info, bs, fileLength)
    ensures ReadSegments(info, offset, length)
         == if bs > 0 && offset < fileLength then Segments(bs, offset, Min(length, fileLength - offset)) else []
    ensures TotalLength(ReadSegments(info, offset, length))
         == if bs > 0 && offset < fileLength then Min(length, fileLength - offset) else 0
  {
    hide Segments;
    if bs > 0 && offset < fileLength {
      SegmentsTotal(bs, offset, Min(length, fileLength - offset));
    }
  }

  /** Writing the first segment of a plan. */
  lemma WriteOne<T>(store: Store<T>, bs: nat, f: Content<T>, w: nat, d: seq<T>)
    requires bs > 0 && |d| <= bs - Within(bs, w) && Holds(store, bs, f)
    ensures Holds(WriteSegment(store, Segment(BlockOf(bs, w), Within(bs, w), |d|), d), bs, Overwrite(f, w, d))
  {
    hide Overwrite, BlockOf, Within;
    var s := Segment(BlockOf(bs, w), Within(bs, w), |d|);
    var store', f' := WriteSegment(store, s, d), Overwrite(f, w, d);
    forall j | j in f' ensures Place(bs, j) in store' && store'[Place(bs, j)] == f'[j] {
      if w <= j < w + |d| {
        PlaceWithin(bs, w, j - w);
        assert CellAt(s, j - w) in Cells(s);
      } else {
        NotInSegment(bs, w, |d|, j);
      }
    }
  }

  lemma NotInSegment(bs: nat, w: nat, n: nat, j: nat)
    requires bs > 0 && n <= bs - Within(bs, w) && !(w <= j < w + n)
    ensures Place(bs, j) !in Cells(Segment(BlockOf(bs, w), Within(bs, w), n))
  {
    var s := Segment(BlockOf(bs, w), Within(bs, w), n);
    forall i | 0 <= i < n ensures CellAt(s, i) != Place(bs, j) {
      PlaceWithin(bs, w, i);
      if CellAt(s, i) == Place(bs, j) {
        PlaceInjective(bs, w + i, j);
      }
    }
  }

  lemma OverwriteTwice<T>(f: Content<T>, w: nat, d: seq<T>, n: nat)
    requires n <= |d|
    ensures Overwrite(Overwrite(f, w, d[..n]), w + n, d[n..]) == Overwrite(f, w, d)
  {
    hide Overwrite;
    var a, b := Overwrite(Overwrite(f, w, d[..n]), w + n, d[n..]), Overwrite(f, w, d);
    forall j: nat ensures j in a <==> j in b {
    }
    forall j: nat | j in a ensures a[j] == b[j] {
    }
  }

  /** A planned write stores exactly the overwritten content, at any offset, for any length and
      any positive block size, whatever was stored before. */
  lemma {:induction false} PlannedWrite<T>(store: Store<T>, bs: nat, f: Content<T>, w: nat, d: seq<T>)
    requires bs > 0 && Holds(store, bs, f)
    ensures TotalLength(Segments(bs, w, |d|)) == |d|
    ensures Holds(WriteAll(store, Segments(bs, w, |d|), d), bs, Overwrite(f, w, d))
    decreases |d|
  {
    hide Holds, WriteSegment, Overwrite;
    SegmentsTotal(bs, w, |d|);
    if |d| > 0 {
      var n := Min(|d|, bs - Within(bs, w));
      var d1, d2 := d[..n], d[n..];
      WriteOne(store, bs, f, w, d1);
      var store1 := WriteSegment(store, Segment(BlockOf(bs, w), Within(bs, w), n), d1);
      PlannedWrite(store1, bs, Overwrite(f, w, d1), w + n, d2);
      OverwriteTwice(f, w, d, n);
      assert Segments(bs, w, |d|)[1..] == Segments(bs, w + n, |d| - n);
    } else {
      OverwriteNothing(f, w, d);
    }
  }

  lemma OverwriteNothing<T>(f: Content<T>, w: nat, d: seq<T>)
    requires |d| == 0
    ensures Overwrite(f, w, d) == f
  {
  }

  /** Reading one segment. */
  lemma ReadOne<T>(store: Store<T>, bs: nat, f: Content<T>, o: nat, m: nat)
    requires bs > 0 && m <= bs - Within(bs, o) && Filled(f, o, m) && Holds(store, bs, f)
    ensures var s := Segment(BlockOf(bs, o), Within(bs, o), m);
      Readable(store, s) && ReadSegment(store, s) == Slice(f, o, m)
  {
    var s := Segment(BlockOf(bs, o), Within(bs, o), m);
    forall i | 0 <= i < m ensures CellAt(s, i) in store && store[CellAt(s, i)] == f[o + i] {
      PlaceWithin(bs, o, i);
    }
  }

  /** A planned read returns exactly the bytes of the range. */
  lemma {:induction false} PlannedRead<T>(store: Store<T>, bs: nat, f: Content<T>, o: nat, n: nat)
    requires bs > 0 && Filled(f, o, n) && Holds(store, bs, f)
    ensures forall s :: s in Segments(bs, o, n) ==> Readable(store, s)
    ensures ReadAll(store, Segments(bs, o, n)) == Slice(f, o, n)
    decreases n
  {
    hide Readable, Holds, ReadSegment;
    if n > 0 {
      var m := Min(n, bs - Within(bs, o));
      ReadOne(store, bs, f, o, m);
      PlannedRead(store, bs, f, o + m, n - m);
      assert Segments(bs, o, n)[1..] == Segments(bs, o + m, n - m);
      assert Slice(f, o, n) == Slice(f, o, m) + Slice(f, o + m, n - m);
    }
  }

  /** How much of `[o, o + n)` is in the file. */
  function Clamped(info: FileInfo, o: nat, n: nat): nat {
    if o < FileLength(info) then Min(n, FileLength(info) - o) else 0
  }

  /** Write, then read: whatever was stored before, whatever is written where, a read of any
      range returns the new content of that range, cut off at the end of the file. */
  lemma WriteThenRead<T>(store: Store<T>, f: Content<T>, w: nat, d: seq<T>, info: FileInfo, o: nat, n: nat)
    requires InRange(info) && BlockSize(info) > 0 && Holds(store, BlockSize(info), f)
    requires Filled(Overwrite(f, w, d), o, Clamped(info, o, n))
    ensures var bs := BlockSize(info);
      && TotalLength(Segments(bs, w, |d|)) == |d|
      && var store' := WriteAll(store, Segments(bs, w, |d|), d);
      && (forall s :: s in ReadSegments(info, o, n) ==> Readable(store', s))
      && ReadAll(store', ReadSegments(info, o, n)) == Slice(Overwrite(f, w, d), o, Clamped(info, o, n))
  {
    hide Holds, Readable, WriteAll, Segments, Overwrite, BlockSize, FileLength, Filled, Slice;
    var bs := BlockSize(info);
    PlannedWrite(store, bs, f, w, d);
    NoSegments(bs, o);
    assert ReadSegments(info, o, n) == Segments(bs, o, Clamped(info, o, n));
    PlannedRead(WriteAll(store, Segments(bs, w, |d|), d), bs, Overwrite(f, w, d), o, Clamped(info, o, n));
  }

  lemma NoSegments(bs: nat, o: nat)
    requires bs > 0
    ensures Segments(bs, o, 0) == []
  {
  }

  /** In particular, data written anywhere, into any blocks, is read back. */
  lemma ReadBack<T>(store: Store<T>, w: nat, d: seq<T>, info: FileInfo, o: nat, n: nat)
    requires InRange(info) && BlockSize(info) > 0
    requires w <= o && o + Clamped(info, o, n) <= w + |d|
    ensures var bs := BlockSize(info);
      && TotalLength(Segments(bs, w, |d|)) == |d|
      && var store' := WriteAll(store, Segments(bs, w, |d|), d);
      && (forall s :: s in ReadSegments(info, o, n) ==> Readable(store', s))
      && ReadAll(store', ReadSegments(info, o, n)) == d[o - w..o - w + Clamped(info, o, n)]
  {
    hide Overwrite, Clamped, Readable, WriteAll, Segments;
    WriteThenRead(store, map[], w, d, info, o, n);
    assert Slice(Overwrite(map[], w, d), o, Clamped(info, o, n)) == d[o - w..o - w + Clamped(info, o, n)];
  }
}
