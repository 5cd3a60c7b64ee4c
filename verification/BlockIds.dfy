/** Block ids from block infos (src/block/locations.rs:58-80), and what planned reads then use
    them for. */
module BlockIds {
  import opened Types
  import opened Arithmetic
  import opened BlockMapper

  /** What one `FileBlockInfo` says: an offset and an id, 0 if it has none. */
  datatype Entry = Entry(offset: int, id: int)

  function EntryOf(fbi: FileBlockInfo): Entry {
    Entry(fbi.offset.GetOr(0), if fbi.blockInfo.Some? then fbi.blockInfo.value.blockId.GetOr(0) else 0)
  }

  function Entries(infos: seq<FileBlockInfo>): (r: seq<Entry>)
    ensures |r| == |infos|
    ensures forall i :: 0 <= i < |r| ==> r[i] == EntryOf(infos[i])
  {
    seq(|infos|, i requires 0 <= i < |infos| => EntryOf(infos[i]))
  }

  /** The entries with a usable id, which is a positive one. */
  function Positive(s: seq<Entry>): seq<Entry> {
    if s == [] then []
    else
      var init, last := s[..|s| - 1], s[|s| - 1];
      if last.id > 0 then Positive(init) + [last] else Positive(init)
  }

  function Ids(s: seq<Entry>): (r: seq<int>)
    ensures |r| == |s|
    ensures forall i :: 0 <= i < |r| ==> r[i] == s[i].id
  {
    seq(|s|, i requires 0 <= i < |s| => s[i].id)
  }

  // ----- Sorting by offset -----

  predicate Sorted(s: seq<Entry>) {
    forall i, j :: 0 <= i < j < |s| ==> s[i].offset <= s[j].offset
  }

  function Insert(e: Entry, s: seq<Entry>): seq<Entry> {
    if s == [] || e.offset <= s[0].offset then [e] + s else [s[0]] + Insert(e, s[1..])
  }

  /** `sort_by_key` on the offset: a stable sort. */
  function Sort(s: seq<Entry>): seq<Entry> {
    if s == [] then [] else Insert(s[0], Sort(s[1..]))
  }

  lemma {:induction false} InsertPermutes(e: Entry, s: seq<Entry>)
    ensures multiset(Insert(e, s)) == multiset{e} + multiset(s)
    ensures forall x :: x in Insert(e, s) <==> x == e || x in s
  {
    if s != [] {
      assert s == [s[0]] + s[1..];
      if e.offset > s[0].offset {
        InsertPermutes(e, s[1..]);
      }
    }
  }

  lemma {:induction false} InsertKeeps(e: Entry, s: seq<Entry>)
    requires Sorted(s)
    ensures Sorted(Insert(e, s))
  {
    if s != [] && e.offset > s[0].offset {
      var r := Insert(e, s[1..]);
      InsertKeeps(e, s[1..]);
      InsertPermutes(e, s[1..]);
      forall x | x in r ensures s[0].offset <= x.offset {
        if x != e {
          var k :| 0 <= k < |s| - 1 && s[1..][k] == x;
          assert s[k + 1] == x;
        }
      }
    }
  }

  /** Sorting gives a sorted permutation. */
  lemma {:induction false} SortKeeps(s: seq<Entry>)
    ensures Sorted(Sort(s)) && multiset(Sort(s)) == multiset(s)
  {
    if s != [] {
      assert s == [s[0]] + s[1..];
      SortKeeps(s[1..]);
      InsertKeeps(s[0], Sort(s[1..]));
      InsertPermutes(s[0], Sort(s[1..]));
    }
  }

  /** The entries at one offset, in order. */
  function AtOffset(s: seq<Entry>, o: int): seq<Entry> {
    if s == [] then [] else (if s[0].offset == o then [s[0]] else []) + AtOffset(s[1..], o)
  }

  lemma {:induction false} InsertStable(e: Entry, s: seq<Entry>, o: int)
    ensures AtOffset(Insert(e, s), o) == AtOffset([e] + s, o)
  {
    assert ([e] + s)[1..] == s;
    if s != [] && e.offset > s[0].offset {
      InsertStable(e, s[1..], o);
      var r := [s[0]] + Insert(e, s[1..]);
      assert r[1..] == Insert(e, s[1..]);
      assert ([e] + s[1..])[1..] == s[1..];
    }
  }

  /** Entries with the same offset keep their order. */
  lemma {:induction false} SortStable(s: seq<Entry>, o: int)
    ensures AtOffset(Sort(s), o) == AtOffset(s, o)
  {
    if s != [] {
      SortStable(s[1..], o);
      InsertStable(s[0], Sort(s[1..]), o);
      assert ([s[0]] + Sort(s[1..]))[1..] == Sort(s[1..]);
    }
  }

  // ----- The source's function -----

  /** The ids that are taken from block infos. */
  function IdsFrom(infos: seq<FileBlockInfo>): seq<int> {
    Ids(Sort(Positive(Entries(infos))))
  }

  /** `ensure_block_ids_from_file_block_infos`: nothing changes if there are ids already. */
  method EnsureBlockIds(info: FileInfo) returns (r: FileInfo)
    ensures r == if info.blockIds != [] then info else info.(blockIds := IdsFrom(info.fileBlockInfos))
  {
    if info.blockIds != [] || info.fileBlockInfos == [] {
      return info;
    }
    var infos := info.fileBlockInfos;
    var pairs := [];
    for i := 0 to |infos|
      invariant pairs == Positive(Entries(infos)[..i])
    {
      var entry := EntryOf(infos[i]);
      assert Entries(infos)[..i + 1] == Entries(infos)[..i] + [entry];
      if entry.id > 0 {
        pairs := pairs + [entry];
      }
    }
    assert Entries(infos)[..|infos|] == Entries(infos);
    r := info.(blockIds := Ids(Sort(pairs)));
  }

  // ----- Blocks in order -----

  function StartOf(bs: nat, i: nat): nat {
    i * bs
  }

  lemma StartIncreases(bs: nat, i: nat, j: nat)
    requires bs > 0 && i < j
    ensures StartOf(bs, i) < StartOf(bs, j)
  {
    assert j * bs == i * bs + (j - i) * bs;
    MulMonotone(bs, 1, j - i);
  }

  /** The entries of a file whose block `i` has id `ids[i]` and starts at `i * bs`. */
  function InOrder(bs: nat, ids: seq<int>): (r: seq<Entry>)
    ensures |r| == |ids|
    ensures forall i :: 0 <= i < |r| ==> r[i] == Entry(StartOf(bs, i), ids[i])
  {
    seq(|ids|, i requires 0 <= i < |ids| => Entry(StartOf(bs, i), ids[i]))
  }

  predicate StrictlySorted(s: seq<Entry>) {
    forall i, j :: 0 <= i < j < |s| ==> s[i].offset < s[j].offset
  }

  lemma MultisetTail(a: seq<Entry>)
    requires a != []
    ensures multiset(a[1..]) == multiset(a) - multiset{a[0]}
  {
    assert a == [a[0]] + a[1..];
  }

  lemma IndexOf(a: seq<Entry>, e: Entry) returns (i: nat)
    requires e in multiset(a)
    ensures i < |a| && a[i] == e
  {
    i :| 0 <= i < |a| && a[i] == e;
  }

  lemma SameFirst(a: seq<Entry>, b: seq<Entry>)
    requires Sorted(a) && StrictlySorted(b) && multiset(a) == multiset(b) && a != [] && b != []
    ensures a[0] == b[0]
  {
    assert a[0] in multiset(a) && b[0] in multiset(b);
    var i := IndexOf(b, a[0]);
    var j := IndexOf(a, b[0]);
  }

  /** There is only one way to sort entries with distinct offsets. */
  lemma {:induction false} SortedUnique(a: seq<Entry>, b: seq<Entry>)
    requires Sorted(a) && StrictlySorted(b) && multiset(a) == multiset(b)
    ensures a == b
  {
    assert |multiset(a)| == |a| && |multiset(b)| == |b|;
    if b != [] {
      SameFirst(a, b);
      MultisetTail(a);
      MultisetTail(b);
      SortedUnique(a[1..], b[1..]);
      assert a == [a[0]] + a[1..] && b == [b[0]] + b[1..];
    }
  }

  /** Which entries survive the filter does not depend on their order. */
  lemma {:induction false} PositiveCount(s: seq<Entry>, e: Entry)
    ensures multiset(Positive(s))[e] == if e.id > 0 then multiset(s)[e] else 0
  {
    if s != [] {
      var init := s[..|s| - 1];
      assert s == init + [s[|s| - 1]];
      PositiveCount(init, e);
    }
  }

  lemma PositivePermutes(s: seq<Entry>, t: seq<Entry>)
    requires multiset(s) == multiset(t)
    ensures multiset(Positive(s)) == multiset(Positive(t))
  {
    forall e ensures multiset(Positive(s))[e] == multiset(Positive(t))[e] {
      PositiveCount(s, e);
      PositiveCount(t, e);
    }
  }

  lemma {:induction false} PositiveMembers(s: seq<Entry>)
    ensures forall e :: e in Positive(s) ==> e in s
  {
    if s != [] {
      PositiveMembers(s[..|s| - 1]);
    }
  }

  lemma {:induction false} PositiveSorted(s: seq<Entry>)
    requires StrictlySorted(s)
    ensures StrictlySorted(Positive(s))
  {
    if s != [] {
      var init, last := s[..|s| - 1], s[|s| - 1];
      PositiveSorted(init);
      PositiveMembers(init);
      forall x | x in Positive(init) ensures x.offset < last.offset {
        var k :| 0 <= k < |init| && init[k] == x;
        assert s[k] == x;
      }
    }
  }

  lemma InOrderSorted(bs: nat, ids: seq<int>)
    requires bs > 0
    ensures StrictlySorted(InOrder(bs, ids))
  {
    hide StartOf;
    forall i, j | 0 <= i < j < |ids| ensures StartOf(bs, i) < StartOf(bs, j) {
      StartIncreases(bs, i, j);
    }
  }

  function PositiveIds(ids: seq<int>): seq<int> {
    if ids == [] then []
    else
      var init, last := ids[..|ids| - 1], ids[|ids| - 1];
      if last > 0 then PositiveIds(init) + [last] else PositiveIds(init)
  }

  lemma {:induction false} IdsInOrder(bs: nat, ids: seq<int>)
    ensures Ids(Positive(InOrder(bs, ids))) == PositiveIds(ids)
  {
    if ids != [] {
      var init := ids[..|ids| - 1];
      IdsInOrder(bs, init);
      var s := InOrder(bs, ids);
      assert s[..|s| - 1] == InOrder(bs, init);
    }
  }

  /** Infos for all blocks of a file, in the order `perm`: info `i` is that of block `perm[i]`, which
      starts at `perm[i] * bs` and has the id `ids[perm[i]]`. */
  ghost predicate Layout(infos: seq<FileBlockInfo>, bs: nat, ids: seq<int>, perm: seq<nat>) {
    && |infos| == |ids| == |perm|
    && Permutation(perm)
    && forall i :: 0 <= i < |infos| ==>
         && infos[i].offset == Some(perm[i] * bs)
         && infos[i].blockInfo.Some? && infos[i].blockInfo.value.blockId == Some(ids[perm[i]])
  }

  predicate Permutation(perm: seq<nat>) {
    && (forall i :: 0 <= i < |perm| ==> perm[i] < |perm|)
    && (forall i, j :: 0 <= i < j < |perm| ==> perm[i] != perm[j])
  }

  /** `perm` without its last element `p`, closing the gap. */
  function Closed(perm: seq<nat>): (r: seq<nat>)
    requires Permutation(perm) && perm != []
    ensures |r| == |perm| - 1 && Permutation(r)
  {
    var n := |perm| - 1;
    seq(n, i requires 0 <= i < n => if perm[i] > perm[n] then perm[i] - 1 else perm[i])
  }

  /** Permuting a sequence does not change its elements. */
  lemma {:induction false} PermutedElements<T(!new)>(s: seq<T>, t: seq<T>, perm: seq<nat>)
    requires |s| == |t| == |perm| && Permutation(perm)
    requires forall i :: 0 <= i < |s| ==> s[i] == t[perm[i]]
    ensures multiset(s) == multiset(t)
  {
    if s != [] {
      var n := |s| - 1;
      Without(s, n);
      Without(t, perm[n]);
      WithoutPermuted(s, t, perm);
      hide Permutation, Closed;
      assert s[..n] == s[..n] + s[n + 1..];
      PermutedElements(s[..n], t[..perm[n]] + t[perm[n] + 1..], Closed(perm));
    }
  }

  lemma Without<T(!new)>(s: seq<T>, i: nat)
    requires i < |s|
    ensures multiset(s) == multiset(s[..i] + s[i + 1..]) + multiset{s[i]}
  {
    assert s == s[..i] + [s[i]] + s[i + 1..];
  }

  lemma WithoutPermuted<T(!new)>(s: seq<T>, t: seq<T>, perm: seq<nat>)
    requires |s| == |t| == |perm| && Permutation(perm) && s != []
    requires forall i :: 0 <= i < |s| ==> s[i] == t[perm[i]]
    ensures var n := |s| - 1;
      forall i :: 0 <= i < n ==> s[..n][i] == (t[..perm[n]] + t[perm[n] + 1..])[Closed(perm)[i]]
  {
    var n := |s| - 1;
    forall i | 0 <= i < n ensures s[..n][i] == (t[..perm[n]] + t[perm[n] + 1..])[Closed(perm)[i]] {
      assert perm[i] != perm[n] && s[i] == t[perm[i]];
    }
  }

  lemma LayoutEntries(infos: seq<FileBlockInfo>, bs: nat, ids: seq<int>, perm: seq<nat>)
    requires Layout(infos, bs, ids, perm)
    ensures multiset(Entries(infos)) == multiset(InOrder(bs, ids))
  {
    forall i | 0 <= i < |infos| ensures Entries(infos)[i] == InOrder(bs, ids)[perm[i]] {
    }
    PermutedElements(Entries(infos), InOrder(bs, ids), perm);
  }

  /** Block infos that describe the blocks with these ids, in any order, give these ids in
      block order, except that unusable ones are left out. */
  lemma IdsOfLayout(infos: seq<FileBlockInfo>, bs: nat, ids: seq<int>, perm: seq<nat>)
    requires bs > 0 && Layout(infos, bs, ids, perm)
    ensures IdsFrom(infos) == PositiveIds(ids)
  {
    hide Layout, Entries, InOrder;
    LayoutEntries(infos, bs, ids, perm);
    var s, t := Entries(infos), InOrder(bs, ids);
    PositivePermutes(s, t);
    SortKeeps(Positive(s));
    InOrderSorted(bs, ids);
    PositiveSorted(t);
    SortedUnique(Sort(Positive(s)), Positive(t));
    IdsInOrder(bs, ids);
  }

  /** Where there is no usable id there might as well be no info; and an info without an offset
      counts as one at offset 0. */
  lemma MissingFields(infos: seq<FileBlockInfo>, i: nat)
    requires i < |infos|
    ensures (infos[i].blockInfo.Some? ==> infos[i].blockInfo.value.blockId.GetOr(0) <= 0) ==>
      IdsFrom(infos) == IdsFrom(infos[..i] + infos[i + 1..])
    ensures infos[i].offset.None? ==> IdsFrom(infos) == IdsFrom(infos[i := infos[i].(offset := Some(0))])
  {
    var s := Entries(infos);
    UnusableLeftOut(s, i);
    assert Entries(infos[..i] + infos[i + 1..]) == s[..i] + s[i + 1..];
    hide Sort, Positive, Ids;
    if infos[i].offset.None? {
      assert Entries(infos[i := infos[i].(offset := Some(0))]) == s;
    }
  }

  lemma UnusableLeftOut(s: seq<Entry>, i: nat)
    requires i < |s|
    ensures s[i].id <= 0 ==> Positive(s) == Positive(s[..i] + s[i + 1..])
  {
    assert s == s[..i] + [s[i]] + s[i + 1..];
    PositiveConcat(s[..i] + [s[i]], s[i + 1..]);
    PositiveConcat(s[..i], [s[i]]);
    PositiveConcat(s[..i], s[i + 1..]);
    assert [s[i]][..0] == [];
  }

  lemma {:induction false} PositiveConcat(a: seq<Entry>, b: seq<Entry>)
    ensures Positive(a + b) == Positive(a) + Positive(b)
  {
    if b == [] {
      assert a + b == a;
    } else {
      var b' := b[..|b| - 1];
      PositiveConcat(a, b');
      assert (a + b)[..|a + b| - 1] == a + b';
    }
  }

  // ----- When blocks keep their ids -----

  /** Every block has its own id, or -1 if it has no usable one. */
  predicate Aligned(ids: seq<int>, found: seq<int>) {
    forall i :: 0 <= i < |ids| ==> IdAt(found, i) == if ids[i] > 0 then ids[i] else -1
  }

  /** Unusable ids occur at the end only. */
  predicate UsablePrefix(ids: seq<int>) {
    forall i, j :: 0 <= i < j < |ids| && ids[j] > 0 ==> ids[i] > 0
  }

  lemma {:induction false} AllUsable(ids: seq<int>)
    requires forall i :: 0 <= i < |ids| ==> ids[i] > 0
    ensures PositiveIds(ids) == ids
  {
    if ids != [] {
      AllUsable(ids[..|ids| - 1]);
      assert ids == ids[..|ids| - 1] + [ids[|ids| - 1]];
    }
  }

  lemma {:induction false} PositiveIdsConcat(a: seq<int>, b: seq<int>)
    ensures PositiveIds(a + b) == PositiveIds(a) + PositiveIds(b)
  {
    if b == [] {
      assert a + b == a;
    } else {
      var b' := b[..|b| - 1];
      PositiveIdsConcat(a, b');
      assert (a + b)[..|a + b| - 1] == a + b';
    }
  }

  lemma {:induction false} FirstUsable(ids: seq<int>)
    ensures forall x :: x in PositiveIds(ids) ==> x > 0
    ensures (exists i :: 0 <= i < |ids| && ids[i] > 0) ==> PositiveIds(ids) != []
    ensures (forall i :: 0 <= i < |ids| ==> ids[i] <= 0) ==> PositiveIds(ids) == []
  {
    if ids != [] {
      FirstUsable(ids[..|ids| - 1]);
    }
  }

  /** Around the first unusable id. */
  lemma SplitAtUnusable(ids: seq<int>, n: nat)
    requires n < |ids| && ids[n] <= 0 && forall i :: 0 <= i < n ==> ids[i] > 0
    ensures PositiveIds(ids) == ids[..n] + PositiveIds(ids[n..])
    ensures UsablePrefix(ids) <==> PositiveIds(ids[n..]) == []
    ensures forall x :: x in PositiveIds(ids[n..]) ==> x > 0
  {
    hide PositiveIds;
    var a, b := ids[..n], ids[n..];
    assert ids == a + b;
    PositiveIdsConcat(a, b);
    AllUsable(a);
    FirstUsable(b);
    PrefixEndsAt(ids, n);
  }

  lemma PrefixEndsAt(ids: seq<int>, n: nat)
    requires n < |ids| && ids[n] <= 0 && forall i :: 0 <= i < n ==> ids[i] > 0
    ensures UsablePrefix(ids) <==> forall i :: 0 <= i < |ids[n..]| ==> ids[n..][i] <= 0
  {
    var b := ids[n..];
    if UsablePrefix(ids) {
      forall i | 0 <= i < |b| ensures b[i] <= 0 {
        assert b[i] == ids[n + i];
      }
    } else {
      var i, j :| 0 <= i < j < |ids| && ids[j] > 0 && ids[i] <= 0;
      assert b[j - n] == ids[j];
    }
  }

  /** Leaving out an unusable id shifts all later ids by one block. So the blocks keep their
      ids if and only if no unusable id comes before a usable one. */
  lemma AlignedExactly(ids: seq<int>)
    ensures Aligned(ids, PositiveIds(ids)) <==> UsablePrefix(ids)
  {
    if n :| 0 <= n < |ids| && ids[n] <= 0 && forall i :: 0 <= i < n ==> ids[i] > 0 {
      SplitAtUnusable(ids, n);
      var rest := PositiveIds(ids[n..]);
      if rest == [] {
        assert PositiveIds(ids) == ids[..n];
        forall i | 0 <= i < |ids| ensures IdAt(PositiveIds(ids), i) == if ids[i] > 0 then ids[i] else -1 {
          if i > n {
            assert !(ids[i] > 0);
          }
        }
      } else {
        assert rest[0] in rest;
        assert IdAt(PositiveIds(ids), n) == rest[0];
      }
    } else {
      NoUnusable(ids, |ids|);
      AllUsable(ids);
    }
  }

  lemma {:induction false} NoUnusable(ids: seq<int>, m: nat)
    requires m <= |ids|
    requires !exists n :: 0 <= n < |ids| && ids[n] <= 0 && forall i :: 0 <= i < n ==> ids[i] > 0
    ensures forall i :: 0 <= i < m ==> ids[i] > 0
  {
    if m > 0 {
      NoUnusable(ids, m - 1);
    }
  }

  /** The same for the source's function: given infos for all blocks in any order, each block
      gets its own id if and only if unusable ids come last. */
  lemma BlocksKeepIdsExactly(infos: seq<FileBlockInfo>, bs: nat, ids: seq<int>, perm: seq<nat>)
    requires bs > 0 && Layout(infos, bs, ids, perm)
    ensures Aligned(ids, IdsFrom(infos)) <==> UsablePrefix(ids)
  {
    IdsOfLayout(infos, bs, ids, perm);
    AlignedExactly(ids);
  }

  // ----- Ids byte by byte -----

  /** The block id that a plan uses for each byte, in order. */
  function ByteIds(plans: seq<ReadPlan>): seq<int> {
    if plans == [] then []
    else seq(plans[0].segment.length, _ => plans[0].blockId) + ByteIds(plans[1..])
  }

  lemma SameBlock(bs: nat, o: nat, i: nat)
    requires bs > 0 && i < bs - Within(bs, o)
    ensures BlockOf(bs, o + i) == BlockOf(bs, o)
  {
    PlaceWithin(bs, o, i);
  }

  lemma WithIdsTail(ids: seq<int>, s: seq<Segment>)
    requires s != []
    ensures WithIds(ids, s)[1..] == WithIds(ids, s[1..])
  {
  }

  /** Every byte of a planned range is read from the block that contains it. */
  lemma {:induction false} PlannedIds(ids: seq<int>, bs: nat, o: nat, n: nat, i: nat)
    requires bs > 0 && i < n
    ensures |ByteIds(WithIds(ids, Segments(bs, o, n)))| == n
    ensures ByteIds(WithIds(ids, Segments(bs, o, n)))[i] == IdAt(ids, BlockOf(bs, o + i))
    decreases n
  {
    hide WithIds, BlockOf, Within;
    var m := Min(n, bs - Within(bs, o));
    var s := Segments(bs, o, n);
    assert s[1..] == Segments(bs, o + m, n - m);
    WithIdsTail(ids, s);
    if m < n {
      PlannedIds(ids, bs, o + m, n - m, if i < m then 0 else i - m);
    }
    if i < m {
      SameBlock(bs, o, i);
    }
  }

  /** Block infos that list every block once, in any order, with usable ids: each byte of a
      planned read gets the id of the block `b` that contains it. */
  lemma EveryByteGetsItsBlock(info: FileInfo, bs: nat, fileLength: nat, ids: seq<int>, perm: seq<nat>,
                              o: nat, n: nat, i: nat, b: nat)
    requires InRange(info) && HasFields(info, bs, fileLength) && bs > 0
    requires Layout(info.fileBlockInfos, bs, ids, perm)
    requires forall j :: 0 <= j < |ids| ==> ids[j] > 0
    requires fileLength <= |ids| * bs
    requires i < n && o + i < fileLength && b * bs <= o + i < b * bs + bs
    ensures IdsFrom(info.fileBlockInfos) == ids
    ensures var used := ByteIds(WithIds(ids, ReadSegments(info, o, n)));
      && |used| == Min(n, fileLength - o)
      && b < |ids| && used[i] == ids[b]
  {
    hide Layout, IdsFrom, WithIds, Segments, ReadSegments, HasFields, BlockOf;
    BlockIs(bs, o + i, b);
    BlockBelow(bs, o + i, |ids|);
    BytesGetIds(info, bs, fileLength, ids, perm, o, n, i);
  }

  lemma BytesGetIds(info: FileInfo, bs: nat, fileLength: nat, ids: seq<int>, perm: seq<nat>, o: nat, n: nat, i: nat)
    requires InRange(info) && HasFields(info, bs, fileLength) && bs > 0
    requires Layout(info.fileBlockInfos, bs, ids, perm) && forall j :: 0 <= j < |ids| ==> ids[j] > 0
    requires i < n && o + i < fileLength && BlockOf(bs, o + i) < |ids|
    ensures IdsFrom(info.fileBlockInfos) == ids
    ensures var used := ByteIds(WithIds(ids, ReadSegments(info, o, n)));
      |used| == Min(n, fileLength - o) && used[i] == ids[BlockOf(bs, o + i)]
  {
    hide Layout, IdsFrom, WithIds, Segments, ReadSegments, BlockOf;
    IdsOfLayout(info.fileBlockInfos, bs, ids, perm);
    AllUsable(ids);
    ReadPlanExactly(info, bs, fileLength, o, n);
    PlannedIds(ids, bs, o, Min(n, fileLength - o), i);
  }

  lemma BlockIs(bs: nat, j: nat, b: nat)
    requires bs > 0 && b * bs <= j < b * bs + bs
    ensures BlockOf(bs, j) == b
  {
    DivModUnique(j, bs, b, j - b * bs);
  }

  lemma BlockBelow(bs: nat, j: nat, n: nat)
    requires bs > 0 && j < n * bs
    ensures BlockOf(bs, j) < n
  {
    DivAtLeast(j, bs, n);
  }
}
