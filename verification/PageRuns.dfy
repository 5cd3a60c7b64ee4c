/** Runs of reads through one page cache, by any number of readers of any number of files. The
    files do not change during a run. */
module PageFiles {
  import opened PageReader

  type FileId = string

  /** A page's name in the cache. */
  type Key = (FileId, nat)

  datatype World = World(pageSize: nat, files: FileId -> Bytes)

  function FileLength(w: World, file: FileId): nat {
    |w.files(file)|
  }

  /** The bytes are the page of that name, which is not empty. */
  ghost predicate IsPageOf(w: World, key: Key, bytes: Bytes) {
    RightFill(w.files(key.0), w.pageSize, Fill(key.1, bytes))
  }

  function Keyed(file: FileId, fills: seq<Fill>): (r: seq<(Key, Bytes)>)
    ensures |r| == |fills|
    ensures forall i :: 0 <= i < |r| ==> r[i] == ((file, fills[i].index), fills[i].page)
  {
    seq(|fills|, i requires 0 <= i < |fills| => ((file, fills[i].index), fills[i].page))
  }

  /** A read: its range and plan, what the cache and the source answer, and the fill mode. */
  datatype Call = Call(file: FileId, offset: nat, end: nat, pages: seq<Page>, batch: seq<Bytes>, source: Source,
                       mode: FillMode)

  function Served(c: Call): Progress {
    Serve(c.pages, Answers(|c.pages|, c.batch), c.source, c.mode)
  }

  ghost predicate WellCalled(w: World, c: Call) {
    && c.offset <= c.end <= FileLength(w, c.file)
    && Tiles(c.pages, w.pageSize, FileLength(w, c.file), c.offset, c.end)
    && RightSource(w.files(c.file), c.source)
  }

  /** What the cache may answer for a page: the wanted part of what it holds, or anything of the
      wrong length. */
  ghost predicate MayAnswer(cached: map<Key, Bytes>, file: FileId, p: Page, answer: Bytes) {
    |answer| == p.want ==>
      && (file, p.index) in cached
      && p.inPage + p.want <= |cached[(file, p.index)]|
      && answer == cached[(file, p.index)][p.inPage..p.inPage + p.want]
  }

  ghost predicate RightAnswer(w: World, file: FileId, p: Page, answer: Bytes) {
    |answer| == p.want ==> p.To() <= FileLength(w, file) && answer == w.files(file)[p.From()..p.To()]
  }

  /** The batch is right, or of the wrong size. */
  ghost predicate RightBatch(w: World, c: Call) {
    |c.batch| == |c.pages| ==>
      forall i :: 0 <= i < |c.pages| ==> RightAnswer(w, c.file, c.pages[i], c.batch[i])
  }

  ghost predicate AllRight(w: World, cached: map<Key, Bytes>) {
    forall key :: key in cached ==> IsPageOf(w, key, cached[key])
  }

  /** A part of a right page is the right part of the file. */
  lemma PartOfPage(w: World, file: FileId, p: Page, bytes: Bytes)
    requires IsPage(p, w.pageSize, FileLength(w, file)) && IsPageOf(w, (file, p.index), bytes)
    ensures |bytes| == p.end - p.start
    ensures p.To() <= FileLength(w, file)
    ensures bytes[p.inPage..p.inPage + p.want] == w.files(file)[p.From()..p.To()]
  {
    hide PageStart;
    SliceOfSlice(w.files(file), p.start, p.end, p.inPage, p.want);
    hide PageEnd;
  }

  /** A cache that holds right pages gives right answers. */
  lemma AnswerIsRight(w: World, cached: map<Key, Bytes>, file: FileId, p: Page, answer: Bytes)
    requires AllRight(w, cached) && IsPage(p, w.pageSize, FileLength(w, file)) && MayAnswer(cached, file, p, answer)
    ensures RightAnswer(w, file, p, answer)
  {
    hide IsPageOf;
    if |answer| == p.want {
      PartOfPage(w, file, p, cached[(file, p.index)]);
    }
  }

  /** A read that succeeds returns exactly the bytes of its range. */
  ghost predicate ReturnsRange(w: World, c: Call) {
    Served(c).failed.None? ==>
      && c.offset <= c.end <= FileLength(w, c.file)
      && Served(c).bytes == w.files(c.file)[c.offset..c.end]
  }

  /** A read with right answers succeeds with exactly its range or fails, and hands out right pages. */
  lemma CallIsRight(w: World, c: Call)
    requires WellCalled(w, c) && RightBatch(w, c)
    ensures ReturnsRange(w, c)
    ensures forall x :: x in Keyed(c.file, Served(c).fills) ==> IsPageOf(w, x.0, x.1)
  {
    hide Tiles, RightSource, RightFill, Serve;
    ServeIsRight(w.files(c.file), w.pageSize, c.pages, c.offset, c.end, Answers(|c.pages|, c.batch), c.source, c.mode);
    var fills := Served(c).fills;
    forall i | 0 <= i < |fills| ensures IsPageOf(w, (c.file, fills[i].index), fills[i].page) {
      assert fills[i] in fills;
    }
  }
}

/** Every interleaving of reads with the cache's own doings. A read looks up its pages one by one,
    anything may happen in between, and instead of the answers it may be given a batch of the wrong
    size; what it hands to the cache, inline or through the write-back pool, is pending and
    arrives at any later time or never; and the cache drops pages at will. */
module PageInterleavings {
  import opened PageReader
  import opened PageFiles

  /** `reading` holds the reads that are looking up their pages; their batch is what they have got
      so far. */
  datatype State = State(cached: map<Key, Bytes>, pending: seq<(Key, Bytes)>, reading: map<nat, Call>)

  datatype Action =
    | Begins(id: nat, call: Call)
    | LooksUp(id: nat, answer: Bytes)
    | Serves(id: nat, batch: seq<Bytes>)
    | Arrives(i: nat)
    | IsLost(i: nat)
    | Evicts(key: Key)

  ghost predicate Enabled(w: World, s: State, a: Action) {
    match a
    case Begins(id, c) => id !in s.reading && WellCalled(w, c) && c.batch == []
    case LooksUp(id, answer) =>
      && id in s.reading && |s.reading[id].batch| < |s.reading[id].pages|
      && MayAnswer(s.cached, s.reading[id].file, s.reading[id].pages[|s.reading[id].batch|], answer)
    case Serves(id, batch) =>
      id in s.reading && (batch == s.reading[id].batch || |batch| != |s.reading[id].pages|)
    case Arrives(i) => i < |s.pending|
    case IsLost(i) => i < |s.pending|
    case Evicts(key) => key in s.cached
  }

  function Removed<T>(s: seq<T>, i: nat): seq<T> {
    if i < |s| then s[..i] + s[i + 1..] else s
  }

  function Step(s: State, a: Action): State {
    match a
    case Begins(id, c) => s.(reading := s.reading[id := c])
    case LooksUp(id, answer) =>
      if id !in s.reading then s
      else
        var c := s.reading[id];
        s.(reading := s.reading[id := c.(batch := c.batch + [answer])])
    case Serves(id, batch) =>
      if id !in s.reading then s
      else
        var c := s.reading[id].(batch := batch);
        s.(pending := s.pending + Keyed(c.file, Served(c).fills), reading := s.reading - {id})
    case Arrives(i) =>
      if i >= |s.pending| then s
      else s.(cached := s.cached[s.pending[i].0 := s.pending[i].1], pending := Removed(s.pending, i))
    case IsLost(i) => s.(pending := Removed(s.pending, i))
    case Evicts(key) => s.(cached := s.cached - {key})
  }

  function After(run: seq<Action>): State {
    if run == [] then State(map[], [], map[]) else Step(After(run[..|run| - 1]), run[|run| - 1])
  }

  ghost predicate Legal(w: World, run: seq<Action>) {
    run == [] || (Legal(w, run[..|run| - 1]) && Enabled(w, After(run[..|run| - 1]), run[|run| - 1]))
  }

  ghost predicate RightSoFar(w: World, c: Call) {
    |c.batch| <= |c.pages| && forall i :: 0 <= i < |c.batch| ==> RightAnswer(w, c.file, c.pages[i], c.batch[i])
  }

  ghost predicate Inv(w: World, s: State) {
    && AllRight(w, s.cached)
    && (forall x :: x in s.pending ==> IsPageOf(w, x.0, x.1))
    && (forall id :: id in s.reading ==> WellCalled(w, s.reading[id]) && RightSoFar(w, s.reading[id]))
  }

  /** The next answer is right, too. */
  lemma NextIsRight(w: World, cached: map<Key, Bytes>, c: Call, answer: Bytes)
    requires AllRight(w, cached) && WellCalled(w, c) && RightSoFar(w, c) && |c.batch| < |c.pages|
    requires MayAnswer(cached, c.file, c.pages[|c.batch|], answer)
    ensures WellCalled(w, c.(batch := c.batch + [answer])) && RightSoFar(w, c.(batch := c.batch + [answer]))
  {
    hide Tiles, RightSource, RightAnswer, MayAnswer, AllRight;
    TilesFit(c.pages, w.pageSize, FileLength(w, c.file), c.offset, c.end);
    assert c.pages[|c.batch|] in c.pages;
    AnswerIsRight(w, cached, c.file, c.pages[|c.batch|], answer);
  }

  /** A read that has its batch is right. */
  lemma ServedIsRight(w: World, c: Call, batch: seq<Bytes>)
    requires WellCalled(w, c) && RightSoFar(w, c) && (batch == c.batch || |batch| != |c.pages|)
    ensures ReturnsRange(w, c.(batch := batch))
    ensures forall x :: x in Keyed(c.file, Served(c.(batch := batch)).fills) ==> IsPageOf(w, x.0, x.1)
  {
    hide Tiles, RightSource, RightAnswer, ReturnsRange, Served, IsPageOf;
    CallIsRight(w, c.(batch := batch));
  }

  lemma StepKeepsInv(w: World, s: State, a: Action)
    requires Inv(w, s) && Enabled(w, s, a)
    ensures Inv(w, Step(s, a))
  {
    hide IsPageOf, Served, WellCalled, RightSoFar, ReturnsRange, MayAnswer;
    if a.Begins? {
      NothingYet(w, a.call);
    } else if a.LooksUp? {
      NextIsRight(w, s.cached, s.reading[a.id], a.answer);
    } else if a.Serves? {
      ServedIsRight(w, s.reading[a.id], a.batch);
    }
  }

  lemma NothingYet(w: World, c: Call)
    requires c.batch == []
    ensures RightSoFar(w, c)
  {
  }

  lemma {:induction false} RunKeepsInv(w: World, run: seq<Action>)
    requires Legal(w, run)
    ensures Inv(w, After(run))
  {
    hide Inv, Step, Enabled;
    if run == [] {
      EmptyIsRight(w);
    } else {
      RunKeepsInv(w, run[..|run| - 1]);
      StepKeepsInv(w, After(run[..|run| - 1]), run[|run| - 1]);
    }
  }

  lemma EmptyIsRight(w: World)
    ensures Inv(w, State(map[], [], map[]))
  {
  }

  lemma {:induction false} LegalPrefix(w: World, run: seq<Action>, k: nat)
    requires Legal(w, run) && k < |run|
    ensures Legal(w, run[..k]) && Enabled(w, After(run[..k]), run[k])
  {
    hide Step, Enabled;
    var n := |run| - 1;
    if k < n {
      LegalPrefix(w, run[..n], k);
      assert run[..n][..k] == run[..k];
    }
  }

  /** In every run, at every time, every cached page is the file's page, and every read that
      succeeds returns exactly the bytes of its range. */
  lemma EveryReadIsRight(w: World, run: seq<Action>, k: nat)
    requires Legal(w, run) && k < |run|
    ensures AllRight(w, After(run[..k]).cached)
    ensures run[k].Serves? ==>
      && run[k].id in After(run[..k]).reading
      && ReturnsRange(w, After(run[..k]).reading[run[k].id].(batch := run[k].batch))
  {
    hide AllRight, ReturnsRange, WellCalled, RightSoFar, MayAnswer, Step, Legal, After;
    LegalPrefix(w, run, k);
    RunKeepsInv(w, run[..k]);
    if run[k].Serves? {
      ServedIsRight(w, After(run[..k]).reading[run[k].id], run[k].batch);
    }
  }

  /** Nothing gets into the cache in a run in which no read fills. */
  lemma {:induction false} NoFillNothingCached(run: seq<Action>)
    requires forall k :: 0 <= k < |run| && run[k].Begins? ==> run[k].call.mode == NoFill
    ensures After(run).cached == map[] && After(run).pending == []
    ensures forall id :: id in After(run).reading ==> After(run).reading[id].mode == NoFill
  {
    if run != [] {
      var n := |run| - 1;
      NoFillNothingCached(run[..n]);
      var s, a := After(run[..n]), run[n];
      if a.Serves? && a.id in s.reading {
        var c := s.reading[a.id].(batch := a.batch);
        FillModes(c.pages, Answers(|c.pages|, c.batch), c.source, NoFill);
        hide Serve;
        assert Keyed(c.file, Served(c).fills) == [];
      }
      hide Served;
    }
  }
}

/** Reads one after the other that fill inline, through a cache that keeps what it is given until
    it evicts it, and that answers from what it keeps. */
module PageCosts {
  import opened Types
  import opened PageReader
  import opened PageFiles

  datatype Op = Reads(call: Call) | Evicts(key: Key)

  /** The cache's answer for a page. */
  function Answer(cached: map<Key, Bytes>, file: FileId, p: Page): Bytes {
    if (file, p.index) in cached && p.inPage + p.want <= |cached[(file, p.index)]|
    then cached[(file, p.index)][p.inPage..p.inPage + p.want] else []
  }

  ghost predicate Faithful(cached: map<Key, Bytes>, c: Call) {
    |c.batch| == |c.pages| && forall i :: 0 <= i < |c.pages| ==> c.batch[i] == Answer(cached, c.file, c.pages[i])
  }

  ghost predicate Enabled(w: World, cached: map<Key, Bytes>, op: Op) {
    match op
    case Reads(c) => WellCalled(w, c) && c.mode == SyncFill && Faithful(cached, c)
    case Evicts(key) => key in cached
  }

  function PutAll(cached: map<Key, Bytes>, file: FileId, fills: seq<Fill>): map<Key, Bytes> {
    if fills == [] then cached
    else
      var f := fills[|fills| - 1];
      PutAll(cached, file, fills[..|fills| - 1])[(file, f.index) := f.page]
  }

  function Step(cached: map<Key, Bytes>, op: Op): map<Key, Bytes> {
    match op
    case Reads(c) => PutAll(cached, c.file, Served(c).fills)
    case Evicts(key) => cached - {key}
  }

  function After(run: seq<Op>): map<Key, Bytes> {
    if run == [] then map[] else Step(After(run[..|run| - 1]), run[|run| - 1])
  }

  ghost predicate Legal(w: World, run: seq<Op>) {
    run == [] || (Legal(w, run[..|run| - 1]) && Enabled(w, After(run[..|run| - 1]), run[|run| - 1]))
  }

  function Named(file: FileId, indices: seq<nat>): (r: seq<Key>)
    ensures |r| == |indices| && forall i :: 0 <= i < |r| ==> r[i] == (file, indices[i])
  {
    seq(|indices|, i requires 0 <= i < |indices| => (file, indices[i]))
  }

  /** The pages that an operation got from the external source. */
  function GotBy(op: Op): seq<Key> {
    if op.Reads? then Named(op.call.file, Indices(Served(op.call).fills)) else []
  }

  /** All pages got from the external source. */
  function Got(run: seq<Op>): seq<Key> {
    if run == [] then [] else Got(run[..|run| - 1]) + GotBy(run[|run| - 1])
  }

  /** How often the page was evicted. */
  function Evictions(run: seq<Op>, key: Key): nat {
    if run == [] then 0
    else Evictions(run[..|run| - 1], key) + if run[|run| - 1] == Evicts(key) then 1 else 0
  }

  lemma {:induction false} PutAllKeys(cached: map<Key, Bytes>, file: FileId, fills: seq<Fill>, key: Key)
    ensures key in PutAll(cached, file, fills) <==> key in cached || key in Named(file, Indices(fills))
    ensures key in PutAll(cached, file, fills) ==>
      (key in cached && PutAll(cached, file, fills)[key] == cached[key]) ||
      (key, PutAll(cached, file, fills)[key]) in Keyed(file, fills)
  {
    if fills != [] {
      var n := |fills| - 1;
      PutAllKeys(cached, file, fills[..n], key);
      assert Indices(fills) == Indices(fills[..n]) + [fills[n].index];
      assert Named(file, Indices(fills)) == Named(file, Indices(fills[..n])) + [(file, fills[n].index)];
      assert Keyed(file, fills) == Keyed(file, fills[..n]) + [((file, fills[n].index), fills[n].page)];
    }
  }

  /** A read gets a page at most once, and only if it is not cached. */
  lemma GotOnce(w: World, cached: map<Key, Bytes>, c: Call, key: Key)
    requires AllRight(w, cached) && Enabled(w, cached, Reads(c))
    ensures multiset(GotBy(Reads(c)))[key] == (if key in GotBy(Reads(c)) then 1 else 0)
    ensures key in GotBy(Reads(c)) ==> key !in cached
  {
    var r := Served(c);
    ServeFetches(c.pages, c.batch, c.source, SyncFill);
    MissedOnce(c.pages, c.batch, w.pageSize, FileLength(w, c.file), c.offset, c.end);
    hide Tiles, Serve, Missed, AllRight;
    CountOnce(c.file, Indices(r.fills), key);
    if key in GotBy(Reads(c)) {
      assert key.1 in Indices(r.fills);
      MissedMember(c.pages, c.batch, key.1);
      var i :| 0 <= i < |c.pages| && c.pages[i].index == key.1 && |c.batch[i]| != c.pages[i].want;
      CachedIsAnswered(w, cached, c, i);
    }
  }

  lemma {:induction false} CountOnce(file: FileId, indices: seq<nat>, key: Key)
    requires Increasing(indices)
    ensures multiset(Named(file, indices))[key] == if key in Named(file, indices) then 1 else 0
  {
    if indices != [] {
      var n := |indices| - 1;
      CountOnce(file, indices[..n], key);
      assert Named(file, indices) == Named(file, indices[..n]) + [(file, indices[n])];
    }
  }

  lemma CachedIsAnswered(w: World, cached: map<Key, Bytes>, c: Call, i: nat)
    requires AllRight(w, cached) && Enabled(w, cached, Reads(c)) && i < |c.pages|
    ensures (c.file, c.pages[i].index) in cached ==> |c.batch[i]| == c.pages[i].want
  {
    hide IsPageOf, Tiles, RightSource;
    TilesFit(c.pages, w.pageSize, FileLength(w, c.file), c.offset, c.end);
    var key := (c.file, c.pages[i].index);
    if key in cached {
      PartOfPage(w, c.file, c.pages[i], cached[key]);
    }
  }

  lemma FaithfulIsRight(w: World, cached: map<Key, Bytes>, c: Call)
    requires AllRight(w, cached) && WellCalled(w, c) && Faithful(cached, c)
    ensures RightBatch(w, c)
  {
    hide Tiles, RightSource, RightAnswer, AllRight;
    TilesFit(c.pages, w.pageSize, FileLength(w, c.file), c.offset, c.end);
    forall i | 0 <= i < |c.pages| ensures RightAnswer(w, c.file, c.pages[i], c.batch[i]) {
      assert c.pages[i] in c.pages;
      AnswerIsRight(w, cached, c.file, c.pages[i], c.batch[i]);
    }
  }

  lemma StepIsRight(w: World, cached: map<Key, Bytes>, op: Op)
    requires AllRight(w, cached) && Enabled(w, cached, op)
    ensures AllRight(w, Step(cached, op))
  {
    hide IsPageOf, Served, WellCalled, ReturnsRange;
    if op.Reads? {
      FaithfulIsRight(w, cached, op.call);
      CallIsRight(w, op.call);
      forall key | key in Step(cached, op) ensures IsPageOf(w, key, Step(cached, op)[key]) {
        PutAllKeys(cached, op.call.file, Served(op.call).fills, key);
      }
    }
  }

  /** Conservation: a page was got from the source once for every time it was evicted, and once
      more if it is cached. */
  lemma {:induction false} GotOncePerEviction(w: World, run: seq<Op>, key: Key)
    requires Legal(w, run)
    ensures AllRight(w, After(run))
    ensures multiset(Got(run))[key] == Evictions(run, key) + if key in After(run) then 1 else 0
  {
    hide AllRight, Served, WellCalled, Faithful;
    if run == [] {
      NothingIsRight(w);
    } else {
      var before, op := run[..|run| - 1], run[|run| - 1];
      GotOncePerEviction(w, before, key);
      StepIsRight(w, After(before), op);
      if op.Reads? {
        GotOnce(w, After(before), op.call, key);
        PutAllKeys(After(before), op.call.file, Served(op.call).fills, key);
      }
    }
  }

  lemma NothingIsRight(w: World)
    ensures AllRight(w, map[])
  {
  }

  // ----- Without evictions -----

  function PageLength(w: World, key: Key): nat {
    Max(PageEnd(key.1, w.pageSize, FileLength(w, key.0)) - PageStart(key.1, w.pageSize), 0)
  }

  /** The bytes of the pages of `file` among `keys`, up to page `n`. */
  function Volume(w: World, keys: seq<Key>, file: FileId, n: nat): nat {
    if keys == [] then 0
    else
      var key := keys[|keys| - 1];
      Volume(w, keys[..|keys| - 1], file, n) + if key.0 == file && key.1 < n then PageLength(w, key) else 0
  }

  ghost predicate Once(keys: seq<Key>) {
    forall key :: multiset(keys)[key] <= 1
  }

  lemma {:induction false} VolumeGrows(w: World, keys: seq<Key>, file: FileId, n: nat)
    ensures (file, n) !in keys ==> Volume(w, keys, file, n + 1) == Volume(w, keys, file, n)
    ensures multiset(keys)[(file, n)] <= 1 ==>
      Volume(w, keys, file, n + 1) <= Volume(w, keys, file, n) + PageLength(w, (file, n))
  {
    hide PageLength;
    if keys != [] {
      var init := keys[..|keys| - 1];
      assert keys == init + [keys[|keys| - 1]];
      VolumeGrows(w, init, file, n);
      if keys[|keys| - 1] == (file, n) && multiset(keys)[(file, n)] <= 1 {
        assert multiset(init)[(file, n)] == 0;
        assert (file, n) !in multiset(init);
      }
    }
  }

  /** The pages below page `n`, each once, are at most the file up to there. */
  lemma {:induction false} VolumeBelow(w: World, keys: seq<Key>, file: FileId, n: nat)
    requires Once(keys)
    ensures Volume(w, keys, file, n) <= Min(PageStart(n, w.pageSize), FileLength(w, file))
  {
    if n == 0 {
      NoVolume(w, keys, file);
    } else {
      VolumeBelow(w, keys, file, n - 1);
      VolumeGrows(w, keys, file, n - 1);
    }
  }

  lemma {:induction false} NoVolume(w: World, keys: seq<Key>, file: FileId)
    ensures Volume(w, keys, file, 0) == 0
  {
    if keys != [] {
      NoVolume(w, keys[..|keys| - 1], file);
    }
  }

  /** In a run without evictions no page is got twice, and so no more bytes than the file has are
      got from the external source. */
  lemma FetchedAtMostOnce(w: World, run: seq<Op>, file: FileId, n: nat)
    requires Legal(w, run) && forall i :: 0 <= i < |run| ==> run[i].Reads?
    ensures Once(Got(run))
    ensures Volume(w, Got(run), file, n) <= FileLength(w, file)
  {
    hide Legal, Got, Volume;
    forall key ensures multiset(Got(run))[key] <= 1 {
      GotOncePerEviction(w, run, key);
      NoEvictions(run, key);
    }
    VolumeBelow(w, Got(run), file, n);
  }

  lemma {:induction false} NoEvictions(run: seq<Op>, key: Key)
    requires forall i :: 0 <= i < |run| ==> run[i].Reads?
    ensures Evictions(run, key) == 0
  {
    if run != [] {
      NoEvictions(run[..|run| - 1], key);
    }
  }

  /** A read that succeeds asks the source for no page but those it got. */
  lemma AskedIsGot(c: Call)
    requires c.mode == SyncFill && Served(c).failed.None?
    ensures Named(c.file, Served(c).fetched) == GotBy(Reads(c))
  {
    ServeFetches(c.pages, Answers(|c.pages|, c.batch), c.source, SyncFill);
  }
}
