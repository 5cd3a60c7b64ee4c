/** Reading a byte range through the page cache (src/cache/caching_reader.rs). The cache and the
    external source are parameters: `lookup` is the cache's answer to the one batch of requests,
    `source` the external source's answer for a range. */
module PageReader {
  import opened Types
  import opened Arithmetic

  type Bytes = seq<bv8>

  // ----- Splitting a range into pages -----

  function PageIndex(position: nat, pageSize: nat): nat
    requires pageSize > 0
  {
    position / pageSize
  }

  function PageStart(index: nat, pageSize: nat): nat {
    pageSize * index
  }

  function PageEnd(index: nat, pageSize: nat, fileLength: nat): nat {
    Min(PageStart(index + 1, pageSize), fileLength)
  }

  lemma PageAround(position: nat, pageSize: nat)
    requires pageSize > 0
    ensures PageStart(PageIndex(position, pageSize), pageSize) <= position
    ensures position < PageStart(PageIndex(position, pageSize) + 1, pageSize)
  {
    DivAtLeast(position, pageSize, position / pageSize);
    DivAtLeast(position, pageSize, position / pageSize + 1);
  }

  /** One page of the plan: `want` bytes from position `inPage` of page `[start, end)`. */
  datatype Piece = Piece(index: nat, start: nat, end: nat, inPage: nat, want: nat) {
    function From(): nat {
      start + inPage
    }

    function To(): nat {
      start + inPage + want
    }
  }

  /** A piece is not empty, and within its page. */
  type Page = p: Piece | p.From() < p.To() <= p.end witness Piece(0, 0, 1, 0, 1)

  predicate IsPage(p: Page, pageSize: nat, fileLength: nat) {
    && p.start == PageStart(p.index, pageSize)
    && p.end == PageEnd(p.index, pageSize, fileLength)
  }

  /** The pages cover `[offset, end)` from left to right, without gap or overlap, and each page
      occurs once. */
  predicate Tiles(pages: seq<Page>, pageSize: nat, fileLength: nat, offset: nat, end: nat) {
    if pages == [] then offset == end
    else
      var last, init := pages[|pages| - 1], pages[..|pages| - 1];
      && IsPage(last, pageSize, fileLength)
      && last.To() == end
      && (init != [] ==> init[|init| - 1].index < last.index)
      && Tiles(init, pageSize, fileLength, offset, last.From())
  }

  /** The cast of a `u64` product to `i64`. */
  function AsI64(x: nat): int {
    if x % U64_SIZE <= I64_MAX then x % U64_SIZE else x % U64_SIZE - U64_SIZE
  }

  /** The page arithmetic does not leave `i64`: the last page of the range, unclamped, ends within. */
  predicate Fits(pageSize: nat, offset: nat, end: nat)
    requires pageSize > 0
  {
    offset < end ==> PageStart(PageIndex(end - 1, pageSize) + 1, pageSize) <= I64_MAX
  }

  lemma PageFits(pageSize: nat, offset: nat, end: nat, cur: nat)
    requires pageSize > 0 && offset <= cur < end && Fits(pageSize, offset, end)
    ensures var index := PageIndex(cur, pageSize);
      && AsI64(PageStart(index, pageSize)) == PageStart(index, pageSize)
      && AsI64(PageStart(index + 1, pageSize)) == PageStart(index + 1, pageSize)
  {
    DivMonotone(cur, end - 1, pageSize);
    MulMonotone(pageSize, cur / pageSize + 1, (end - 1) / pageSize + 1);
    MulMonotone(pageSize, cur / pageSize, cur / pageSize + 1);
  }

  /** The first loop of `read_through_cache`. */
  method PlanPages(pageSize: nat, fileLength: nat, offset: nat, end: nat) returns (pages: seq<Page>)
    requires pageSize > 0 && offset <= end <= fileLength && Fits(pageSize, offset, end)
    ensures Tiles(pages, pageSize, fileLength, offset, end)
  {
    hide PageStart, PageIndex, AsI64, Fits;
    pages := [];
    var cur := offset;
    while cur < end
      invariant offset <= cur <= end
      invariant Tiles(pages, pageSize, fileLength, offset, cur)
      invariant pages != [] && cur < end ==> cur == PageStart(pages[|pages| - 1].index + 1, pageSize)
    {
      var index := PageIndex(cur, pageSize);
      PageAround(cur, pageSize);
      PageFits(pageSize, offset, end, cur);
      var start := AsI64(PageStart(index, pageSize));
      var pageEnd := Min(AsI64(PageStart(index + 1, pageSize)), fileLength);
      var page := Piece(index, start, pageEnd, cur - start, Min(end, pageEnd) - cur);
      if pages != [] {
        NextPage(pages[|pages| - 1].index, pageSize);
      }
      assert (pages + [page])[..|pages|] == pages;
      pages := pages + [page];
      cur := cur + page.want;
    }
  }

  lemma NextPage(i: nat, pageSize: nat)
    requires pageSize > 0
    ensures i < PageIndex(PageStart(i + 1, pageSize), pageSize)
  {
    DivAtLeast(pageSize * (i + 1), pageSize, i + 1);
  }

  // ----- Serving the pages -----

  datatype FillMode = NoFill | SyncFill | AsyncFill

  datatype ReadError = External(error: Error) | Short(index: nat, got: nat, expected: nat)

  datatype ReadResult = Read(bytes: Bytes) | Failed(error: ReadError)

  /** A page handed to the cache, by `put` or by `schedule_fill`. */
  datatype Fill = Fill(index: nat, page: Bytes)

  datatype Request = Request(index: nat, inPage: nat, want: nat)

  type Source = (nat, nat) -> Result<Bytes>

  /** How far a read has come: the bytes so far, the pages handed to the cache, the pages asked
      from the external source, and the error that ended it. */
  datatype Progress = Progress(bytes: Bytes, fills: seq<Fill>, fetched: seq<nat>, failed: Option<ReadError>)

  function Requests(pages: seq<Page>): (r: seq<Request>)
    ensures |r| == |pages|
    ensures forall i :: 0 <= i < |r| ==> r[i] == Request(pages[i].index, pages[i].inPage, pages[i].want)
  {
    seq(|pages|, i requires 0 <= i < |pages| => Request(pages[i].index, pages[i].inPage, pages[i].want))
  }

  /** An answer to the wrong number of requests counts as a miss of every page. */
  function Answers(n: nat, batch: seq<Bytes>): (r: seq<Bytes>)
    ensures |r| == n
  {
    if |batch| == n then batch else seq(n, _ => [])
  }

  /** Read a whole page from the source. Too few bytes are an error, bytes too many are cut off. */
  function Fetch(p: Page, source: Source): (r: ReadResult)
    ensures r.Read? ==> |r.bytes| == p.end - p.start
  {
    var expected := p.end - p.start;
    match source(p.start, p.end)
    case Err(e) => Failed(External(e))
    case Ok(got) =>
      if |got| < expected then Failed(Short(p.index, |got|, expected))
      else if |got| > expected then Read(got[..expected])
      else Read(got)
  }

  /** Serve one page after another. */
  function Serve(pages: seq<Page>, answers: seq<Bytes>, source: Source, mode: FillMode): Progress
    requires |pages| == |answers|
  {
    if pages == [] then Progress([], [], [], None)
    else
      var n := |pages| - 1;
      ServePage(Serve(pages[..n], answers[..n], source, mode), pages[n], answers[n], source, mode)
  }

  function ServePage(before: Progress, p: Page, answer: Bytes, source: Source, mode: FillMode): Progress
  {
    if before.failed.Some? then before
    else if |answer| == p.want then before.(bytes := before.bytes + answer)
    else
      var asked := before.(fetched := before.fetched + [p.index]);
      match Fetch(p, source)
      case Failed(e) => asked.(failed := Some(e))
      case Read(page) =>
        asked.(bytes := before.bytes + page[p.inPage..p.inPage + p.want],
               fills := before.fills + if mode == NoFill then [] else [Fill(p.index, page)])
  }

  lemma {:induction false} TilesFit(pages: seq<Page>, pageSize: nat, fileLength: nat, offset: nat, end: nat)
    requires Tiles(pages, pageSize, fileLength, offset, end)
    ensures offset <= end
    ensures forall p :: p in pages ==> IsPage(p, pageSize, fileLength) && p.To() <= end
  {
    if pages != [] {
      var last, init := pages[|pages| - 1], pages[..|pages| - 1];
      TilesFit(init, pageSize, fileLength, offset, last.From());
      forall p | p in pages ensures IsPage(p, pageSize, fileLength) && p.To() <= end {
        assert p == last || p in init;
      }
    }
  }

  function Flat(chunks: seq<Bytes>): Bytes {
    if chunks == [] then [] else Flat(chunks[..|chunks| - 1]) + chunks[|chunks| - 1]
  }

  method Join(chunks: seq<Bytes>) returns (r: Bytes)
    ensures r == Flat(chunks)
  {
    r := [];
    for i := 0 to |chunks|
      invariant r == Flat(chunks[..i])
    {
      assert chunks[..i + 1][..i] == chunks[..i];
      r := r + chunks[i];
    }
    assert chunks[..|chunks|] == chunks;
  }

  ghost predicate Returns(r: ReadResult, progress: Progress) {
    match progress.failed
    case None => r == Read(progress.bytes)
    case Some(e) => r == Failed(e)
  }

  /** The second loop of `read_through_cache`. The source's guard against a chunk of zero bytes,
      and the one against an empty page, are asserted never to fire. */
  method ServePages(pages: seq<Page>, answers: seq<Bytes>, source: Source, mode: FillMode)
      returns (r: ReadResult, fills: seq<Fill>, fetched: seq<nat>)
    requires |pages| == |answers|
    ensures var progress := Serve(pages, answers, source, mode);
      Returns(r, progress) && fills == progress.fills && fetched == progress.fetched
  {
    hide Fetch, Serve, Flat;
    ServeNothing(source, mode);
    var chunks: seq<Bytes> := [];
    fills, fetched := [], [];
    for i := 0 to |pages|
      invariant Serve(pages[..i], answers[..i], source, mode) == Progress(Flat(chunks), fills, fetched, None)
    {
      var p := pages[i];
      ServeNext(pages, answers, source, mode, i);
      var chunk := answers[i];
      if |chunk| != p.want {
        fetched := fetched + [p.index];
        var got := Fetch(p, source);
        if got.Failed? {
          StaysFailed(pages, answers, source, mode, i + 1);
          return got, fills, fetched;
        }
        var page := got.bytes;
        assert page != [];
        if mode != NoFill {
          fills := fills + [Fill(p.index, page)];
        }
        chunk := page[Min(p.inPage, |page|)..Min(p.inPage + p.want, |page|)];
        assert chunk != [];
      }
      FlatNext(chunks, chunk);
      chunks := chunks + [chunk];
    }
    assert pages[..|pages|] == pages && answers[..|pages|] == answers;
    var bytes := Join(chunks);
    r := Read(bytes);
  }

  lemma ServeNothing(source: Source, mode: FillMode)
    ensures Serve([], [], source, mode) == Progress(Flat([]), [], [], None)
  {
  }

  lemma ServeNext(pages: seq<Page>, answers: seq<Bytes>, source: Source, mode: FillMode, i: nat)
    requires |pages| == |answers| && i < |pages|
    ensures Serve(pages[..i + 1], answers[..i + 1], source, mode)
         == ServePage(Serve(pages[..i], answers[..i], source, mode), pages[i], answers[i], source, mode)
  {
    hide ServePage;
    assert pages[..i + 1][..i] == pages[..i] && answers[..i + 1][..i] == answers[..i];
  }

  lemma FlatNext(chunks: seq<Bytes>, chunk: Bytes)
    ensures Flat(chunks + [chunk]) == Flat(chunks) + chunk
  {
    assert (chunks + [chunk])[..|chunks|] == chunks;
  }

  /** Nothing is done after a failure. */
  lemma {:induction false} StaysFailed(pages: seq<Page>, answers: seq<Bytes>, source: Source, mode: FillMode, i: nat)
    requires |pages| == |answers| && i <= |pages|
    requires Serve(pages[..i], answers[..i], source, mode).failed.Some?
    ensures Serve(pages, answers, source, mode) == Serve(pages[..i], answers[..i], source, mode)
  {
    hide Fetch;
    if i < |pages| {
      var n := |pages| - 1;
      assert pages[..n][..i] == pages[..i] && answers[..n][..i] == answers[..i];
      StaysFailed(pages[..n], answers[..n], source, mode, i);
    } else {
      assert pages[..i] == pages && answers[..i] == answers;
    }
  }

  /** What a read of `[offset, end)` does: it plans the pages, looks all of them up at once, and
      serves them one after the other. */
  ghost predicate Outcome(lookup: seq<Request> -> seq<Bytes>, source: Source, pageSize: nat, fileLength: nat,
                          offset: nat, end: nat, mode: FillMode, r: ReadResult, fills: seq<Fill>, fetched: seq<nat>)
  {
    exists pages :: Tiles(pages, pageSize, fileLength, offset, end)
      && OutcomeOf(pages, Answers(|pages|, lookup(Requests(pages))), source, mode, r, fills, fetched)
  }

  ghost predicate OutcomeOf(pages: seq<Page>, answers: seq<Bytes>, source: Source, mode: FillMode,
                            r: ReadResult, fills: seq<Fill>, fetched: seq<nat>)
    requires |pages| == |answers|
  {
    var progress := Serve(pages, answers, source, mode);
    Returns(r, progress) && fills == progress.fills && fetched == progress.fetched
  }

  /** `read_through_cache`. */
  method ReadThroughCache(lookup: seq<Request> -> seq<Bytes>, source: Source, pageSize: nat, fileLength: nat,
                          offset: nat, end: nat, mode: FillMode)
      returns (r: ReadResult, fills: seq<Fill>, fetched: seq<nat>)
    requires offset <= end <= fileLength && Fits(Max(pageSize, 1), offset, end)
    ensures Outcome(lookup, source, Max(pageSize, 1), fileLength, offset, end, mode, r, fills, fetched)
  {
    var size := Max(pageSize, 1);
    var pages := PlanPages(size, fileLength, offset, end);
    var cached := lookup(Requests(pages));
    if |cached| != |pages| {
      cached := seq(|pages|, _ => []);
    }
    r, fills, fetched := ServePages(pages, cached, source, mode);
    assert OutcomeOf(pages, cached, source, mode, r, fills, fetched);
    assert cached == Answers(|pages|, lookup(Requests(pages)));
  }

  // ----- What a read returns -----

  /** The cache is right about what it answers: an answer of the wanted length is the wanted bytes. */
  ghost predicate RightAnswers(file: Bytes, pages: seq<Page>, answers: seq<Bytes>) {
    && |answers| == |pages|
    && forall i :: 0 <= i < |pages| && |answers[i]| == pages[i].want ==>
         pages[i].To() <= |file| && answers[i] == file[pages[i].From()..pages[i].To()]
  }

  /** The external source is right about what it answers. It may fail, give too little, or too much. */
  ghost predicate RightSource(file: Bytes, source: Source) {
    forall s, e :: 0 <= s <= e <= |file| && source(s, e).Ok? && |source(s, e).value| >= e - s ==>
      source(s, e).value[..e - s] == file[s..e]
  }

  ghost predicate RightFill(file: Bytes, pageSize: nat, f: Fill) {
    && PageStart(f.index, pageSize) < PageEnd(f.index, pageSize, |file|)
    && f.page == file[PageStart(f.index, pageSize)..PageEnd(f.index, pageSize, |file|)]
  }

  ghost predicate RightFills(file: Bytes, pageSize: nat, fills: seq<Fill>) {
    forall f :: f in fills ==> RightFill(file, pageSize, f)
  }

  /** Serving one page extends the bytes by that page's part of the range. */
  lemma ServePageIsRight(file: Bytes, pageSize: nat, before: Progress, p: Page, answer: Bytes, source: Source,
                         mode: FillMode)
    requires IsPage(p, pageSize, |file|) && RightSource(file, source) && RightFills(file, pageSize, before.fills)
    requires |answer| == p.want ==> answer == file[p.From()..p.To()]
    ensures var r := ServePage(before, p, answer, source, mode);
      && RightFills(file, pageSize, r.fills)
      && (r.failed.None? ==> before.failed.None? && r.bytes == before.bytes + file[p.From()..p.To()])
  {
    hide PageStart, RightSource;
    FetchIsRight(file, pageSize, p, source);
    hide Fetch;
    if Fetch(p, source).Read? {
      SliceOfSlice(file, p.start, p.end, p.inPage, p.want);
    }
  }

  lemma SliceOfSlice(s: Bytes, from: nat, to: nat, i: nat, n: nat)
    requires from <= to <= |s| && i + n <= to - from
    ensures s[from..to][i..i + n] == s[from + i..from + i + n]
  {
    var a, b := s[from..to][i..i + n], s[from + i..from + i + n];
    forall k | 0 <= k < n ensures a[k] == b[k] {
    }
  }

  lemma FetchIsRight(file: Bytes, pageSize: nat, p: Page, source: Source)
    requires IsPage(p, pageSize, |file|) && RightSource(file, source)
    ensures Fetch(p, source).Read? ==> Fetch(p, source).bytes == file[p.start..p.end]
  {
    hide PageStart;
    var got := source(p.start, p.end);
    if got.Ok? && |got.value| == p.end - p.start {
      assert got.value[..p.end - p.start] == got.value;
    }
  }

  /** Whatever the cache and the source answer, short of wrong bytes: what is handed to the cache
      are whole pages of the file, and a read that succeeds returns exactly the range. */
  lemma {:induction false} ServeIsRight(file: Bytes, pageSize: nat, pages: seq<Page>, offset: nat, end: nat,
                                        answers: seq<Bytes>, source: Source, mode: FillMode)
    requires Tiles(pages, pageSize, |file|, offset, end) && offset <= end <= |file|
    requires RightAnswers(file, pages, answers) && RightSource(file, source)
    ensures var r := Serve(pages, answers, source, mode);
      && (r.failed.None? ==> r.bytes == file[offset..end])
      && RightFills(file, pageSize, r.fills)
  {
    hide PageStart, ServePage, RightFills, RightSource;
    if pages == [] {
      NoFills(file, pageSize);
    } else {
      var n := |pages| - 1;
      var p := pages[n];
      TilesFit(pages[..n], pageSize, |file|, offset, p.From());
      ServeIsRight(file, pageSize, pages[..n], offset, p.From(), answers[..n], source, mode);
      var before := Serve(pages[..n], answers[..n], source, mode);
      ServePageIsRight(file, pageSize, before, p, answers[n], source, mode);
      assert file[offset..end] == file[offset..p.From()] + file[p.From()..p.To()];
    }
  }

  /** The same for the whole call, from any cache that is right about the pages of the range. */
  lemma OutcomeIsRight(file: Bytes, lookup: seq<Request> -> seq<Bytes>, source: Source, pageSize: nat,
                       offset: nat, end: nat, mode: FillMode, r: ReadResult, fills: seq<Fill>, fetched: seq<nat>)
    requires offset <= end <= |file| && RightSource(file, source)
    requires Outcome(lookup, source, pageSize, |file|, offset, end, mode, r, fills, fetched)
    requires forall pages :: Tiles(pages, pageSize, |file|, offset, end) ==>
      RightAnswers(file, pages, Answers(|pages|, lookup(Requests(pages))))
    ensures r.Read? ==> r.bytes == file[offset..end]
    ensures RightFills(file, pageSize, fills)
  {
    hide Tiles, Serve, RightAnswers, RightSource, RightFills;
    var pages :| Tiles(pages, pageSize, |file|, offset, end)
      && OutcomeOf(pages, Answers(|pages|, lookup(Requests(pages))), source, mode, r, fills, fetched);
    ServeIsRight(file, pageSize, pages, offset, end, Answers(|pages|, lookup(Requests(pages))), source, mode);
  }

  lemma NoFills(file: Bytes, pageSize: nat)
    ensures RightFills(file, pageSize, [])
  {
  }

  /** The source gives at least what it is asked for. */
  predicate Gives(source: Source, p: Page) {
    source(p.start, p.end).Ok? && |source(p.start, p.end).value| >= p.end - p.start
  }

  /** No answer of the cache makes a read fail: it fails exactly if the source does not give a
      page that the cache did not answer. */
  lemma {:induction false} FailsOnlyBySource(pages: seq<Page>, answers: seq<Bytes>, source: Source, mode: FillMode)
    requires |pages| == |answers|
    ensures Serve(pages, answers, source, mode).failed.None?
       <==> forall i :: 0 <= i < |pages| ==> |answers[i]| == pages[i].want || Gives(source, pages[i])
  {
    if pages != [] {
      var n := |pages| - 1;
      FailsOnlyBySource(pages[..n], answers[..n], source, mode);
      FailsHere(Serve(pages[..n], answers[..n], source, mode), pages[n], answers[n], source, mode);
      hide ServePage, Gives;
      if forall i :: 0 <= i < n ==> |answers[..n][i]| == pages[..n][i].want || Gives(source, pages[..n][i]) {
        forall i | 0 <= i < n ensures |answers[i]| == pages[i].want || Gives(source, pages[i]) {
          assert |answers[..n][i]| == pages[..n][i].want || Gives(source, pages[..n][i]);
        }
      } else {
        var i :| 0 <= i < n && !(|answers[..n][i]| == pages[..n][i].want || Gives(source, pages[..n][i]));
        assert !(|answers[i]| == pages[i].want || Gives(source, pages[i]));
      }
    }
  }

  lemma FailsHere(before: Progress, p: Page, answer: Bytes, source: Source, mode: FillMode)
    ensures ServePage(before, p, answer, source, mode).failed.None?
       <==> before.failed.None? && (|answer| == p.want || Gives(source, p))
  {
  }

  // ----- What a read costs -----

  function Indices(fills: seq<Fill>): (r: seq<nat>)
    ensures |r| == |fills|
    ensures forall i :: 0 <= i < |r| ==> r[i] == fills[i].index
  {
    seq(|fills|, i requires 0 <= i < |fills| => fills[i].index)
  }

  /** The pages that the cache did not answer. */
  function Missed(pages: seq<Page>, answers: seq<Bytes>): seq<nat>
    requires |pages| == |answers|
  {
    if pages == [] then []
    else
      var n := |pages| - 1;
      Missed(pages[..n], answers[..n]) + if |answers[n]| == pages[n].want then [] else [pages[n].index]
  }

  /** A filling read fetches exactly the pages that the cache did not answer, in order, up to a
      failure; and it hands every fetched page to the cache, except the one that failed. */
  lemma {:induction false} ServeFetches(pages: seq<Page>, answers: seq<Bytes>, source: Source, mode: FillMode)
    requires |pages| == |answers| && mode != NoFill
    ensures var r := Serve(pages, answers, source, mode);
      && r.fetched <= Missed(pages, answers)
      && (r.failed.None? ==> r.fetched == Missed(pages, answers) == Indices(r.fills))
      && (r.failed.Some? ==> r.fetched != [] && Indices(r.fills) == r.fetched[..|r.fetched| - 1])
  {
    hide Fetch;
    if pages != [] {
      var n := |pages| - 1;
      ServeFetches(pages[..n], answers[..n], source, mode);
      var before := Serve(pages[..n], answers[..n], source, mode);
      if before.failed.None? {
        ServePageFetches(before, pages[n], answers[n], source, mode);
        hide ServePage, Indices;
      }
    }
  }

  lemma ServePageFetches(before: Progress, p: Page, answer: Bytes, source: Source, mode: FillMode)
    requires mode != NoFill && before.failed.None? && before.fetched == Indices(before.fills)
    ensures var r := ServePage(before, p, answer, source, mode);
      && r.fetched == before.fetched + (if |answer| == p.want then [] else [p.index])
      && (if r.failed.None? then Indices(r.fills) == r.fetched
          else r.fetched != [] && Indices(r.fills) == r.fetched[..|r.fetched| - 1])
  {
    hide Fetch;
  }

  predicate Increasing(s: seq<nat>) {
    forall i, j :: 0 <= i < j < |s| ==> s[i] < s[j]
  }

  /** Each page is missed once at most. */
  lemma {:induction false} MissedOnce(pages: seq<Page>, answers: seq<Bytes>, pageSize: nat, fileLength: nat,
                                      offset: nat, end: nat)
    requires |pages| == |answers| && Tiles(pages, pageSize, fileLength, offset, end)
    ensures Increasing(Missed(pages, answers))
    ensures pages != [] ==> forall x :: x in Missed(pages, answers) ==> x <= pages[|pages| - 1].index
  {
    hide PageStart, PageEnd;
    if pages != [] {
      var n := |pages| - 1;
      MissedOnce(pages[..n], answers[..n], pageSize, fileLength, offset, pages[n].From());
      var before, index := Missed(pages[..n], answers[..n]), pages[n].index;
      assert n > 0 ==> pages[..n][n - 1].index < index;
      assert n == 0 ==> before == [];
      assert Missed(pages, answers) == before + if |answers[n]| == pages[n].want then [] else [index];
      hide Tiles, Missed;
      StillIncreasing(before, index);
      assert before + [] == before;
    }
  }

  lemma StillIncreasing(s: seq<nat>, x: nat)
    requires Increasing(s) && forall y :: y in s ==> y < x
    ensures Increasing(s + [x])
  {
    forall i, j | 0 <= i < j < |s + [x]| ensures (s + [x])[i] < (s + [x])[j] {
      assert (s + [x])[i] == s[i] && s[i] in s;
    }
  }

  lemma {:induction false} MissedMember(pages: seq<Page>, answers: seq<Bytes>, x: nat)
    requires |pages| == |answers| && x in Missed(pages, answers)
    ensures exists i :: 0 <= i < |pages| && pages[i].index == x && |answers[i]| != pages[i].want
  {
    var n := |pages| - 1;
    if x in Missed(pages[..n], answers[..n]) {
      MissedMember(pages[..n], answers[..n], x);
      var i :| 0 <= i < n && pages[..n][i].index == x && |answers[..n][i]| != pages[..n][i].want;
      assert pages[i].index == x && |answers[i]| != pages[i].want;
    } else {
      assert pages[n].index == x;
    }
  }

  // ----- Fill modes, page bounds and errors -----

  /** The fill mode decides whether pages are handed to the cache, and nothing else: without filling
      there are none, and with filling it does not matter how. */
  lemma {:induction false} FillModes(pages: seq<Page>, answers: seq<Bytes>, source: Source, mode: FillMode)
    requires |pages| == |answers|
    ensures var r := Serve(pages, answers, source, mode);
      && (mode == NoFill ==> r.fills == [])
      && (mode != NoFill ==> r == Serve(pages, answers, source, SyncFill))
      && r == Serve(pages, answers, source, NoFill).(fills := r.fills)
  {
    hide Fetch;
    if pages != [] {
      var n := |pages| - 1;
      FillModes(pages[..n], answers[..n], source, mode);
    }
  }

  /** Page `i` is `[i * pageSize, (i + 1) * pageSize)`, cut off at the end of the file. */
  lemma PageBounds(p: Page, pageSize: nat, fileLength: nat)
    requires IsPage(p, pageSize, fileLength)
    ensures p.start == p.index * pageSize && p.end == Min((p.index + 1) * pageSize, fileLength)
  {
  }

  lemma FillBounds(file: Bytes, pageSize: nat, f: Fill)
    requires RightFill(file, pageSize, f)
    ensures f.index * pageSize < |file|
    ensures f.page == file[f.index * pageSize..Min((f.index + 1) * pageSize, |file|)]
  {
  }

  /** A read that fails says why: the source's error, or how much was missing, for the first page that
      the cache did not answer and the source did not give. */
  lemma {:induction false} FailsWith(pages: seq<Page>, answers: seq<Bytes>, source: Source, mode: FillMode)
    requires |pages| == |answers| && Serve(pages, answers, source, mode).failed.Some?
    ensures exists i: nat :: FailsAt(pages, answers, source, i, Serve(pages, answers, source, mode).failed.value)
    decreases |pages|
  {
    var n := |pages| - 1;
    var before := Serve(pages[..n], answers[..n], source, mode);
    FailsHere(before, pages[n], answers[n], source, mode);
    ErrorHere(before, pages[n], answers[n], source, mode);
    hide ServePage, Gives;
    if before.failed.Some? {
      FailsWith(pages[..n], answers[..n], source, mode);
      var i: nat :| FailsAt(pages[..n], answers[..n], source, i, before.failed.value);
      FirstFailureStays(pages, answers, source, i, n);
      assert pages[..n][i] == pages[i];
      assert FailsAt(pages, answers, source, i, before.failed.value);
    } else {
      FailsOnlyBySource(pages[..n], answers[..n], source, mode);
      forall j | 0 <= j < n ensures |answers[j]| == pages[j].want || Gives(source, pages[j]) {
        assert |answers[..n][j]| == pages[..n][j].want || Gives(source, pages[..n][j]);
      }
      assert FailsAt(pages, answers, source, n, ErrorAt(pages[n], source));
    }
  }

  /** Page `i` is the first one that neither the cache nor the source gives. */
  ghost predicate FirstFailure(pages: seq<Page>, answers: seq<Bytes>, source: Source, i: nat)
    requires |pages| == |answers| && i < |pages|
  {
    && |answers[i]| != pages[i].want && !Gives(source, pages[i])
    && forall j :: 0 <= j < i ==> |answers[j]| == pages[j].want || Gives(source, pages[j])
  }

  lemma ErrorHere(before: Progress, p: Page, answer: Bytes, source: Source, mode: FillMode)
    ensures before.failed.Some? ==> ServePage(before, p, answer, source, mode) == before
    ensures before.failed.None? && |answer| != p.want && !Gives(source, p) ==>
      ServePage(before, p, answer, source, mode).failed == Some(ErrorAt(p, source))
  {
  }

  ghost predicate FailsAt(pages: seq<Page>, answers: seq<Bytes>, source: Source, i: nat, e: ReadError)
    requires |pages| == |answers|
  {
    i < |pages| && FirstFailure(pages, answers, source, i) && e == ErrorAt(pages[i], source)
  }

  lemma FirstFailureStays(pages: seq<Page>, answers: seq<Bytes>, source: Source, i: nat, n: nat)
    requires |pages| == |answers| && i < n <= |pages| && FirstFailure(pages[..n], answers[..n], source, i)
    ensures FirstFailure(pages, answers, source, i)
  {
    hide Gives;
    forall j | 0 <= j < i ensures |answers[j]| == pages[j].want || Gives(source, pages[j]) {
      assert |answers[..n][j]| == pages[..n][j].want || Gives(source, pages[..n][j]);
    }
  }

  function ErrorAt(p: Page, source: Source): ReadError
    requires !Gives(source, p)
  {
    match source(p.start, p.end)
    case Err(e) => External(e)
    case Ok(got) => Short(p.index, |got|, p.end - p.start)
  }
}
