/** The cached build against the pass-through build (src/metadata_cache.rs:398-504 and
    src/metadata_cache_disabled.rs:98-122): one caller at a time, the same calls, the same
    master. When do both give the same replies, and exactly when do they not? */
module Transparency {
  import opened Types
  import opened Paths
  import opened CacheSpec
  import opened ThroughCache

  /** What the master would answer to `get_status` and `list_status`, by normalized path. */
  datatype View = View(status: map<Key, Result<FileInfo>>, listing: map<Key, Result<seq<FileInfo>>>)

  function StatusIn(v: View, k: Key): Result<FileInfo> {
    if k in v.status then v.status[k] else Err(NotFound(k))
  }

  function ListingIn(v: View, k: Key): Result<seq<FileInfo>> {
    if k in v.listing then v.listing[k] else Err(NotFound(k))
  }

  /** What happens, one after the other. A call that has to ask the master takes `took`. A
      mutation leaves the view `after` and, if the master answered `ok`, drops `keys`; an
      outside change is one with no keys to drop. */
  datatype Op =
    | Wait(d: nat)
    | Get(k: Key, sync: int, took: nat)
    | List(k: Key, skip: bool, took: nat)
    | Mutate(keys: seq<Key>, ok: bool, after: View)

  /** `mkdir`, `delete`, and a writer's create, close and cancel. */
  function MutatePath(path: string, ok: bool, after: View): Op {
    Mutate(InvalidationKeys(path), ok, after)
  }

  function RenamePath(src: string, dst: string, ok: bool, after: View): Op {
    Mutate(InvalidationKeys(src) + InvalidationKeys(dst), ok, after)
  }

  function OutsideChange(after: View): Op {
    Mutate([], true, after)
  }

  datatype Reply = Done | StatusReply(status: Result<FileInfo>) | ListReply(listing: Result<seq<FileInfo>>)

  // ----- The two builds -----

  datatype World = World(now: nat, view: View)

  function NextWorld(w: World, op: Op): World {
    match op
    case Wait(d) => w.(now := w.now + d)
    case Get(_, _, took) => w.(now := w.now + took)
    case List(_, _, took) => w.(now := w.now + took)
    case Mutate(_, _, after) => w.(view := after)
  }

  /** The pass-through build: every call is the master's answer. */
  function PlainReply(w: World, op: Op): Reply {
    match op
    case Wait(_) => Done
    case Get(k, _, _) => StatusReply(StatusIn(w.view, k))
    case List(k, _, _) => ListReply(ListingIn(w.view, k))
    case Mutate(_, _, _) => Done
  }

  /** The cached build: the reply and the cache afterwards. */
  function CachedReply(c: Cache, w: World, op: Op): (Reply, Cache) {
    match op
    case Wait(_) => (Done, c)
    case Get(k, sync, took) =>
      var r := GetStatus(c, k, k, sync, w.now, StatusIn(w.view, k), w.now + took);
      (StatusReply(r.0), r.1)
    case List(k, skip, took) =>
      var r := ListStatus(c, k, skip, w.now, ListingIn(w.view, k), w.now + took);
      (ListReply(r.0), r.1)
    case Mutate(keys, ok, _) => (Done, if ok then InvalidateAll(c, keys) else c)
  }

  function RunPlain(w: World, ops: seq<Op>): (r: seq<Reply>)
    ensures |r| == |ops|
    decreases |ops|
  {
    if ops == [] then [] else [PlainReply(w, ops[0])] + RunPlain(NextWorld(w, ops[0]), ops[1..])
  }

  function RunCached(c: Cache, w: World, ops: seq<Op>): (r: seq<Reply>)
    ensures |r| == |ops|
    decreases |ops|
  {
    if ops == [] then []
    else
      var step := CachedReply(c, w, ops[0]);
      [step.0] + RunCached(step.1, NextWorld(w, ops[0]), ops[1..])
  }

  /** Equal, up to the path that a not-found error mentions. */
  predicate SameResult<T(==)>(a: Result<T>, b: Result<T>) {
    a == b || (a.Err? && b.Err? && a.error.IsNotFound() && b.error.IsNotFound())
  }

  predicate SameStatus(a: Reply, b: Reply) {
    a.StatusReply? && b.StatusReply? ==> SameResult(a.status, b.status)
  }

  predicate SameListing(a: Reply, b: Reply) {
    a.ListReply? && b.ListReply? ==> SameResult(a.listing, b.listing)
  }

  // ----- Changes that the cache cannot notice, and needs not -----

  /** A status result that the cache would serve again. */
  predicate ServableResult(r: Result<FileInfo>) {
    SlotOf(r).Some? && Servable(SlotOf(r).value)
  }

  /** Outside `keys`, the change from `v` to `v'` touches no status that could be served. */
  ghost predicate StatusContained(v: View, v': View, keys: seq<Key>) {
    forall k :: k !in keys && ServableResult(StatusIn(v, k)) ==> SameResult(StatusIn(v, k), StatusIn(v', k))
  }

  ghost predicate ListingContained(v: View, v': View, keys: seq<Key>) {
    forall k :: k !in keys && ListingIn(v, k).Ok? ==> ListingIn(v, k) == ListingIn(v', k)
  }

  /** The keys that the cached build drops for a mutation. A failed one drops nothing. */
  function DroppedKeys(op: Op): seq<Key>
    requires op.Mutate?
  {
    if op.ok then op.keys else []
  }

  ghost predicate StatusHarmless(v: View, op: Op) {
    op.Mutate? ==> StatusContained(v, op.after, DroppedKeys(op))
  }

  ghost predicate ListingHarmless(v: View, op: Op) {
    op.Mutate? ==> ListingContained(v, op.after, DroppedKeys(op))
  }

  ghost predicate AllStatusHarmless(w: World, ops: seq<Op>)
    decreases |ops|
  {
    ops == [] || (StatusHarmless(w.view, ops[0]) && AllStatusHarmless(NextWorld(w, ops[0]), ops[1..]))
  }

  ghost predicate AllListingHarmless(w: World, ops: seq<Op>)
    decreases |ops|
  {
    ops == [] || (ListingHarmless(w.view, ops[0]) && AllListingHarmless(NextWorld(w, ops[0]), ops[1..]))
  }

  // ----- Coherence of a cache with the master -----

  /** What a cached slot claims about the master. An incomplete status claims nothing. */
  predicate Claims(slot: Slot, r: Result<FileInfo>) {
    Servable(slot) ==> match slot
      case Present(info) => r == Ok(info)
      case Absent => r.Err? && r.error.IsNotFound()
  }

  ghost predicate StatusCoherent(c: Cache, v: View) {
    forall k :: StatusAt(c, k).Some? ==> Claims(StatusAt(c, k).value, StatusIn(v, k))
  }

  ghost predicate ListingCoherent(c: Cache, v: View) {
    forall k :: ListingAt(c, k).Some? ==> ListingIn(v, k) == Ok(ListingAt(c, k).value)
  }

  lemma GetIsCoherent(c: Cache, v: View, k: Key, sync: int, now: nat, stamp: nat)
    requires Valid(c)
    ensures var r := GetStatus(c, k, k, sync, now, StatusIn(v, k), stamp);
      && Valid(r.1)
      && (StatusCoherent(c, v) ==> SameResult(r.0, StatusIn(v, k)) && StatusCoherent(r.1, v))
      && (ListingCoherent(c, v) ==> ListingCoherent(r.1, v))
  {
    GetStatusKeeps(c, k, k, sync, now, StatusIn(v, k), stamp);
    assert StatusCoherent(c, v) && StatusAt(c, k).Some? ==> Claims(StatusAt(c, k).value, StatusIn(v, k));
  }

  lemma ListIsCoherent(c: Cache, v: View, k: Key, skip: bool, now: nat, stamp: nat)
    requires Valid(c)
    ensures var r := ListStatus(c, k, skip, now, ListingIn(v, k), stamp);
      && Valid(r.1)
      && (ListingCoherent(c, v) ==> SameResult(r.0, ListingIn(v, k)) && ListingCoherent(r.1, v))
      && (StatusCoherent(c, v) ==> StatusCoherent(r.1, v))
  {
    ListStatusKeeps(c, k, skip, now, ListingIn(v, k), stamp);
    assert ListingCoherent(c, v) && ListingAt(c, k).Some? ==> ListingIn(v, k) == Ok(ListingAt(c, k).value);
  }

  lemma DropsKeepStatuses(c: Cache, v: View, v': View, keys: seq<Key>)
    requires Valid(c) && StatusCoherent(c, v) && StatusContained(v, v', keys)
    ensures StatusCoherent(InvalidateAll(c, keys), v')
  {
    InvalidateAllKeeps(c, keys);
    var c' := InvalidateAll(c, keys);
    forall k | StatusAt(c', k).Some? ensures Claims(StatusAt(c', k).value, StatusIn(v', k)) {
      assert StatusAt(c', k) == StatusAt(c, k) && k !in keys;
      if Servable(StatusAt(c', k).value) {
        assert ServableResult(StatusIn(v, k));
      }
    }
  }

  lemma DropsKeepListings(c: Cache, v: View, v': View, keys: seq<Key>)
    requires Valid(c) && ListingCoherent(c, v) && ListingContained(v, v', keys)
    ensures ListingCoherent(InvalidateAll(c, keys), v')
  {
    InvalidateAllKeeps(c, keys);
  }

  /** One operation of a run, as the two theorems need it. */
  ghost predicate StepTransparent(c: Cache, w: World, op: Op, reply: Reply, c': Cache) {
    && Valid(c')
    && (StatusCoherent(c, w.view) && StatusHarmless(w.view, op) ==>
          SameStatus(reply, PlainReply(w, op)) && StatusCoherent(c', NextWorld(w, op).view))
    && (ListingCoherent(c, w.view) && ListingHarmless(w.view, op) ==>
          SameListing(reply, PlainReply(w, op)) && ListingCoherent(c', NextWorld(w, op).view))
  }

  lemma MutateStep(c: Cache, w: World, op: Op)
    requires Valid(c) && op.Mutate?
    ensures StepTransparent(c, w, op, Done, InvalidateAll(c, DroppedKeys(op)))
  {
    InvalidateAllKeeps(c, DroppedKeys(op));
    if StatusCoherent(c, w.view) && StatusHarmless(w.view, op) {
      DropsKeepStatuses(c, w.view, op.after, DroppedKeys(op));
    }
    if ListingCoherent(c, w.view) && ListingHarmless(w.view, op) {
      DropsKeepListings(c, w.view, op.after, DroppedKeys(op));
    }
  }

  lemma Step(c: Cache, w: World, op: Op)
    requires Valid(c)
    ensures StepTransparent(c, w, op, CachedReply(c, w, op).0, CachedReply(c, w, op).1)
  {
    hide GetStatus, ListStatus, InvalidateAll;
    match op
    case Wait(_) =>
    case Get(k, sync, took) => GetIsCoherent(c, w.view, k, sync, w.now, w.now + took);
    case List(k, skip, took) => ListIsCoherent(c, w.view, k, skip, w.now, w.now + took);
    case Mutate(_, _, _) => MutateStep(c, w, op);
  }

  // ----- The theorems -----

  /** The cache is transparent for statuses: in every sequential run whose changes are
      contained, all status replies are those of the pass-through build, whatever happens to
      incomplete files and to listings, by whomever. */
  lemma {:induction false} StatusTransparent(c: Cache, w: World, ops: seq<Op>)
    requires Valid(c) && StatusCoherent(c, w.view) && AllStatusHarmless(w, ops)
    ensures forall i :: 0 <= i < |ops| ==> SameStatus(RunCached(c, w, ops)[i], RunPlain(w, ops)[i])
    decreases |ops|
  {
    if ops != [] {
      Step(c, w, ops[0]);
      StatusTransparent(CachedReply(c, w, ops[0]).1, NextWorld(w, ops[0]), ops[1..]);
    }
  }

  /** The same for listings. */
  lemma {:induction false} ListingTransparent(c: Cache, w: World, ops: seq<Op>)
    requires Valid(c) && ListingCoherent(c, w.view) && AllListingHarmless(w, ops)
    ensures forall i :: 0 <= i < |ops| ==> SameListing(RunCached(c, w, ops)[i], RunPlain(w, ops)[i])
    decreases |ops|
  {
    if ops != [] {
      Step(c, w, ops[0]);
      ListingTransparent(CachedReply(c, w, ops[0]).1, NextWorld(w, ops[0]), ops[1..]);
    }
  }

  // ----- Calls that insist on the master -----

  /** The cache after a run. */
  function CacheAfter(c: Cache, w: World, ops: seq<Op>): Cache
    decreases |ops|
  {
    if ops == [] then c else CacheAfter(CachedReply(c, w, ops[0]).1, NextWorld(w, ops[0]), ops[1..])
  }

  /** In every run, from every cache, whatever has been changed by whomever: a `get_status` with
      `sync_interval_ms == 0` gets exactly the master's answer, and leaves it in the cache, unless it
      is an error other than not-found. A `list_status` that skips the cache gets exactly the master's
      answer. */
  lemma {:induction false} ForcedCallsArePlain(c: Cache, w: World, ops: seq<Op>, i: nat)
    requires Valid(c) && i < |ops|
    ensures ops[i].Get? && ops[i].sync == 0 ==>
      && RunCached(c, w, ops)[i] == RunPlain(w, ops)[i]
      && RunPlain(w, ops)[i].StatusReply?
      && var r := RunPlain(w, ops)[i].status;
      && (r.Ok? ==> StatusAt(CacheAfter(c, w, ops[..i + 1]), ops[i].k) == Some(Present(r.value)))
      && (r.Err? && r.error.NotFound? ==> StatusAt(CacheAfter(c, w, ops[..i + 1]), ops[i].k) == Some(Absent))
    ensures ops[i].List? && ops[i].skip ==> RunCached(c, w, ops)[i] == RunPlain(w, ops)[i]
    decreases |ops|
  {
    Step(c, w, ops[0]);
    assert Valid(CachedReply(c, w, ops[0]).1);
    hide StepTransparent, CachedReply, NextWorld, Valid;
    if i == 0 {
      assert ops[..1][0] == ops[0] && ops[..1][1..] == [];
      ForcedCallIsPlain(c, w, ops[0]);
    } else {
      hide PlainReply;
      ForcedCallsArePlain(CachedReply(c, w, ops[0]).1, NextWorld(w, ops[0]), ops[1..], i - 1);
      assert ops[..i + 1][0] == ops[0] && ops[..i + 1][1..] == ops[1..][..i];
    }
  }

  lemma ForcedCallIsPlain(c: Cache, w: World, op: Op)
    requires Valid(c)
    ensures op.Get? && op.sync == 0 ==>
      && CachedReply(c, w, op).0 == PlainReply(w, op)
      && var r := StatusIn(w.view, op.k);
      && (r.Ok? ==> StatusAt(CachedReply(c, w, op).1, op.k) == Some(Present(r.value)))
      && (r.Err? && r.error.NotFound? ==> StatusAt(CachedReply(c, w, op).1, op.k) == Some(Absent))
    ensures op.List? && op.skip ==> CachedReply(c, w, op).0 == PlainReply(w, op)
  {
    hide GetStatus, ListStatus, Valid, StatusIn, ListingIn;
    match op
    case Get(k, sync, took) =>
      GetStatusExactly(c, k, k, sync, w.now, StatusIn(w.view, k), w.now + took);
    case List(k, skip, took) =>
      ListStatusExactly(c, k, skip, w.now, ListingIn(w.view, k), w.now + took);
    case _ =>
  }

  // ----- Mutations that touch a path and its parent -----

  /** `q` is the key of the path, or of its parent. */
  predicate Near(path: string, q: Key) {
    q == NormalizePath(path) || (ParentPath(path).Some? && q == NormalizePath(ParentPath(path).value))
  }

  predicate SameAt(v: View, v': View, q: Key) {
    StatusIn(v, q) == StatusIn(v', q) && ListingIn(v, q) == ListingIn(v', q)
  }

  /** A mutation of one path that changes the master at the path and its parent at most; if it
      failed, nowhere. */
  ghost predicate Local(v: View, op: Op, path: string) {
    && op.Mutate? && op == MutatePath(path, op.ok, op.after)
    && forall q :: !(op.ok && Near(path, q)) ==> SameAt(v, op.after, q)
  }

  /** The same for a rename, with two paths and two parents. */
  ghost predicate LocalRename(v: View, op: Op, src: string, dst: string) {
    && op.Mutate? && op == RenamePath(src, dst, op.ok, op.after)
    && forall q :: !(op.ok && (Near(src, q) || Near(dst, q))) ==> SameAt(v, op.after, q)
  }

  lemma LocalIsHarmless(v: View, op: Op, path: string)
    requires Local(v, op, path)
    ensures StatusHarmless(v, op) && ListingHarmless(v, op)
  {
    hide NormalizePath, ParentPath, InvalidationKeys, StatusIn, ListingIn;
    forall q | q !in DroppedKeys(op) ensures SameAt(v, op.after, q) {
      InvalidationKeysExactly(path, q);
    }
  }

  lemma LocalRenameIsHarmless(v: View, op: Op, src: string, dst: string)
    requires LocalRename(v, op, src, dst)
    ensures StatusHarmless(v, op) && ListingHarmless(v, op)
  {
    hide NormalizePath, ParentPath, InvalidationKeys, StatusIn, ListingIn;
    forall q | q !in DroppedKeys(op) ensures SameAt(v, op.after, q) {
      InvalidationKeysExactly(src, q);
      InvalidationKeysExactly(dst, q);
    }
  }

  ghost predicate LocalOp(v: View, op: Op) {
    op.Mutate? ==> (exists path :: Local(v, op, path)) || exists src, dst :: LocalRename(v, op, src, dst)
  }

  ghost predicate AllLocal(w: World, ops: seq<Op>)
    decreases |ops|
  {
    ops == [] || (LocalOp(w.view, ops[0]) && AllLocal(NextWorld(w, ops[0]), ops[1..]))
  }

  lemma {:induction false} AllLocalIsHarmless(w: World, ops: seq<Op>)
    requires AllLocal(w, ops)
    ensures AllStatusHarmless(w, ops) && AllListingHarmless(w, ops)
    decreases |ops|
  {
    if ops != [] {
      AllLocalIsHarmless(NextWorld(w, ops[0]), ops[1..]);
      var op := ops[0];
      hide Local, LocalRename, StatusHarmless, ListingHarmless, NextWorld;
      if op.Mutate? {
        if path :| Local(w.view, op, path) {
          LocalIsHarmless(w.view, op, path);
        } else {
          var src, dst :| LocalRename(w.view, op, src, dst);
          LocalRenameIsHarmless(w.view, op, src, dst);
        }
      } else {
        HarmlessCall(w.view, op);
      }
    }
  }

  lemma HarmlessCall(v: View, op: Op)
    requires !op.Mutate?
    ensures StatusHarmless(v, op) && ListingHarmless(v, op)
  {
  }

  /** The same reply, up to the path that a not-found error mentions. */
  predicate SameReply(a: Reply, b: Reply) {
    match a
    case Done => b.Done?
    case StatusReply(r) => b.StatusReply? && SameResult(r, b.status)
    case ListReply(r) => b.ListReply? && SameResult(r, b.listing)
  }

  lemma {:induction false} SameKinds(c: Cache, w: World, ops: seq<Op>, i: nat)
    requires i < |ops|
    ensures var a, b := RunCached(c, w, ops)[i], RunPlain(w, ops)[i];
      (a.Done? <==> b.Done?) && (a.StatusReply? <==> b.StatusReply?)
    decreases |ops|
  {
    if i > 0 {
      SameKinds(CachedReply(c, w, ops[0]).1, NextWorld(w, ops[0]), ops[1..], i - 1);
    }
  }

  /** The cache is transparent for all runs whose mutations, by the client, touch only a path and its
      parent, or both paths and both parents of a rename: every reply is that of the build without
      cache. */
  lemma LocalRunsAreTransparent(ttl: nat, capacity: nat, w: World, ops: seq<Op>, i: nat)
    requires 0 < ttl && AllLocal(w, ops) && i < |ops|
    ensures SameReply(RunCached(Empty(ttl, capacity), w, ops)[i], RunPlain(w, ops)[i])
  {
    hide AllLocal, AllStatusHarmless, AllListingHarmless, RunCached, RunPlain;
    SameKinds(Empty(ttl, capacity), w, ops, i);
    AllLocalIsHarmless(w, ops);
    StatusTransparent(Empty(ttl, capacity), w, ops);
    ListingTransparent(Empty(ttl, capacity), w, ops);
  }

  // ----- The condition is exact -----

  /** The third reply of a run of three. */
  lemma ThirdReply(c: Cache, w: World, a: Op, b: Op, d: Op)
    ensures
      var c1, w1 := CachedReply(c, w, a).1, NextWorld(w, a);
      var c2, w2 := CachedReply(c1, w1, b).1, NextWorld(w1, b);
      && RunCached(c, w, [a, b, d])[2] == CachedReply(c2, w2, d).0
      && RunPlain(w, [a, b, d])[2] == PlainReply(w2, d)
  {
    hide CachedReply, PlainReply, NextWorld;
    var c1, w1 := CachedReply(c, w, a).1, NextWorld(w, a);
    var c2, w2 := CachedReply(c1, w1, b).1, NextWorld(w1, b);
    assert [a, b, d][1..] == [b, d] && [b, d][1..] == [d] && [d][1..] == [];
    assert RunCached(c2, w2, [d])[0] == CachedReply(c2, w2, d).0;
    assert RunCached(c1, w1, [b, d])[1] == RunCached(c2, w2, [d])[0];
    assert RunPlain(w2, [d])[0] == PlainReply(w2, d);
    assert RunPlain(w1, [b, d])[1] == RunPlain(w2, [d])[0];
  }

  /** A call that is answered by the master leaves the answer in an empty cache. */
  lemma FirstCall(ttl: nat, capacity: nat, v: View, k: Key)
    requires 0 < ttl
    ensures ServableResult(StatusIn(v, k)) ==>
      var c := CachedReply(Empty(ttl, capacity), World(0, v), Get(k, -1, 0)).1;
      Valid(c) && Fresh(c, k, 0) && StatusAt(c, k) == SlotOf(StatusIn(v, k))
    ensures ListingIn(v, k).Ok? ==>
      var c := CachedReply(Empty(ttl, capacity), World(0, v), List(k, false, 0)).1;
      Valid(c) && Fresh(c, k, 0) && ListingAt(c, k) == Some(ListingIn(v, k).value)
  {
    var c := Empty(ttl, capacity);
    LookupKeeps(c, k, 0);
    if ServableResult(StatusIn(v, k)) {
      PutItemKeeps(LookupStatus(c, k, 0).1, k, Item(SlotOf(StatusIn(v, k)), None, 0));
    }
    if ListingIn(v, k).Ok? {
      PutItemKeeps(LookupListing(c, k, 0).1, k, Item(None, Some(ListingIn(v, k).value), 0));
    }
  }

  /** A mutation that does not drop `k` leaves its item as it is. */
  lemma KeptByMutation(c: Cache, w: World, op: Op, k: Key)
    requires Valid(c) && op.Mutate? && k in c.items && k !in DroppedKeys(op)
    ensures var c' := CachedReply(c, w, op).1;
      Valid(c') && c'.ttl == c.ttl && k in c'.items && c'.items[k] == c.items[k]
  {
    InvalidateAllKeeps(c, DroppedKeys(op));
    TtlKept(c, DroppedKeys(op));
  }

  lemma {:induction false} TtlKept(c: Cache, keys: seq<Key>)
    ensures InvalidateAll(c, keys).ttl == c.ttl
    decreases |keys|
  {
    if keys != [] {
      TtlKept(Invalidate(c, keys[0]), keys[1..]);
    }
  }

  /** A change that is not contained is noticed: ask for the status it touched, let the change
      happen, ask again. The cached build repeats the old reply. */
  lemma UncontainedStatusShows(ttl: nat, capacity: nat, v: View, op: Op, k: Key)
    requires 0 < ttl && op.Mutate?
    requires k !in DroppedKeys(op) && ServableResult(StatusIn(v, k))
    requires !SameResult(StatusIn(v, k), StatusIn(op.after, k))
    ensures var c, w, ops := Empty(ttl, capacity), World(0, v), [Get(k, -1, 0), op, Get(k, -1, 0)];
      !SameStatus(RunCached(c, w, ops)[2], RunPlain(w, ops)[2])
  {
    var c, w, get := Empty(ttl, capacity), World(0, v), Get(k, -1, 0);
    ThirdReply(c, w, get, op, get);
    FirstCall(ttl, capacity, v, k);
    var c1 := CachedReply(c, w, get).1;
    KeptByMutation(c1, w, op, k);
    ServedAgain(CachedReply(c1, w, op).1, op.after, k);
  }

  /** A fresh item answers the call, whatever the master says meanwhile. */
  lemma ServedAgain(c: Cache, v: View, k: Key)
    requires Fresh(c, k, 0)
    ensures StatusAt(c, k).Some? && Servable(StatusAt(c, k).value) ==>
      CachedReply(c, World(0, v), Get(k, -1, 0)).0 == StatusReply(StatusAnswer(StatusAt(c, k), k).value)
    ensures ListingAt(c, k).Some? ==>
      CachedReply(c, World(0, v), List(k, false, 0)).0 == ListReply(Ok(ListingAt(c, k).value))
  {
  }

  lemma UncontainedListingShows(ttl: nat, capacity: nat, v: View, op: Op, k: Key)
    requires 0 < ttl && op.Mutate?
    requires k !in DroppedKeys(op) && ListingIn(v, k).Ok? && ListingIn(v, k) != ListingIn(op.after, k)
    ensures var c, w, ops := Empty(ttl, capacity), World(0, v), [List(k, false, 0), op, List(k, false, 0)];
      !SameListing(RunCached(c, w, ops)[2], RunPlain(w, ops)[2])
  {
    var c, w, list := Empty(ttl, capacity), World(0, v), List(k, false, 0);
    ThirdReply(c, w, list, op, list);
    FirstCall(ttl, capacity, v, k);
    var c1 := CachedReply(c, w, list).1;
    KeptByMutation(c1, w, op, k);
    ServedAgain(CachedReply(c1, w, op).1, op.after, k);
  }

  /** Containment is exactly what transparency needs: a mutation goes unnoticed by every
      caller that asks before and after it if and only if it is contained. */
  lemma StatusHarmlessIsExact(ttl: nat, capacity: nat, v: View, op: Op)
    requires 0 < ttl && op.Mutate?
    ensures StatusHarmless(v, op) <==> forall k :: StatusUnnoticed(ttl, capacity, v, op, k)
  {
    if StatusHarmless(v, op) {
      forall k ensures StatusUnnoticed(ttl, capacity, v, op, k) {
        var w, get := World(0, v), Get(k, -1, 0);
        assert [get, op, get][1..] == [op, get] && [op, get][1..] == [get] && [get][1..] == [];
        assert AllStatusHarmless(NextWorld(w, op), [get]);
        assert AllStatusHarmless(w, [op, get]);
        StatusTransparent(Empty(ttl, capacity), w, [get, op, get]);
      }
    } else {
      var k :| k !in DroppedKeys(op) && ServableResult(StatusIn(v, k))
        && !SameResult(StatusIn(v, k), StatusIn(op.after, k));
      UncontainedStatusShows(ttl, capacity, v, op, k);
      assert !StatusUnnoticed(ttl, capacity, v, op, k);
    }
  }

  ghost predicate StatusUnnoticed(ttl: nat, capacity: nat, v: View, op: Op, k: Key)
    requires 0 < ttl
  {
    var c, w, ops := Empty(ttl, capacity), World(0, v), [Get(k, -1, 0), op, Get(k, -1, 0)];
    SameStatus(RunCached(c, w, ops)[2], RunPlain(w, ops)[2])
  }

  /** A change by an outsider goes unnoticed exactly if it leaves every servable status alone. */
  lemma OutsideChangeExactly(ttl: nat, capacity: nat, v: View, after: View)
    requires 0 < ttl
    ensures (forall k :: StatusUnnoticed(ttl, capacity, v, OutsideChange(after), k))
       <==> forall k :: ServableResult(StatusIn(v, k)) ==> SameResult(StatusIn(v, k), StatusIn(after, k))
  {
    hide StatusUnnoticed;
    StatusHarmlessIsExact(ttl, capacity, v, OutsideChange(after));
  }

  /** A rename of a directory is noticed below it: the file that was at `k` is no longer there, and
      `k` is neither of the two paths nor one of their parents. */
  lemma RenameShowsBelow(ttl: nat, capacity: nat, v: View, src: string, dst: string, after: View, k: Key)
    requires 0 < ttl
    requires k !in InvalidationKeys(src) && k !in InvalidationKeys(dst)
    requires StatusIn(v, k).Ok? && IsCompleted(StatusIn(v, k).value) && StatusIn(after, k) == Err(NotFound(k))
    ensures !forall q :: StatusUnnoticed(ttl, capacity, v, RenamePath(src, dst, true, after), q)
  {
    hide StatusUnnoticed, InvalidationKeys;
    var op := RenamePath(src, dst, true, after);
    StatusHarmlessIsExact(ttl, capacity, v, op);
    assert k !in DroppedKeys(op) && ServableResult(StatusIn(v, k));
  }

  lemma ListingHarmlessIsExact(ttl: nat, capacity: nat, v: View, op: Op)
    requires 0 < ttl && op.Mutate?
    ensures ListingHarmless(v, op) <==> forall k :: ListingUnnoticed(ttl, capacity, v, op, k)
  {
    if ListingHarmless(v, op) {
      forall k ensures ListingUnnoticed(ttl, capacity, v, op, k) {
        var w, list := World(0, v), List(k, false, 0);
        assert [list, op, list][1..] == [op, list] && [op, list][1..] == [list] && [list][1..] == [];
        assert AllListingHarmless(NextWorld(w, op), [list]);
        assert AllListingHarmless(w, [op, list]);
        ListingTransparent(Empty(ttl, capacity), w, [list, op, list]);
      }
    } else {
      var k :| k !in DroppedKeys(op) && ListingIn(v, k).Ok? && ListingIn(v, k) != ListingIn(op.after, k);
      UncontainedListingShows(ttl, capacity, v, op, k);
      assert !ListingUnnoticed(ttl, capacity, v, op, k);
    }
  }

  ghost predicate ListingUnnoticed(ttl: nat, capacity: nat, v: View, op: Op, k: Key)
    requires 0 < ttl
  {
    var c, w, ops := Empty(ttl, capacity), World(0, v), [List(k, false, 0), op, List(k, false, 0)];
    SameListing(RunCached(c, w, ops)[2], RunPlain(w, ops)[2])
  }

  /** Invalidating the path and its parent is not enough when the mutation changes what the
      parent's own entry looks like, say its modification time: the listing of the
      grandparent shows that entry, and the cached build goes on showing the old one. */
  lemma GrandparentListingGoesStale(ttl: nat, capacity: nat, v: View, path: string, after: View)
    requires 0 < ttl
    requires ParentPath(path).Some? && ParentPath(ParentPath(path).value).Some?
    requires var g := NormalizePath(ParentPath(ParentPath(path).value).value);
      ListingIn(v, g).Ok? && ListingIn(after, g) != ListingIn(v, g)
    ensures !ListingHarmless(v, MutatePath(path, true, after))
    ensures !forall k :: ListingUnnoticed(ttl, capacity, v, MutatePath(path, true, after), k)
  {
    hide NormalizePath, ParentPath, InvalidationKeys;
    var op := MutatePath(path, true, after);
    GrandparentNotDropped(path);
    ListingHarmlessIsExact(ttl, capacity, v, op);
  }

  /** The shortest paths with a grandparent have two levels. */
  lemma TwoLevels()
    ensures ParentPath("/a/b") == Some("/a") && ParentPath("/a") == Some("/")
  {
    TrimOfTrimmed("/a/b");
    TrimOfTrimmed("/a");
    assert TrimEnd("/a/b", Slash) == "/a/b" && TrimEnd("/a", Slash) == "/a";
    hide Trim, TrimEnd;
    assert NormalizePath("/a/b") == "/a/b" && NormalizePath("/a") == "/a";
    hide NormalizePath;
    assert LastSlash("/a/b") == 2 && LastSlash("/a") == 0;
    assert "/a/b"[..2] == "/a";
  }

  /** So it is with the listing of the root and a file two levels below. */
  lemma RootListingGoesStale(ttl: nat, capacity: nat, v: View, after: View)
    requires 0 < ttl && ListingIn(v, "/").Ok? && ListingIn(after, "/") != ListingIn(v, "/")
    ensures !forall k :: ListingUnnoticed(ttl, capacity, v, MutatePath("/a/b", true, after), k)
  {
    TwoLevels();
    TrimOfTrimmed("/");
    assert NormalizePath("/") == "/";
    hide NormalizePath, ParentPath, ListingUnnoticed, MutatePath;
    GrandparentListingGoesStale(ttl, capacity, v, "/a/b", after);
  }

  lemma GrandparentNotDropped(path: string)
    requires ParentPath(path).Some? && ParentPath(ParentPath(path).value).Some?
    ensures NormalizePath(ParentPath(ParentPath(path).value).value) !in InvalidationKeys(path)
  {
    hide NormalizePath, ParentPath;
    ParentShorter(path);
    ParentShorter(ParentPath(path).value);
  }
}
