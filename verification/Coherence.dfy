/** The metadata cache among concurrent callers (src/metadata_cache.rs:398-504): a state machine
    whose steps are the atomic pieces of `get_status_through_cache`, `list_status_through_cache`
    and of the mutations that go through `invalidate_on_success`, in any interleaving, together
    with a clock and with writers the client knows nothing about.

    Two questions are answered for every run: why can a cached status differ from the
    master's, and how old can a status that is served be? */
module Coherence {
  import opened Types
  import opened CacheSpec

  /** What the master answers about a path: to `get_status`, and to `list_status`. */
  datatype Entry = Entry(info: FileInfo, listing: seq<FileInfo>)

  /** What the master stores, by normalized path. */
  type Master = map<Key, Entry>

  function Truth(m: Master, k: Key): Slot {
    if k in m then Present(m[k].info) else Absent
  }

  function TrueListing(m: Master, k: Key): Option<seq<FileInfo>> {
    if k in m then Some(m[k].listing) else None
  }

  /** What the log records: a change of the master, or the invalidation of `key` that
      belongs to the client write logged at position `write`. */
  datatype Event = Wrote(byClient: bool, touched: set<Key>) | Dropped(write: nat, key: Key)

  /** Where a cached status or listing comes from: how long the log was when the master was read and
      when the slot was written, and the time of both. */
  datatype Origin = Origin(read: nat, wrote: nat, readAt: nat, wroteAt: nat)

  /** A status fetch in flight since its lookup: before, and after the master's answer. */
  datatype Fetch =
    | Asking(key: Key, startedAt: nat)
    | Answered(key: Key, startedAt: nat, slot: Slot, read: nat, readAt: nat)

  /** A listing fetch in flight since its lookup: before, and after the master's answer. */
  datatype ListFetch =
    | ListAsking(key: Key, startedAt: nat)
    | ListAnswered(key: Key, startedAt: nat, list: seq<FileInfo>, read: nat, readAt: nat)

  /** `masters` holds every version of the master so far, one more than there are events, and
      `since` the time each became current. `writes` maps a client write, named by its log
      position, to the keys it has still to invalidate. `listed` is to listings
      what `origins` is to statuses. A listing takes at most `listBound`
      from its lookup to its time stamp, a status at most `statusBound` from the master's
      answer to its slot. */
  datatype State = State(
    now: nat,
    cache: Cache,
    masters: seq<Master>,
    since: seq<nat>,
    log: seq<Event>,
    origins: map<Key, Origin>,
    listed: map<Key, Origin>,
    gets: map<nat, Fetch>,
    lists: map<nat, ListFetch>,
    writes: map<nat, seq<Key>>,
    listBound: nat,
    statusBound: nat)

  datatype Action =
    | Tick(d: nat)
    | LookStatus(id: nat, key: Key, useCache: bool)
    | AskMaster(id: nat)
    | WriteStatus(id: nat, stamp: nat)
    | FailStatus(id: nat)
    | LookListing(id: nat, key: Key)
    | AskListing(id: nat)
    | WriteListing(id: nat, stamp: nat)
    | FailListing(id: nat)
    | ClientWrite(keys: seq<Key>, after: Master)
    | DropNext(write: nat)
    | OutsideWrite(after: Master)
    | Forget(key: Key)

  ghost predicate SameOutside(m: Master, m': Master, keys: set<Key>) {
    forall q :: q !in keys ==> Truth(m, q) == Truth(m', q) && TrueListing(m, q) == TrueListing(m', q)
  }

  predicate Shaped(s: State) {
    |s.masters| == |s.log| + 1 == |s.since|
  }

  function Current(s: State): Master
    requires Shaped(s)
  {
    s.masters[|s.log|]
  }

  /** A listing of a path that is not there fails. Time stamps are taken between the answer and the
      write. A client write changes at most the keys it will invalidate. */
  ghost predicate Enabled(s: State, a: Action)
    requires Shaped(s)
  {
    match a
    case Tick(_) => true
    case LookStatus(id, _, _) => id !in s.gets
    case AskMaster(id) => id in s.gets && s.gets[id].Asking?
    case WriteStatus(id, stamp) =>
      && id in s.gets && s.gets[id].Answered?
      && s.gets[id].readAt <= stamp <= s.now <= s.gets[id].readAt + s.statusBound
    case FailStatus(id) => id in s.gets
    case LookListing(id, _) => id !in s.lists
    case AskListing(id) => id in s.lists && s.lists[id].ListAsking? && s.lists[id].key in Current(s)
    case WriteListing(id, stamp) =>
      && id in s.lists && s.lists[id].ListAnswered?
      && s.lists[id].readAt <= stamp <= s.now && stamp <= s.lists[id].startedAt + s.listBound
    case FailListing(id) => id in s.lists
    case ClientWrite(keys, after) => SameOutside(Current(s), after, set k | k in keys)
    case DropNext(w) => w in s.writes && s.writes[w] != []
    case OutsideWrite(_) => true
    case Forget(_) => true
  }

  /** The status that a caller using the cache gets for `k` without asking the master. */
  function Served(s: State, k: Key): Option<Slot> {
    var found := LookupStatus(s.cache, k, s.now).0;
    if found.Some? && Servable(found.value) then found else None
  }

  // A step, component by component.

  /** The event a step logs, if it is one of the three that concern the master's history. */
  function EventOf(s: State, a: Action): Option<Event>
    requires Shaped(s) && Enabled(s, a)
  {
    match a
    case ClientWrite(keys, _) => Some(Wrote(true, set k | k in keys))
    case OutsideWrite(after) => Some(Wrote(false, Current(s).Keys + after.Keys))
    case DropNext(w) => Some(Dropped(w, s.writes[w][0]))
    case _ => None
  }

  function MasterAfter(s: State, a: Action): Master
    requires Shaped(s)
  {
    if a.ClientWrite? || a.OutsideWrite? then a.after else Current(s)
  }

  function CacheAfter(s: State, a: Action): Cache
    requires Shaped(s) && Enabled(s, a)
  {
    match a
    case LookStatus(_, key, useCache) => if useCache then LookupStatus(s.cache, key, s.now).1 else s.cache
    case LookListing(_, key) => LookupListing(s.cache, key, s.now).1
    case WriteStatus(id, stamp) => PutStatus(s.cache, s.gets[id].key, s.gets[id].slot, stamp)
    case WriteListing(id, stamp) => PutListing(s.cache, s.lists[id].key, s.lists[id].list, stamp)
    case DropNext(w) => Invalidate(s.cache, s.writes[w][0])
    case Forget(key) => Invalidate(s.cache, key)
    case _ => s.cache
  }

  function OriginsAfter(s: State, a: Action): map<Key, Origin>
    requires Shaped(s) && Enabled(s, a)
  {
    match a
    case WriteStatus(id, _) =>
      var g := s.gets[id];
      s.origins[g.key := Origin(g.read, |s.log|, g.readAt, s.now)]
    case _ => s.origins
  }

  function ListedAfter(s: State, a: Action): map<Key, Origin>
    requires Shaped(s) && Enabled(s, a)
  {
    match a
    case WriteListing(id, _) =>
      var l := s.lists[id];
      s.listed[l.key := Origin(l.read, |s.log|, l.readAt, s.now)]
    case _ => s.listed
  }

  /** A lookup that is served from the cache starts no fetch. */
  function GetsAfter(s: State, a: Action): map<nat, Fetch>
    requires Shaped(s) && Enabled(s, a)
  {
    match a
    case LookStatus(id, key, useCache) =>
      if useCache && Served(s, key).Some? then s.gets else s.gets[id := Asking(key, s.now)]
    case AskMaster(id) =>
      var k := s.gets[id].key;
      s.gets[id := Answered(k, s.gets[id].startedAt, Truth(Current(s), k), |s.log|, s.now)]
    case WriteStatus(id, _) => s.gets - {id}
    case FailStatus(id) => s.gets - {id}
    case _ => s.gets
  }

  function ListsAfter(s: State, a: Action): map<nat, ListFetch>
    requires Shaped(s) && Enabled(s, a)
  {
    match a
    case LookListing(id, key) =>
      if LookupListing(s.cache, key, s.now).0.Some? then s.lists else s.lists[id := ListAsking(key, s.now)]
    case AskListing(id) =>
      var l := s.lists[id];
      s.lists[id := ListAnswered(l.key, l.startedAt, Current(s)[l.key].listing, |s.log|, s.now)]
    case WriteListing(id, _) => s.lists - {id}
    case FailListing(id) => s.lists - {id}
    case _ => s.lists
  }

  function WritesAfter(s: State, a: Action): map<nat, seq<Key>>
    requires Shaped(s) && Enabled(s, a)
  {
    match a
    case ClientWrite(keys, _) => s.writes[|s.log| := keys]
    case DropNext(w) => s.writes[w := s.writes[w][1..]]
    case _ => s.writes
  }

  function Step(s: State, a: Action): (s': State)
    requires Shaped(s) && Enabled(s, a)
    ensures Shaped(s')
  {
    var e := EventOf(s, a);
    State(
      if a.Tick? then s.now + a.d else s.now,
      CacheAfter(s, a),
      if e.Some? then s.masters + [MasterAfter(s, a)] else s.masters,
      if e.Some? then s.since + [s.now] else s.since,
      if e.Some? then s.log + [e.value] else s.log,
      OriginsAfter(s, a), ListedAfter(s, a), GetsAfter(s, a), ListsAfter(s, a), WritesAfter(s, a),
      s.listBound, s.statusBound)
  }

  function Start(ttl: nat, capacity: nat, master: Master, listBound: nat, statusBound: nat): (s: State)
    requires 0 < ttl
    ensures Shaped(s)
  {
    State(0, Empty(ttl, capacity), [master], [0], [], map[], map[], map[], map[], map[], listBound, statusBound)
  }

  // ----- Runs -----

  ghost predicate Legal(s: State, run: seq<Action>)
    requires Shaped(s)
    decreases |run|
  {
    run == [] || (Enabled(s, run[0]) && Legal(Step(s, run[0]), run[1..]))
  }

  function After(s: State, run: seq<Action>): (s': State)
    requires Shaped(s) && Legal(s, run)
    ensures Shaped(s')
    decreases |run|
  {
    if run == [] then s else After(Step(s, run[0]), run[1..])
  }

  // ----- Why a cached status can be stale -----

  /** Event `i` changed the status that the master holds for `q`. */
  ghost predicate ChangedAt(s: State, i: nat, q: Key)
    requires Shaped(s) && i < |s.log|
  {
    Truth(s.masters[i], q) != Truth(s.masters[i + 1], q)
  }

  /** Event `i` changed the listing that the master holds for `q`. */
  ghost predicate ListingChangedAt(s: State, i: nat, q: Key)
    requires Shaped(s) && i < |s.log|
  {
    TrueListing(s.masters[i], q) != TrueListing(s.masters[i + 1], q)
  }

  /** Every change of the master is logged by an event that touches the changed key, and the
      versions became current in log order. */
  ghost predicate HistoryInv(s: State)
    requires Shaped(s)
  {
    && (forall i, q :: 0 <= i < |s.log| && ChangedAt(s, i, q) ==> s.log[i].Wrote? && q in s.log[i].touched)
    && (forall i, q :: 0 <= i < |s.log| && ListingChangedAt(s, i, q) ==> s.log[i].Wrote? && q in s.log[i].touched)
    && (forall i, j :: 0 <= i <= j < |s.since| ==> s.since[i] <= s.since[j])
    && s.since[|s.log|] <= s.now
  }

  /** `slot` is what the master held for `q` in version `read`, which was current at `readAt`. */
  ghost predicate WasTrue(s: State, q: Key, slot: Slot, read: nat, readAt: nat)
    requires Shaped(s)
  {
    && read <= |s.log|
    && slot == Truth(s.masters[read], q)
    && s.since[read] <= readAt <= s.now
    && (read < |s.log| ==> readAt <= s.since[read + 1])
  }

  ghost predicate OriginInv(s: State)
    requires Shaped(s)
  {
    && Valid(s.cache)
    && (forall q :: StatusAt(s.cache, q).Some? ==>
          && q in s.origins
          && WasTrue(s, q, StatusAt(s.cache, q).value, s.origins[q].read, s.origins[q].readAt)
          && s.origins[q].read <= s.origins[q].wrote <= |s.log|
          && s.origins[q].readAt <= s.origins[q].wroteAt <= s.now
          && s.origins[q].wroteAt <= s.origins[q].readAt + s.statusBound)
    && (forall id :: id in s.gets && s.gets[id].Answered? ==>
          WasTrue(s, s.gets[id].key, s.gets[id].slot, s.gets[id].read, s.gets[id].readAt))
  }

  /** The client write at `r` has still to invalidate `q`. */
  ghost predicate Pending(s: State, r: nat, q: Key) {
    r in s.writes && q in s.writes[r]
  }

  ghost predicate DroppedBefore(s: State, r: nat, q: Key, end: nat) {
    exists v :: r < v < end && v < |s.log| && s.log[v] == Dropped(r, q)
  }

  /** A client write invalidates every key it touches, sooner or later; and a slot is
      always younger than the invalidations of its key. */
  ghost predicate DropInv(s: State) {
    && (forall r :: r in s.writes ==> r < |s.log|)
    && (forall r, q :: 0 <= r < |s.log| && s.log[r].Wrote? && s.log[r].byClient && q in s.log[r].touched ==>
          Pending(s, r, q) || DroppedBefore(s, r, q, |s.log|))
    && (forall v :: 0 <= v < |s.log| && s.log[v].Dropped? && StatusAt(s.cache, s.log[v].key).Some? ==>
          s.log[v].key in s.origins && v < s.origins[s.log[v].key].wrote)
  }

  /** Event `r` explains why the status cached for `q` is stale: it changed what the master holds
      for `q` after the status was read, and either it was no write of this client, or the write has not
      invalidated `q` yet, or it had done so before the slot was written: the fetch that
      wrote the slot had read the master before the write and came back too late. */
  ghost predicate Explains(s: State, q: Key, r: nat)
    requires Shaped(s) && q in s.origins
  {
    && s.origins[q].read <= r < |s.log|
    && s.log[r].Wrote? && ChangedAt(s, r, q)
    && (!s.log[r].byClient || Pending(s, r, q) || DroppedBefore(s, r, q, s.origins[q].wrote))
  }

  /** A step never rewrites history: it adds at most one event, stamped with the time. */
  ghost predicate Extends(s: State, s': State)
    requires Shaped(s) && Shaped(s')
  {
    && s.now <= s'.now
    && s.masters <= s'.masters && s.since <= s'.since && s.log <= s'.log
    && (forall i :: |s.log| < i <= |s'.log| ==> s'.since[i] == s.now)
    && s.listBound == s'.listBound && s.statusBound == s'.statusBound
  }

  lemma StepExtends(s: State, a: Action)
    requires Shaped(s) && Enabled(s, a)
    ensures Extends(s, Step(s, a))
  {
  }

  lemma WasTrueForever(s: State, s': State, q: Key, slot: Slot, read: nat, readAt: nat)
    requires Shaped(s) && Shaped(s') && Extends(s, s')
    requires WasTrue(s, q, slot, read, readAt)
    ensures WasTrue(s', q, slot, read, readAt)
  {
  }

  lemma HistoryStep(s: State, a: Action)
    requires Shaped(s) && Enabled(s, a) && HistoryInv(s)
    ensures HistoryInv(Step(s, a))
  {
    var s' := Step(s, a);
    StepExtends(s, a);
    forall i, q | 0 <= i < |s'.log| && ChangedAt(s', i, q)
      ensures s'.log[i].Wrote? && q in s'.log[i].touched
    {
      if i < |s.log| {
        assert ChangedAt(s, i, q);
      }
    }
    forall i, q | 0 <= i < |s'.log| && ListingChangedAt(s', i, q)
      ensures s'.log[i].Wrote? && q in s'.log[i].touched
    {
      if i < |s.log| {
        assert ListingChangedAt(s, i, q);
      }
    }
  }

  /** Statuses that survive a step keep their origin; the ones that a step writes come from
      the fetch that wrote them. */
  lemma OriginStep(s: State, a: Action)
    requires Shaped(s) && Enabled(s, a) && HistoryInv(s) && OriginInv(s)
    ensures OriginInv(Step(s, a))
  {
    var s' := Step(s, a);
    StepExtends(s, a);
    CacheStep(s, a);
    forall q | StatusAt(s'.cache, q).Some?
      ensures
        && q in s'.origins
        && WasTrue(s', q, StatusAt(s'.cache, q).value, s'.origins[q].read, s'.origins[q].readAt)
        && s'.origins[q].read <= s'.origins[q].wrote <= |s'.log|
        && s'.origins[q].readAt <= s'.origins[q].wroteAt <= s'.now
        && s'.origins[q].wroteAt <= s'.origins[q].readAt + s'.statusBound
    {
      if a.WriteStatus? && q == s.gets[a.id].key {
      } else {
        WasTrueForever(s, s', q, StatusAt(s.cache, q).value, s.origins[q].read, s.origins[q].readAt);
      }
    }
    forall id | id in s'.gets && s'.gets[id].Answered?
      ensures WasTrue(s', s'.gets[id].key, s'.gets[id].slot, s'.gets[id].read, s'.gets[id].readAt)
    {
      var g := s'.gets[id];
      if a.AskMaster? && id == a.id {
      } else {
        WasTrueForever(s, s', g.key, g.slot, g.read, g.readAt);
      }
    }
  }

  /** What a step can do to the statuses in the cache: write the one that was fetched; keep or
      lose every other one. */
  lemma CacheStep(s: State, a: Action)
    requires Shaped(s) && Enabled(s, a) && Valid(s.cache)
    ensures Valid(Step(s, a).cache)
    ensures a.WriteStatus? ==>
      var g := s.gets[a.id]; StatusAt(Step(s, a).cache, g.key) == Some(g.slot)
    ensures forall q :: StatusAt(Step(s, a).cache, q).Some? && !(a.WriteStatus? && q == s.gets[a.id].key) ==>
      StatusAt(Step(s, a).cache, q) == StatusAt(s.cache, q)
    ensures a.DropNext? ==> StatusAt(Step(s, a).cache, s.writes[a.write][0]).None?
  {
    match a
    case LookStatus(_, key, _) => LookupKeeps(s.cache, key, s.now);
    case LookListing(_, key) => LookupKeeps(s.cache, key, s.now);
    case WriteStatus(id, stamp) =>
      var g := s.gets[id];
      PutItemKeeps(s.cache, g.key, Item(Some(g.slot), ListingAt(s.cache, g.key), stamp));
    case WriteListing(id, stamp) =>
      var l := s.lists[id];
      PutItemKeeps(s.cache, l.key, Item(StatusAt(s.cache, l.key), Some(l.list), stamp));
    case DropNext(w) => InvalidateKeeps(s.cache, s.writes[w][0]);
    case Forget(key) => InvalidateKeeps(s.cache, key);
    case _ =>
  }

  lemma DropStep(s: State, a: Action)
    requires Shaped(s) && Enabled(s, a) && OriginInv(s) && DropInv(s)
    ensures DropInv(Step(s, a))
  {
    var s' := Step(s, a);
    StepExtends(s, a);
    CacheStep(s, a);
    forall r, q | 0 <= r < |s'.log| && s'.log[r].Wrote? && s'.log[r].byClient && q in s'.log[r].touched
      ensures Pending(s', r, q) || DroppedBefore(s', r, q, |s'.log|)
    {
      if r < |s.log| {
        assert s.log[r] == s'.log[r];
        if DroppedBefore(s, r, q, |s.log|) {
          var v :| r < v < |s.log| && s.log[v] == Dropped(r, q);
          assert s'.log[v] == Dropped(r, q);
        } else if a.DropNext? && a.write == r && s.writes[r][0] == q {
          assert s'.log[|s.log|] == Dropped(r, q);
        } else {
          assert Pending(s, r, q);
        }
      }
    }
    forall v | 0 <= v < |s'.log| && s'.log[v].Dropped? && StatusAt(s'.cache, s'.log[v].key).Some?
      ensures s'.log[v].key in s'.origins && v < s'.origins[s'.log[v].key].wrote
    {
      if v < |s.log| {
        assert s.log[v] == s'.log[v];
      }
    }
  }

  // ----- How old a served status can be -----

  /** Time stamps against the time `wroteAt` at which the status was written. A status alone
      carries its own stamp; a listing may have renewed it, but only a listing whose fetch
      started while the status was still fresh. */
  ghost predicate AgeInv(s: State) {
    && (forall q :: StatusAt(s.cache, q).Some? ==>
          && q in s.origins
          && s.cache.items[q].insertedAt < s.origins[q].wroteAt + s.cache.ttl + s.listBound
          && (s.cache.items[q].listing.None? ==> s.cache.items[q].insertedAt <= s.origins[q].wroteAt))
    && (forall id :: id in s.lists && StatusAt(s.cache, s.lists[id].key).Some? ==>
          s.lists[id].startedAt < s.origins[s.lists[id].key].wroteAt + s.cache.ttl)
    && (forall id :: id in s.lists ==> s.lists[id].startedAt <= s.now)
  }

  /** What a step can do to an item with a status: besides writing one, only a listing write
      changes an item, and it keeps the status. */
  lemma ItemStep(s: State, a: Action, q: Key)
    requires Shaped(s) && Enabled(s, a) && Valid(s.cache)
    requires StatusAt(CacheAfter(s, a), q).Some?
    ensures CacheAfter(s, a).ttl == s.cache.ttl
    ensures
      var item := CacheAfter(s, a).items[q];
      if a.WriteStatus? && q == s.gets[a.id].key then item.insertedAt == a.stamp
      else
        && StatusAt(s.cache, q).Some?
        && (if a.WriteListing? && q == s.lists[a.id].key then item.insertedAt == a.stamp && item.listing.Some?
            else item == s.cache.items[q])
    ensures a.LookListing? && q == a.key && LookupListing(s.cache, q, s.now).0.None? ==>
      Fresh(s.cache, q, s.now) && s.cache.items[q].listing.None?
  {
    match a
    case LookStatus(_, key, _) => LookupKeeps(s.cache, key, s.now);
    case LookListing(_, key) => LookupKeeps(s.cache, key, s.now);
    case WriteStatus(id, stamp) =>
      var g := s.gets[id];
      PutItemKeeps(s.cache, g.key, Item(Some(g.slot), ListingAt(s.cache, g.key), stamp));
    case WriteListing(id, stamp) =>
      var l := s.lists[id];
      PutItemKeeps(s.cache, l.key, Item(StatusAt(s.cache, l.key), Some(l.list), stamp));
    case DropNext(w) => InvalidateKeeps(s.cache, s.writes[w][0]);
    case Forget(key) => InvalidateKeeps(s.cache, key);
    case _ =>
  }

  lemma TtlStep(s: State, a: Action)
    requires Shaped(s) && Enabled(s, a)
    ensures CacheAfter(s, a).ttl == s.cache.ttl
  {
  }

  lemma AgeItemStep(s: State, a: Action, q: Key)
    requires Shaped(s) && Enabled(s, a) && OriginInv(s) && AgeInv(s) && StatusAt(Step(s, a).cache, q).Some?
    ensures
      var s' := Step(s, a);
      && q in s'.origins
      && s'.cache.items[q].insertedAt < s'.origins[q].wroteAt + s'.cache.ttl + s'.listBound
      && (s'.cache.items[q].listing.None? ==> s'.cache.items[q].insertedAt <= s'.origins[q].wroteAt)
  {
    assert 0 < s.cache.ttl;
    hide Valid, WasTrue;
    ItemStep(s, a, q);
    hide CacheAfter, GetsAfter, ListsAfter, ListedAfter, WritesAfter, EventOf;
  }

  lemma AgeListStep(s: State, a: Action, id: nat)
    requires Shaped(s) && Enabled(s, a) && OriginInv(s) && AgeInv(s)
    requires id in Step(s, a).lists && StatusAt(Step(s, a).cache, Step(s, a).lists[id].key).Some?
    ensures
      var s' := Step(s, a);
      var q := s'.lists[id].key;
      q in s'.origins && s'.lists[id].startedAt < s'.origins[q].wroteAt + s'.cache.ttl
  {
    assert 0 < s.cache.ttl;
    hide Valid, WasTrue;
    ItemStep(s, a, Step(s, a).lists[id].key);
    hide CacheAfter, GetsAfter, ListedAfter, WritesAfter, EventOf;
  }

  lemma AgeStep(s: State, a: Action)
    requires Shaped(s) && Enabled(s, a) && OriginInv(s) && AgeInv(s)
    ensures AgeInv(Step(s, a))
  {
    hide Valid, WasTrue;
    var s' := Step(s, a);
    forall q | StatusAt(s'.cache, q).Some?
      ensures
        && q in s'.origins
        && s'.cache.items[q].insertedAt < s'.origins[q].wroteAt + s'.cache.ttl + s'.listBound
        && (s'.cache.items[q].listing.None? ==> s'.cache.items[q].insertedAt <= s'.origins[q].wroteAt)
    {
      AgeItemStep(s, a, q);
    }
    forall id | id in s'.lists && StatusAt(s'.cache, s'.lists[id].key).Some?
      ensures s'.lists[id].startedAt < s'.origins[s'.lists[id].key].wroteAt + s'.cache.ttl
    {
      AgeListStep(s, a, id);
    }
    hide CacheAfter, OriginsAfter, GetsAfter, ListedAfter, WritesAfter, EventOf;
  }

  ghost predicate Inv(s: State) {
    Shaped(s) && HistoryInv(s) && OriginInv(s) && DropInv(s) && AgeInv(s)
  }

  /** Every run keeps the invariant. */
  lemma {:induction false} RunKeepsInv(s: State, run: seq<Action>)
    requires Inv(s) && Legal(s, run)
    ensures Inv(After(s, run))
    ensures After(s, run).cache.ttl == s.cache.ttl
    ensures After(s, run).listBound == s.listBound && After(s, run).statusBound == s.statusBound
    decreases |run|
  {
    if run != [] {
      HistoryStep(s, run[0]);
      OriginStep(s, run[0]);
      DropStep(s, run[0]);
      AgeStep(s, run[0]);
      TtlStep(s, run[0]);
      RunKeepsInv(Step(s, run[0]), run[1..]);
    }
  }

  /** If nothing changed `q` from version `i` on, its truth is still what it was. */
  lemma {:induction false} Unchanged(s: State, q: Key, i: nat)
    requires Shaped(s) && i <= |s.log|
    requires forall r :: i <= r < |s.log| ==> !ChangedAt(s, r, q)
    ensures Truth(s.masters[i], q) == Truth(Current(s), q)
    decreases |s.log| - i
  {
    if i < |s.log| {
      assert !ChangedAt(s, i, q);
      Unchanged(s, q, i + 1);
    }
  }

  /** In a state that satisfies the invariant, every stale status has an explanation. */
  lemma StaleIsExplained(s: State, q: Key)
    requires Inv(s)
    requires StatusAt(s.cache, q).Some? && StatusAt(s.cache, q).value != Truth(Current(s), q)
    ensures exists r :: Explains(s, q, r)
  {
    var o := s.origins[q];
    if forall r :: o.read <= r < |s.log| ==> !ChangedAt(s, r, q) {
      Unchanged(s, q, o.read);
      assert false;
    }
    var r :| o.read <= r < |s.log| && ChangedAt(s, r, q);
    if s.log[r].byClient && !Pending(s, r, q) {
      var v :| r < v < |s.log| && s.log[v] == Dropped(r, q);
      assert v < o.wrote;
    }
    assert Explains(s, q, r);
  }

  /** Main theorem on coherence: in every run from the empty cache, a cached status that
      differs from the master's was overtaken by a write of an outsider, by a client write
      whose invalidation is still to come, or by a client write that ran, invalidation
      included, between the fetch's reading of the master and its writing of the slot. */
  lemma StaleOnlyByRace(ttl: nat, capacity: nat, master: Master, listBound: nat, statusBound: nat,
                        run: seq<Action>, q: Key)
    requires 0 < ttl
    requires Legal(Start(ttl, capacity, master, listBound, statusBound), run)
    ensures
      var s := After(Start(ttl, capacity, master, listBound, statusBound), run);
      StatusAt(s.cache, q).Some? && StatusAt(s.cache, q).value != Truth(Current(s), q) ==>
        q in s.origins && exists r :: Explains(s, q, r)
  {
    var s0 := Start(ttl, capacity, master, listBound, statusBound);
    RunKeepsInv(s0, run);
    var s := After(s0, run);
    if StatusAt(s.cache, q).Some? && StatusAt(s.cache, q).value != Truth(Current(s), q) {
      StaleIsExplained(s, q);
    }
  }

  /** The master held `slot` for `q` at some time at most `age` before now. */
  ghost predicate TrueWithin(s: State, q: Key, slot: Slot, age: int)
    requires Shaped(s)
  {
    exists i, t :: WasTrue(s, q, slot, i, t) && s.now - t <= age
  }

  /** Main theorem on age: in every run, outsiders included, a status served from the cache
      was written to its slot at most 2 * ttl + listBound - 2 ticks ago, that is, less than
      2 * ttl + listBound; and it was the truth at most `statusBound` before that. */
  lemma BoundedStaleness(ttl: nat, capacity: nat, master: Master, listBound: nat, statusBound: nat,
                         run: seq<Action>, q: Key)
    requires 0 < ttl
    requires Legal(Start(ttl, capacity, master, listBound, statusBound), run)
    ensures
      var s := After(Start(ttl, capacity, master, listBound, statusBound), run);
      Served(s, q).Some? ==>
        && q in s.origins
        && s.now - s.origins[q].wroteAt <= 2 * ttl + listBound - 2
        && TrueWithin(s, q, Served(s, q).value, 2 * ttl + listBound + statusBound - 2)
  {
    var s0 := Start(ttl, capacity, master, listBound, statusBound);
    RunKeepsInv(s0, run);
    var s := After(s0, run);
    if Served(s, q).Some? {
      var o := s.origins[q];
      assert Fresh(s.cache, q, s.now);
      assert WasTrue(s, q, Served(s, q).value, o.read, o.readAt);
    }
  }
}
