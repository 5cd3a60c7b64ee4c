/** The metadata cache as a value: a TTL-bounded LRU map from normalized paths to items
    (src/metadata_cache.rs). Every operation is a function from cache to cache; the class
    in MetadataCache.dfy is proved against these functions, and the theorems about whole
    runs are about them. */
module CacheSpec {
  import opened Types

  /** A normalized path. */
  type Key = string

  /** `StatusSlot`: what `get_status` said about a path. */
  datatype Slot = Present(info: FileInfo) | Absent

  /** `CachedItem`: the status and the listing of one path share one write time. */
  datatype Item = Item(status: Option<Slot>, listing: Option<seq<FileInfo>>, insertedAt: nat)

  datatype Stats = Stats(hits: nat, misses: nat, expired: nat, invalidations: nat, negativeHits: nat)

  /** `order` lists the keys from most to least recently used. */
  datatype Cache = Cache(ttl: nat, cap: nat, order: seq<Key>, items: map<Key, Item>, stats: Stats)

  predicate IsCompleted(info: FileInfo) {
    info.completed.GetOr(false)
  }

  /** A slot that `get_status_through_cache` answers from, without asking the master. */
  predicate Servable(slot: Slot) {
    slot.Absent? || IsCompleted(slot.info)
  }

  predicate Distinct(s: seq<Key>) {
    forall i, j :: 0 <= i < j < |s| ==> s[i] != s[j]
  }

  ghost predicate Valid(c: Cache) {
    && 0 < c.ttl && 0 < c.cap
    && Distinct(c.order)
    && (forall k :: k in c.order <==> k in c.items)
    && |c.order| <= c.cap
  }

  function Empty(ttl: nat, capacity: nat): (c: Cache)
    requires 0 < ttl
    ensures Valid(c)
  {
    Cache(ttl, if capacity == 0 then 1 else capacity, [], map[], Stats(0, 0, 0, 0, 0))
  }

  // ----- LRU order -----

  /** `s` without the first `k` in it. */
  function Without(s: seq<Key>, k: Key): (r: seq<Key>)
    ensures k !in s ==> r == s
  {
    if s == [] then []
    else if s[0] == k then s[1..]
    else [s[0]] + Without(s[1..], k)
  }

  lemma DistinctTail(s: seq<Key>)
    requires Distinct(s) && s != []
    ensures Distinct(s[1..]) && s[0] !in s[1..]
    ensures forall q :: q in s <==> q == s[0] || q in s[1..]
  {
  }

  lemma {:induction false} WithoutMembers(s: seq<Key>, k: Key)
    requires Distinct(s)
    ensures forall q :: q in Without(s, k) <==> q in s && q != k
    ensures |Without(s, k)| == if k in s then |s| - 1 else |s|
  {
    if s != [] {
      DistinctTail(s);
      WithoutMembers(s[1..], k);
    }
  }

  /** Removing a key from an order keeps everything else, and keeps it distinct. */
  lemma {:induction false} WithoutKeepsOrder(s: seq<Key>, k: Key)
    requires Distinct(s)
    ensures Distinct(Without(s, k))
    ensures forall q :: q in Without(s, k) <==> q in s && q != k
    ensures |Without(s, k)| == if k in s then |s| - 1 else |s|
  {
    WithoutMembers(s, k);
    if s != [] {
      DistinctTail(s);
      if s[0] != k {
        WithoutKeepsOrder(s[1..], k);
      }
    }
  }

  function Promote(s: seq<Key>, k: Key): seq<Key> {
    [k] + Without(s, k)
  }

  // ----- Operations of the LRU map -----

  /** `LruCache::get` and `get_mut`: the key becomes the most recent one. */
  function Touch(c: Cache, k: Key): (r: Cache)
    requires k in c.items
  {
    c.(order := Promote(c.order, k))
  }

  /** `LruCache::pop`. */
  function Pop(c: Cache, k: Key): Cache {
    c.(order := Without(c.order, k), items := c.items - {k})
  }

  /** The key that the next insertion of a new key throws out, if any. */
  function Victim(c: Cache, k: Key): Option<Key> {
    if k in c.items || |c.order| < c.cap || c.order == [] then None
    else Some(c.order[|c.order| - 1])
  }

  /** Write an item, through `get_mut` if the key is there and through `put` if it is not. */
  function PutItem(c: Cache, k: Key, item: Item): Cache {
    if k in c.items then c.(order := Promote(c.order, k), items := c.items[k := item])
    else match Victim(c, k)
      case None => c.(order := [k] + c.order, items := c.items[k := item])
      case Some(v) => c.(order := [k] + c.order[..|c.order| - 1], items := (c.items - {v})[k := item])
  }

  // ----- Operations of the metadata cache -----

  /** `Instant::elapsed`, which never goes below zero. */
  function Elapsed(since: nat, now: nat): nat {
    if since <= now then now - since else 0
  }

  predicate Fresh(c: Cache, k: Key, now: nat) {
    k in c.items && Elapsed(c.items[k].insertedAt, now) < c.ttl
  }

  /** `retain_fresh`: an expired item is thrown out and counted. */
  function RetainFresh(c: Cache, k: Key, now: nat): Cache {
    if k in c.items && !Fresh(c, k, now) then
      var p := Pop(c, k);
      p.(stats := p.stats.(expired := p.stats.expired + 1))
    else c
  }

  /** What a lookup of `k` does to the map: promote a fresh item, throw out an expired one. */
  function AfterLookup(c: Cache, k: Key, now: nat): Cache {
    if Fresh(c, k, now) then Touch(c, k) else RetainFresh(c, k, now)
  }

  /** An incomplete status that was found counts as a miss: the caller will ask the master. */
  function CountStatus(s: Stats, found: Option<Slot>): Stats {
    match found
    case None => s.(misses := s.misses + 1)
    case Some(slot) =>
      if !Servable(slot) then s.(misses := s.misses + 1)
      else if slot.Absent? then s.(hits := s.hits + 1, negativeHits := s.negativeHits + 1)
      else s.(hits := s.hits + 1)
  }

  function CountListing(s: Stats, found: Option<seq<FileInfo>>): Stats {
    if found.Some? then s.(hits := s.hits + 1) else s.(misses := s.misses + 1)
  }

  /** `lookup_status`: the slot found (`None` is a miss) and the cache after the lookup. */
  function LookupStatus(c: Cache, k: Key, now: nat): (Option<Slot>, Cache) {
    var found := if Fresh(c, k, now) then c.items[k].status else None;
    var after := AfterLookup(c, k, now);
    (found, after.(stats := CountStatus(after.stats, found)))
  }

  /** `get_listing`. */
  function LookupListing(c: Cache, k: Key, now: nat): (Option<seq<FileInfo>>, Cache) {
    var found := if Fresh(c, k, now) then c.items[k].listing else None;
    var after := AfterLookup(c, k, now);
    (found, after.(stats := CountListing(after.stats, found)))
  }

  function ListingAt(c: Cache, k: Key): Option<seq<FileInfo>> {
    if k in c.items then c.items[k].listing else None
  }

  function StatusAt(c: Cache, k: Key): Option<Slot> {
    if k in c.items then c.items[k].status else None
  }

  /** `put_status`: keeps the listing, and restarts the clock of both. */
  function PutStatus(c: Cache, k: Key, slot: Slot, stamp: nat): Cache {
    PutItem(c, k, Item(Some(slot), ListingAt(c, k), stamp))
  }

  /** `insert_listing`: keeps the status, and restarts the clock of both. */
  function PutListing(c: Cache, k: Key, list: seq<FileInfo>, stamp: nat): Cache {
    PutItem(c, k, Item(StatusAt(c, k), Some(list), stamp))
  }

  /** `invalidate`. */
  function Invalidate(c: Cache, k: Key): Cache {
    if k in c.items then
      var p := Pop(c, k);
      p.(stats := p.stats.(invalidations := p.stats.invalidations + 1))
    else c
  }

  function InvalidateAll(c: Cache, keys: seq<Key>): Cache
    decreases |keys|
  {
    if keys == [] then c else InvalidateAll(Invalidate(c, keys[0]), keys[1..])
  }

  // ----- What the cache has, by its fields -----

  predicate HasExpired(c: Cache, k: Key, now: nat) {
    k in c.items && now >= c.items[k].insertedAt + c.ttl
  }

  /** There is a status of `k` that has not expired, and it says that the file is complete or that
      there is none. */
  predicate HasAnswer(c: Cache, k: Key, now: nat) {
    && k in c.items && !HasExpired(c, k, now)
    && c.items[k].status.Some?
    && (c.items[k].status.value.Absent? || c.items[k].status.value.info.completed == Some(true))
  }

  predicate HasListing(c: Cache, k: Key, now: nat) {
    k in c.items && !HasExpired(c, k, now) && c.items[k].listing.Some?
  }

  // ----- What the operations keep -----

  /** Everything in `after` was already in `before`, unchanged: entries may only get lost. */
  ghost predicate OnlyLoses(before: Cache, after: Cache) {
    forall q :: q in after.items ==> q in before.items && after.items[q] == before.items[q]
  }

  lemma StatsKeep(c: Cache, stats: Stats)
    requires Valid(c)
    ensures Valid(c.(stats := stats))
  {
  }

  lemma PopKeeps(c: Cache, k: Key)
    requires Valid(c)
    ensures Valid(Pop(c, k))
  {
    WithoutKeepsOrder(c.order, k);
  }

  lemma TouchKeeps(c: Cache, k: Key)
    requires Valid(c) && k in c.items
    ensures Valid(Touch(c, k))
  {
    WithoutKeepsOrder(c.order, k);
  }

  /** Writing a key keeps the cache valid, stores the item, and leaves every other key as it
      was or, for the one victim, drops it. */
  lemma PutItemKeeps(c: Cache, k: Key, item: Item)
    requires Valid(c)
    ensures Valid(PutItem(c, k, item))
    ensures k in PutItem(c, k, item).items && PutItem(c, k, item).items[k] == item
    ensures forall q :: q in PutItem(c, k, item).items && q != k ==>
      q in c.items && PutItem(c, k, item).items[q] == c.items[q]
    ensures forall q :: q in c.items && q !in PutItem(c, k, item).items ==> Victim(c, k) == Some(q)
    ensures PutItem(c, k, item).order != [] && PutItem(c, k, item).order[0] == k
  {
    var r := PutItem(c, k, item);
    if k in c.items {
      WithoutKeepsOrder(c.order, k);
    } else if Victim(c, k).Some? {
      var n := |c.order| - 1;
      forall q ensures q in r.order <==> q in r.items {
        assert q in c.order[..n] <==> (q in c.order && q != c.order[n]);
      }
    }
  }

  /** A lookup keeps the cache valid and loses nothing but the looked-up item, and that
      one exactly if it has expired. */
  lemma LookupKeeps(c: Cache, k: Key, now: nat)
    requires Valid(c)
    ensures Valid(AfterLookup(c, k, now))
    ensures OnlyLoses(c, AfterLookup(c, k, now))
    ensures forall q :: q in AfterLookup(c, k, now).items <==> q in c.items && (q == k ==> !HasExpired(c, k, now))
    ensures k in c.items && !HasExpired(c, k, now) ==>
      AfterLookup(c, k, now).order != [] && AfterLookup(c, k, now).order[0] == k
  {
    if k in c.items {
      PopKeeps(c, k);
      TouchKeeps(c, k);
    }
  }

  lemma InvalidateKeeps(c: Cache, k: Key)
    requires Valid(c)
    ensures Valid(Invalidate(c, k))
    ensures OnlyLoses(c, Invalidate(c, k))
    ensures Invalidate(c, k).items.Keys == c.items.Keys - {k}
  {
    PopKeeps(c, k);
  }

  lemma InvalidateOne(c: Cache, k: Key)
    ensures InvalidateAll(c, [k]) == Invalidate(c, k)
  {
    assert [k][1..] == [];
  }

  lemma {:induction false} InvalidateAllKeeps(c: Cache, keys: seq<Key>)
    requires Valid(c)
    ensures Valid(InvalidateAll(c, keys))
    ensures OnlyLoses(c, InvalidateAll(c, keys))
    ensures forall q :: q in InvalidateAll(c, keys).items <==> q in c.items && q !in keys
    decreases |keys|
  {
    if keys != [] {
      InvalidateKeeps(c, keys[0]);
      InvalidateAllKeeps(Invalidate(c, keys[0]), keys[1..]);
      assert forall q :: q in keys <==> q == keys[0] || q in keys[1..];
    }
  }

  /** A status that was just written is what the next lookup within the time to live finds,
      together with the listing that was there before. */
  lemma StatusRoundTrip(c: Cache, k: Key, slot: Slot, stamp: nat, now: nat)
    requires Valid(c) && stamp <= now
    ensures var r := LookupStatus(PutStatus(c, k, slot, stamp), k, now);
      && (r.0 == if now - stamp < c.ttl then Some(slot) else None)
      && (now - stamp < c.ttl ==> ListingAt(r.1, k) == ListingAt(c, k))
  {
    PutItemKeeps(c, k, Item(Some(slot), ListingAt(c, k), stamp));
    LookupKeeps(PutStatus(c, k, slot, stamp), k, now);
  }
}
