/** The metadata cache as the source has it (src/metadata_cache.rs): an object with an LRU map
    and counters that every operation updates in place, and the helpers that put it in front
    of the master. The clock is a parameter: `now` is the time at which the source calls
    `Instant::now` or `elapsed`. Each method is proved against the functions of CacheSpec.dfy
    and of the module `ThroughCache` below. */
module ThroughCache {
  import opened Types
  import opened Paths
  import opened CacheSpec

  function ParentKey(path: string): Option<Key> {
    var parent := ParentPath(path);
    if parent.Some? then Some(NormalizePath(parent.value)) else None
  }

  /** The keys that `invalidate_with_parent` drops, in the order in which it drops them. */
  function InvalidationKeys(path: string): seq<Key> {
    var parent := ParentKey(path);
    (if parent.Some? then [parent.value] else []) + [NormalizePath(path)]
  }

  /** What a lookup's outcome means to a caller of `get_status`: `None` is "ask the master". */
  function StatusAnswer(found: Option<Slot>, path: string): Option<Result<FileInfo>> {
    if found.None? || !Servable(found.value) then None
    else match found.value
      case Present(info) => Some(Ok(info))
      case Absent => Some(Err(NotFound(path)))
  }

  /** The master has to be asked: the cache is not to be looked at, or has no answer. */
  predicate MustAsk(c: Cache, path: string, k: Key, sync: int, now: nat) {
    sync == 0 || StatusAnswer(LookupStatus(c, k, now).0, path).None?
  }

  /** Which answers of the master are written to the cache, and how. */
  function SlotOf(fetched: Result<FileInfo>): Option<Slot> {
    match fetched
    case Ok(info) => Some(Present(info))
    case Err(NotFound(_)) => Some(Absent)
    case Err(Other(_)) => None
  }

  function WriteBack(c: Cache, k: Key, fetched: Result<FileInfo>, stamp: nat): Cache {
    match SlotOf(fetched)
    case Some(slot) => PutStatus(c, k, slot, stamp)
    case None => c
  }

  /** `get_status_through_cache`, when the master would answer `fetched`. */
  function GetStatus(c: Cache, path: string, k: Key, sync: int, now: nat,
                     fetched: Result<FileInfo>, stamp: nat): (Result<FileInfo>, Cache)
  {
    if sync == 0 then (fetched, WriteBack(c, k, fetched, stamp))
    else
      var looked := LookupStatus(c, k, now);
      match StatusAnswer(looked.0, path)
      case Some(answer) => (answer, looked.1)
      case None => (fetched, WriteBack(looked.1, k, fetched, stamp))
  }

  /** `list_status_through_cache`, when the master would answer `fetched`. */
  function ListStatus(c: Cache, k: Key, skip: bool, now: nat,
                      fetched: Result<seq<FileInfo>>, stamp: nat): (Result<seq<FileInfo>>, Cache)
  {
    if skip then (fetched, c)
    else
      var looked := LookupListing(c, k, now);
      match looked.0
      case Some(list) => (Ok(list), looked.1)
      case None => (fetched, if fetched.Ok? then PutListing(looked.1, k, fetched.value, stamp) else looked.1)
  }

  /** Who answers a `get_status`, and what it leaves in the cache. With `sync == 0` it is always the
      master, and what the master says is cached unless it is an error other than not-found. */
  lemma GetStatusExactly(c: Cache, path: string, k: Key, sync: int, now: nat, fetched: Result<FileInfo>, stamp: nat)
    requires Valid(c)
    ensures
      var (r, c') := GetStatus(c, path, k, sync, now, fetched, stamp);
      var asked := sync == 0 || !HasAnswer(c, k, now);
      && asked == MustAsk(c, path, k, sync, now)
      && (asked ==> r == fetched)
      && (asked && fetched.Ok? ==> k in c'.items && c'.items[k].status == Some(Present(fetched.value)))
      && (asked && fetched.Err? && fetched.error.NotFound? ==> k in c'.items && c'.items[k].status == Some(Absent))
      && (asked && (fetched.Ok? || fetched.error.NotFound?) ==> c'.items[k].insertedAt == stamp)
      && (asked && fetched.Err? && fetched.error.Other? && sync == 0 ==> c' == c)
      && (!asked ==> c'.items == c.items)
      && (!asked && c.items[k].status.value.Present? ==> r == Ok(c.items[k].status.value.info))
      && (!asked && c.items[k].status.value.Absent? ==> r == Err(NotFound(path)))
  {
    StatusLookup(c, path, k, now);
    hide Valid, LookupStatus, HasAnswer, StatusAnswer;
    var before := if sync == 0 then c else LookupStatus(c, k, now).1;
    if SlotOf(fetched).Some? {
      PutItemKeeps(before, k, Item(SlotOf(fetched), ListingAt(before, k), stamp));
      hide PutItem;
    }
  }

  lemma StatusLookup(c: Cache, path: string, k: Key, now: nat)
    requires Valid(c)
    ensures var (found, c') := LookupStatus(c, k, now);
      && Valid(c')
      && (HasAnswer(c, k, now) <==> StatusAnswer(found, path).Some?)
      && (HasAnswer(c, k, now) ==>
            && k in c.items && c.items[k].status.Some? && c'.items == c.items
            && StatusAnswer(found, path) == Some(match c.items[k].status.value
                                                 case Present(info) => Ok(info)
                                                 case Absent => Err(NotFound(path))))
  {
    LookupKeeps(c, k, now);
  }

  /** Who answers a `list_status`, and what it leaves in the cache. With `skip` the cache is neither
      read nor written. */
  lemma ListStatusExactly(c: Cache, k: Key, skip: bool, now: nat, fetched: Result<seq<FileInfo>>, stamp: nat)
    requires Valid(c)
    ensures
      var (r, c') := ListStatus(c, k, skip, now, fetched, stamp);
      && (skip ==> r == fetched && c' == c)
      && (!skip && HasListing(c, k, now) ==> r == Ok(c.items[k].listing.value) && c'.items == c.items)
      && (!skip && !HasListing(c, k, now) ==> r == fetched)
      && (!skip && !HasListing(c, k, now) && fetched.Ok? ==>
            k in c'.items && c'.items[k].listing == Some(fetched.value) && c'.items[k].insertedAt == stamp)
  {
    ListingLookup(c, k, now);
    hide Valid, LookupListing, HasListing;
    var looked := LookupListing(c, k, now);
    if !skip && looked.0.None? && fetched.Ok? {
      PutItemKeeps(looked.1, k, Item(StatusAt(looked.1, k), Some(fetched.value), stamp));
      hide PutItem;
    }
  }

  lemma ListingLookup(c: Cache, k: Key, now: nat)
    requires Valid(c)
    ensures var (found, c') := LookupListing(c, k, now);
      && Valid(c')
      && (found.Some? <==> HasListing(c, k, now))
      && (found.Some? ==> k in c.items && found == c.items[k].listing && c'.items == c.items)
  {
    LookupKeeps(c, k, now);
  }

  /** The keys that a mutation drops are those of the path and of its parent, and no others. */
  lemma InvalidationKeysExactly(path: string, q: Key)
    ensures q in InvalidationKeys(path) <==>
      q == NormalizePath(path) || (ParentPath(path).Some? && q == NormalizePath(ParentPath(path).value))
  {
    hide NormalizePath, ParentPath;
  }

  /** Besides writing the master's answer as the status of `k`, a `get_status` only loses things. */
  lemma GetStatusKeeps(c: Cache, path: string, k: Key, sync: int, now: nat, fetched: Result<FileInfo>, stamp: nat)
    requires Valid(c)
    ensures var c' := GetStatus(c, path, k, sync, now, fetched, stamp).1;
      && Valid(c')
      && (forall q :: StatusAt(c', q).Some? ==>
            StatusAt(c', q) == StatusAt(c, q) || (q == k && StatusAt(c', q) == SlotOf(fetched)))
      && (forall q :: ListingAt(c', q).Some? ==> ListingAt(c', q) == ListingAt(c, q))
  {
    if sync == 0 {
      WriteBackKeeps(c, k, fetched, stamp);
    } else {
      LookupKeeps(c, k, now);
      var looked := LookupStatus(c, k, now);
      if StatusAnswer(looked.0, path).None? {
        WriteBackKeeps(looked.1, k, fetched, stamp);
      }
    }
  }

  lemma WriteBackKeeps(c: Cache, k: Key, fetched: Result<FileInfo>, stamp: nat)
    requires Valid(c)
    ensures var c' := WriteBack(c, k, fetched, stamp);
      && Valid(c')
      && (forall q :: StatusAt(c', q).Some? ==>
            StatusAt(c', q) == StatusAt(c, q) || (q == k && StatusAt(c', q) == SlotOf(fetched)))
      && (forall q :: ListingAt(c', q).Some? ==> ListingAt(c', q) == ListingAt(c, q))
  {
    var slot := SlotOf(fetched);
    if slot.Some? {
      PutItemKeeps(c, k, Item(slot, ListingAt(c, k), stamp));
    }
  }

  /** Besides writing the master's answer as the listing of `k`, a `list_status` only loses things. */
  lemma ListStatusKeeps(c: Cache, k: Key, skip: bool, now: nat, fetched: Result<seq<FileInfo>>, stamp: nat)
    requires Valid(c)
    ensures var c' := ListStatus(c, k, skip, now, fetched, stamp).1;
      && Valid(c')
      && (forall q :: StatusAt(c', q).Some? ==> StatusAt(c', q) == StatusAt(c, q))
      && (forall q :: ListingAt(c', q).Some? ==>
            ListingAt(c', q) == ListingAt(c, q) || (q == k && fetched == Ok(ListingAt(c', q).value)))
  {
    LookupKeeps(c, k, now);
    var c1 := LookupListing(c, k, now).1;
    assert Valid(c1) && OnlyLoses(c, c1);
    hide AfterLookup, Valid;
    if fetched.Ok? {
      PutItemKeeps(c1, k, Item(StatusAt(c1, k), Some(fetched.value), stamp));
      hide PutItem;
    }
  }
}

module MetadataCache {
  import opened Types
  import opened Paths
  import opened CacheSpec
  import opened ThroughCache

  class MetadataCache {
    const ttl: nat
    const cap: nat
    var order: seq<Key>
    var items: map<Key, Item>
    var hits: nat
    var misses: nat
    var expired: nat
    var invalidations: nat
    var negativeHits: nat

    /** The abstract value of the object. */
    function View(): Cache
      reads this
    {
      Cache(ttl, cap, order, items, Stats(hits, misses, expired, invalidations, negativeHits))
    }

    ghost predicate Ok()
      reads this
    {
      Valid(View())
    }

    constructor (ttl: nat, capacity: nat)
      requires 0 < ttl
      ensures Ok() && View() == Empty(ttl, capacity)
    {
      this.ttl := ttl;
      this.cap := if capacity == 0 then 1 else capacity;
      order, items := [], map[];
      hits, misses, expired, invalidations, negativeHits := 0, 0, 0, 0, 0;
    }

    /** No cache is built for a zero time to live. */
    static method MaybeNew(ttl: nat, capacity: nat) returns (c: MetadataCache?)
      ensures c == null <==> ttl == 0
      ensures c != null ==> fresh(c) && c.Ok() && c.View() == Empty(ttl, capacity)
    {
      if ttl == 0 {
        return null;
      }
      c := new MetadataCache(ttl, capacity);
    }

    // ----- The LRU map -----

    /** `LruCache::get` and `get_mut`. */
    method Promoted(k: Key)
      requires Ok() && k in items
      modifies this`order
      ensures Ok() && View() == Touch(old(View()), k)
    {
      TouchKeeps(View(), k);
      order := [k] + Without(order, k);
    }

    /** `LruCache::pop`. */
    method Popped(k: Key)
      requires Ok()
      modifies this`order, this`items
      ensures Ok() && View() == Pop(old(View()), k)
    {
      PopKeeps(View(), k);
      order, items := Without(order, k), items - {k};
    }

    /** Write an item: through `get_mut` if the key is there, else through `LruCache::put`,
        which makes room by throwing out the least recently used key. */
    method Written(k: Key, item: Item)
      requires Ok()
      modifies this`order, this`items
      ensures Ok() && View() == PutItem(old(View()), k, item)
    {
      PutItemKeeps(View(), k, item);
      if k in items {
        Promoted(k);
      } else if |order| < cap {
        order := [k] + order;
      } else {
        var last := |order| - 1;
        items := items - {order[last]};
        order := [k] + order[..last];
      }
      items := items[k := item];
    }

    /** `retain_fresh`. */
    method RetainFresh(k: Key, now: nat) returns (kept: bool)
      requires Ok()
      modifies this`order, this`items, this`expired
      ensures Ok() && View() == CacheSpec.RetainFresh(old(View()), k, now)
      ensures kept <==> Fresh(old(View()), k, now)
    {
      if k !in items {
        return false;
      }
      if Elapsed(items[k].insertedAt, now) >= ttl {
        Popped(k);
        expired := expired + 1;
        return false;
      }
      return true;
    }

    // ----- The operations, on a path that has been normalized -----

    /** The start of both lookups: `retain_fresh`, and a `get` of what it retains. */
    method FreshItem(k: Key, now: nat) returns (item: Option<Item>)
      requires Ok()
      modifies this`order, this`items, this`expired
      ensures Ok() && View() == AfterLookup(old(View()), k, now)
      ensures item == if Fresh(old(View()), k, now) then Some(old(items)[k]) else None
    {
      LookupKeeps(View(), k, now);
      var kept := RetainFresh(k, now);
      if !kept {
        return None;
      }
      Promoted(k);
      item := Some(items[k]);
    }

    /** Count a lookup: an incomplete status counts as a miss. */
    method Counted(found: Option<Slot>)
      modifies this`hits, this`misses, this`negativeHits
      ensures View() == old(View()).(stats := CountStatus(old(View()).stats, found))
    {
      match found {
        case Some(Present(info)) =>
          if IsCompleted(info) {
            hits := hits + 1;
          } else {
            misses := misses + 1;
          }
        case Some(Absent) =>
          hits := hits + 1;
          negativeHits := negativeHits + 1;
        case None =>
          misses := misses + 1;
      }
    }

    method StatusOf(k: Key, now: nat) returns (found: Option<Slot>)
      requires Ok()
      modifies this
      ensures Ok() && (found, View()) == CacheSpec.LookupStatus(old(View()), k, now)
    {
      var item := FreshItem(k, now);
      found := if item.Some? then item.value.status else None;
      StatsKeep(View(), CountStatus(View().stats, found));
      hide AfterLookup, Fresh, Valid, CountStatus;
      Counted(found);
    }

    method ListingOf(k: Key, now: nat) returns (found: Option<seq<FileInfo>>)
      requires Ok()
      modifies this
      ensures Ok() && (found, View()) == LookupListing(old(View()), k, now)
    {
      var item := FreshItem(k, now);
      StatsKeep(View(), CountListing(View().stats, if item.Some? then item.value.listing else None));
      hide AfterLookup, Fresh, Valid;
      found := if item.Some? then item.value.listing else None;
      if found.Some? {
        hits := hits + 1;
      } else {
        misses := misses + 1;
      }
    }

    method Dropped(k: Key)
      requires Ok()
      modifies this
      ensures Ok() && View() == CacheSpec.Invalidate(old(View()), k)
    {
      if k in items {
        Popped(k);
        invalidations := invalidations + 1;
      }
    }

    method DroppedBoth(parent: Option<Key>, k: Key)
      requires Ok()
      modifies this
      ensures Ok()
      ensures View() == InvalidateAll(old(View()), (if parent.Some? then [parent.value] else []) + [k])
    {
      if parent.Some? {
        Dropped(parent.value);
        assert ([parent.value] + [k])[1..] == [k];
      } else {
        assert [] + [k] == [k];
      }
      InvalidateOne(View(), k);
      Dropped(k);
    }

    // ----- The public operations -----

    method LookupStatus(path: string, now: nat) returns (found: Option<Slot>)
      requires Ok()
      modifies this
      ensures Ok() && (found, View()) == CacheSpec.LookupStatus(old(View()), NormalizePath(path), now)
    {
      hide NormalizePath;
      found := StatusOf(NormalizePath(path), now);
    }

    method GetListing(path: string, now: nat) returns (found: Option<seq<FileInfo>>)
      requires Ok()
      modifies this
      ensures Ok() && (found, View()) == LookupListing(old(View()), NormalizePath(path), now)
    {
      hide NormalizePath;
      found := ListingOf(NormalizePath(path), now);
    }

    /** `put_status`, behind `insert` and `insert_not_found`. */
    method InsertStatus(path: string, slot: Slot, now: nat)
      requires Ok()
      modifies this
      ensures Ok() && View() == PutStatus(old(View()), NormalizePath(path), slot, now)
    {
      hide NormalizePath;
      var k := NormalizePath(path);
      Written(k, Item(Some(slot), ListingAt(View(), k), now));
    }

    method InsertListing(path: string, list: seq<FileInfo>, now: nat)
      requires Ok()
      modifies this
      ensures Ok() && View() == PutListing(old(View()), NormalizePath(path), list, now)
    {
      hide NormalizePath;
      var k := NormalizePath(path);
      Written(k, Item(StatusAt(View(), k), Some(list), now));
    }

    method Invalidate(path: string)
      requires Ok()
      modifies this
      ensures Ok() && View() == CacheSpec.Invalidate(old(View()), NormalizePath(path))
    {
      hide NormalizePath;
      Dropped(NormalizePath(path));
    }

    /** The parent goes first. */
    method InvalidateWithParent(path: string)
      requires Ok()
      modifies this
      ensures Ok() && View() == InvalidateAll(old(View()), InvalidationKeys(path))
    {
      hide NormalizePath, ParentKey;
      DroppedBoth(ParentKey(path), NormalizePath(path));
    }
  }

  // ----- The helpers in front of the master -----

  /** After a mutation that the master answered with `result`: only success invalidates. */
  method InvalidateOnSuccess<T>(cache: MetadataCache?, path: string, result: Result<T>) returns (r: Result<T>)
    requires cache != null ==> cache.Ok()
    modifies cache
    ensures r == result
    ensures cache != null ==> cache.Ok()
    ensures cache != null && result.Ok? ==> cache.View() == InvalidateAll(old(cache.View()), InvalidationKeys(path))
    ensures cache != null && result.Err? ==> cache.View() == old(cache.View())
  {
    if result.Ok? && cache != null {
      cache.InvalidateWithParent(path);
    }
    r := result;
  }

  method InvalidateRenameOnSuccess<T>(cache: MetadataCache?, src: string, dst: string, result: Result<T>)
      returns (r: Result<T>)
    requires cache != null ==> cache.Ok()
    modifies cache
    ensures r == result
    ensures cache != null ==> cache.Ok()
    ensures cache != null && result.Ok? ==>
      cache.View() == InvalidateAll(InvalidateAll(old(cache.View()), InvalidationKeys(src)), InvalidationKeys(dst))
    ensures cache != null && result.Err? ==> cache.View() == old(cache.View())
  {
    if result.Ok? && cache != null {
      cache.InvalidateWithParent(src);
      cache.InvalidateWithParent(dst);
    }
    r := result;
  }

  /** `fetched` is what the master answers if it is asked, which happens only if `asked`. */
  method GetStatusThroughCache(cache: MetadataCache?, path: string, sync: int, now: nat,
                               fetched: Result<FileInfo>, stamp: nat)
      returns (r: Result<FileInfo>, asked: bool)
    requires cache != null ==> cache.Ok()
    modifies cache
    ensures cache == null ==> asked && r == fetched
    ensures cache != null ==>
      && cache.Ok()
      && (r, cache.View()) == GetStatus(old(cache.View()), path, NormalizePath(path), sync, now, fetched, stamp)
      && asked == MustAsk(old(cache.View()), path, NormalizePath(path), sync, now)
  {
    hide NormalizePath, CacheSpec.LookupStatus, PutStatus, Valid;
    asked := true;
    if cache != null && sync != 0 {
      var found := cache.LookupStatus(path, now);
      match found {
        case Some(Present(info)) =>
          if IsCompleted(info) {
            return Ok(info), false;
          }
        case Some(Absent) =>
          return Err(NotFound(path)), false;
        case None =>
      }
    }
    r := fetched;
    if cache != null {
      match fetched {
        case Ok(info) => cache.InsertStatus(path, Present(info), stamp);
        case Err(e) =>
          if e.IsNotFound() {
            cache.InsertStatus(path, Absent, stamp);
          }
      }
    }
  }

  method ListStatusThroughCache(cache: MetadataCache?, path: string, skip: bool, now: nat,
                                fetched: Result<seq<FileInfo>>, stamp: nat)
      returns (r: Result<seq<FileInfo>>, asked: bool)
    requires cache != null ==> cache.Ok()
    modifies cache
    ensures cache == null ==> asked && r == fetched
    ensures cache != null ==>
      && cache.Ok()
      && (r, cache.View()) == ListStatus(old(cache.View()), NormalizePath(path), skip, now, fetched, stamp)
      && (asked <==> (skip || LookupListing(old(cache.View()), NormalizePath(path), now).0.None?))
  {
    hide NormalizePath, LookupListing, PutListing, Valid;
    if cache != null && !skip {
      var found := cache.GetListing(path, now);
      if found.Some? {
        return Ok(found.value), false;
      }
    }
    r, asked := fetched, true;
    if fetched.Ok? && cache != null && !skip {
      cache.InsertListing(path, fetched.value, stamp);
    }
  }
}
