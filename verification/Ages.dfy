/** How old a served listing can be, and what renews an item of the metadata cache
    (src/metadata_cache.rs:197-215, 286-320): status and listing share one clock, which every write
    of either restarts. The machine is the one of Coherence.dfy. */
module Ages {
  import opened Types
  import opened CacheSpec
  import opened Coherence
  import opened Rules

  /** The listing that a caller using the cache gets for `k` without asking the master. */
  function ServedListing(s: State, k: Key): Option<seq<FileInfo>> {
    LookupListing(s.cache, k, s.now).0
  }

  // ----- What a step does to an item -----

  /** An item after a step is the one that the step wrote, or was there before. */
  lemma ItemAfter(s: State, a: Action, q: Key)
    requires Shaped(s) && Enabled(s, a) && Valid(s.cache) && q in CacheAfter(s, a).items
    ensures
      var item := CacheAfter(s, a).items[q];
      if a.WriteStatus? && q == s.gets[a.id].key then
        item == Item(Some(s.gets[a.id].slot), ListingAt(s.cache, q), a.stamp)
      else if a.WriteListing? && q == s.lists[a.id].key then
        item == Item(StatusAt(s.cache, q), Some(s.lists[a.id].list), a.stamp)
      else q in s.cache.items && item == s.cache.items[q]
    ensures a.LookStatus? && a.useCache && q == a.key ==> Fresh(s.cache, q, s.now)
  {
    assert 0 < s.cache.ttl;
    hide Valid, PutItem, AfterLookup;
    match a
    case LookStatus(_, key, _) => LookupKeeps(s.cache, key, s.now);
    case LookListing(_, key) => LookupKeeps(s.cache, key, s.now);
    case WriteStatus(id, stamp) =>
      var g := s.gets[id];
      PutItemKeeps(s.cache, g.key, Item(Some(g.slot), ListingAt(s.cache, g.key), stamp));
    case WriteListing(id, stamp) =>
      var l := s.lists[id];
      PutItemKeeps(s.cache, l.key, Item(StatusAt(s.cache, l.key), Some(l.list), stamp));
    case DropNext(w) => InvalidateKeeps(s.cache, s.writes[w][0]);
    case Forget(key) => InvalidateKeeps(s.cache, key);
    case _ =>
  }

  // ----- Younger than the time to live, unless renewed -----

  /** The clock of an item was set no later than its status was written, or than its listing was,
      whichever came last. */
  ghost predicate Stamped(s: State, q: Key) {
    q in s.cache.items ==>
      var item := s.cache.items[q];
      && (item.status.Some? ==> q in s.origins)
      && (item.listing.Some? ==> q in s.listed && s.listed[q].wroteAt <= s.now)
      && ((item.status.Some? && item.insertedAt <= s.origins[q].wroteAt
             && (item.listing.Some? ==> s.listed[q].wroteAt <= s.origins[q].wroteAt))
          || (item.listing.Some? && item.insertedAt <= s.listed[q].wroteAt
             && (item.status.Some? ==> s.origins[q].wroteAt <= s.listed[q].wroteAt)))
  }

  lemma StampedStep(s: State, a: Action, q: Key)
    requires Shaped(s) && Enabled(s, a) && OriginInv(s) && Stamped(s, q)
    ensures Stamped(Step(s, a), q)
  {
    hide Valid, WasTrue;
    if q in Step(s, a).cache.items {
      ItemAfter(s, a, q);
      hide CacheAfter;
    }
  }

  lemma {:induction false} RunStamped(s: State, run: seq<Action>, q: Key)
    requires Inv(s) && Legal(s, run) && Stamped(s, q)
    ensures Stamped(After(s, run), q)
    decreases |run|
  {
    if run != [] {
      InvStep(s, run[0]);
      StampedStep(s, run[0], q);
      hide Inv, Step, Stamped;
      RunStamped(Step(s, run[0]), run[1..], q);
    }
  }

  /** A status served from the cache was written less than the time to live ago, or else a listing
      of the same key has been written since, and that less than the time to live ago. The same
      holds with status and listing exchanged. */
  lemma YoungUnlessRenewed(ttl: nat, capacity: nat, master: Master, listBound: nat, statusBound: nat,
                           run: seq<Action>, q: Key)
    requires 0 < ttl
    requires Legal(Start(ttl, capacity, master, listBound, statusBound), run)
    ensures
      var s := After(Start(ttl, capacity, master, listBound, statusBound), run);
      Served(s, q).Some? ==>
        && q in s.origins
        && (s.now - s.origins[q].wroteAt < ttl
            || (q in s.listed && s.origins[q].wroteAt <= s.listed[q].wroteAt && s.now - s.listed[q].wroteAt < ttl))
    ensures
      var s := After(Start(ttl, capacity, master, listBound, statusBound), run);
      ServedListing(s, q).Some? ==>
        && q in s.listed
        && (s.now - s.listed[q].wroteAt < ttl
            || (q in s.origins && s.listed[q].wroteAt <= s.origins[q].wroteAt && s.now - s.origins[q].wroteAt < ttl))
  {
    var s0 := Start(ttl, capacity, master, listBound, statusBound);
    StartKeepsInv(ttl, capacity, master, listBound, statusBound);
    RunStamped(s0, run, q);
    RunKeepsInv(s0, run);
    hide Inv, Legal, After;
  }

  // ----- How old a served listing can be -----

  /** Under this policy the age of a listing is bounded: callers look first, and what they find is
      either good enough to be served, or it cannot get older between lookup and write. */
  predicate Bounding(p: Policy, ttl: nat, getBound: nat) {
    p.lookup && (p.servable || ttl + getBound == 1)
  }

  /** Statuses of `q`, fetched and cached, can be served. */
  ghost predicate ServableInv(q: Key, s: State) {
    && (StatusAt(s.cache, q).Some? ==> Servable(StatusAt(s.cache, q).value))
    && (forall id :: id in s.gets && s.gets[id].Answered? && s.gets[id].key == q ==> Servable(s.gets[id].slot))
  }

  /** Time stamps against the time at which the listing was written. A status may have renewed the
      clock, but only a status whose fetch started while the listing was still fresh. */
  ghost predicate ListingInv(getBound: nat, q: Key, s: State) {
    && (ListingAt(s.cache, q).Some? ==>
          && q in s.listed
          && s.cache.items[q].insertedAt < s.listed[q].wroteAt + s.cache.ttl + getBound
          && (s.cache.items[q].status.None? ==> s.cache.items[q].insertedAt <= s.listed[q].wroteAt))
    && (forall id :: id in s.gets && s.gets[id].key == q ==>
          && s.gets[id].startedAt <= s.now
          && (ListingAt(s.cache, q).Some? ==> s.gets[id].startedAt < s.listed[q].wroteAt + s.cache.ttl))
  }

  lemma ServableStep(p: Policy, getBound: nat, q: Key, s: State, a: Action)
    requires Shaped(s) && Enabled(s, a) && Valid(s.cache) && Permits(Look(p, getBound, q), s, a)
    requires p.servable && ServableInv(q, s)
    ensures ServableInv(q, Step(s, a))
  {
    hide Valid;
    if q in CacheAfter(s, a).items {
      ItemAfter(s, a, q);
    }
    hide CacheAfter, Served, ListedAfter, OriginsAfter, ListsAfter, WritesAfter, EventOf;
  }

  /** A lookup of `q` that starts a fetch and leaves a listing in the cache found the listing
      fresh, and no status that had renewed it. */
  lemma LookupFindsFresh(p: Policy, getBound: nat, q: Key, s: State, a: Action)
    requires Shaped(s) && Enabled(s, a) && Valid(s.cache) && Permits(Look(p, getBound, q), s, a)
    requires Bounding(p, s.cache.ttl, getBound) && ListingInv(getBound, q, s) && (p.servable ==> ServableInv(q, s))
    requires a.LookStatus? && a.key == q && Served(s, q).None? && ListingAt(CacheAfter(s, a), q).Some?
    ensures s.now < s.listed[q].wroteAt + s.cache.ttl
  {
    hide Valid;
    ItemAfter(s, a, q);
    hide CacheAfter;
  }

  lemma ListingItemStep(p: Policy, getBound: nat, q: Key, s: State, a: Action)
    requires Shaped(s) && Enabled(s, a) && Valid(s.cache) && Permits(Look(p, getBound, q), s, a)
    requires ListingInv(getBound, q, s)
    requires ListingAt(Step(s, a).cache, q).Some?
    ensures
      var s' := Step(s, a);
      && q in s'.listed
      && s'.cache.ttl == s.cache.ttl
      && s'.cache.items[q].insertedAt < s'.listed[q].wroteAt + s'.cache.ttl + getBound
      && (s'.cache.items[q].status.None? ==> s'.cache.items[q].insertedAt <= s'.listed[q].wroteAt)
      && (if a.WriteListing? && s.lists[a.id].key == q then s'.listed[q].wroteAt == s.now
          else ListingAt(s.cache, q).Some? && s'.listed[q] == s.listed[q])
  {
    TtlStep(s, a);
    ItemAfter(s, a, q);
    hide Valid, CacheAfter, GetsAfter, ListsAfter, WritesAfter, OriginsAfter, EventOf;
  }

  lemma ListingStep(p: Policy, getBound: nat, q: Key, s: State, a: Action)
    requires Shaped(s) && Enabled(s, a) && Valid(s.cache) && Permits(Look(p, getBound, q), s, a)
    requires Bounding(p, s.cache.ttl, getBound) && ListingInv(getBound, q, s) && (p.servable ==> ServableInv(q, s))
    ensures ListingInv(getBound, q, Step(s, a))
  {
    var s' := Step(s, a);
    if ListingAt(s'.cache, q).Some? {
      ListingItemStep(p, getBound, q, s, a);
      if a.LookStatus? && a.key == q && Served(s, q).None? {
        LookupFindsFresh(p, getBound, q, s, a);
      }
    }
    TtlStep(s, a);
    hide Valid, CacheAfter, Served, ListedAfter, OriginsAfter, ListsAfter, WritesAfter, EventOf, ServableInv;
  }

  lemma {:induction false} RunBoundsListing(p: Policy, getBound: nat, q: Key, s: State, run: seq<Action>)
    requires Inv(s) && Legal(s, run) && AllPermitted(Look(p, getBound, q), s, run)
    requires Bounding(p, s.cache.ttl, getBound) && ListingInv(getBound, q, s) && (p.servable ==> ServableInv(q, s))
    ensures ListingInv(getBound, q, After(s, run))
    ensures After(s, run).cache.ttl == s.cache.ttl
    decreases |run|
  {
    if run != [] {
      InvStep(s, run[0]);
      ListingStep(p, getBound, q, s, run[0]);
      if p.servable {
        ServableStep(p, getBound, q, s, run[0]);
      }
      hide Inv, Step, ListingInv, ServableInv, Permits, Enabled;
      RunBoundsListing(p, getBound, q, Step(s, run[0]), run[1..]);
    }
  }

  /** The age of every listing of `q` that is served after a permitted run is at most `age`. */
  ghost predicate ListingAgeWithin(p: Policy, ttl: nat, listBound: nat, statusBound: nat, getBound: nat, q: Key,
                                   age: int)
    requires 0 < ttl
  {
    forall capacity, master, run ::
      var s0 := Start(ttl, capacity, master, listBound, statusBound);
      Legal(s0, run) && AllPermitted(Look(p, getBound, q), s0, run) && ServedListing(After(s0, run), q).Some? ==>
        q in After(s0, run).listed && After(s0, run).now - After(s0, run).listed[q].wroteAt <= age
  }

  /** Main theorem on the age of listings, the mirror image of `BoundedStaleness`. */
  lemma BoundedListingAge(p: Policy, ttl: nat, listBound: nat, statusBound: nat, getBound: nat, q: Key,
                          capacity: nat, master: Master, run: seq<Action>)
    requires 0 < ttl && Bounding(p, ttl, getBound)
    requires Legal(Start(ttl, capacity, master, listBound, statusBound), run)
    requires AllPermitted(Look(p, getBound, q), Start(ttl, capacity, master, listBound, statusBound), run)
    ensures
      var s := After(Start(ttl, capacity, master, listBound, statusBound), run);
      ServedListing(s, q).Some? ==> q in s.listed && s.now - s.listed[q].wroteAt <= 2 * ttl + getBound - 2
  {
    var s0 := Start(ttl, capacity, master, listBound, statusBound);
    StartKeepsInv(ttl, capacity, master, listBound, statusBound);
    RunBoundsListing(p, getBound, q, s0, run);
    hide Inv, Legal, After, AllPermitted;
  }
}

/** Runs that reach the bound on the age of listings, and runs that exceed every bound where there
    is none. */
module AgeWitnesses {
  import opened Types
  import opened Arithmetic
  import opened CacheSpec
  import opened Coherence
  import opened Rules
  import CoherenceWitnesses
  import opened Ages

  /** Nothing is being fetched, and the listing of `q`, written at time 0, is in the cache. */
  ghost predicate Holds(s: State, q: Key, list: seq<FileInfo>) {
    && Shaped(s) && Valid(s.cache)
    && s.gets == map[]
    && q in s.cache.items && s.cache.items[q].listing == Some(list)
    && q in s.listed && s.listed[q].wroteAt == 0
  }

  /** List `q` at time 0. */
  lemma ListFirst(p: Policy, ttl: nat, listBound: nat, statusBound: nat, getBound: nat, q: Key, entry: Entry)
      returns (s: State)
    requires 0 < ttl
    ensures Holds(s, q, entry.listing)
    ensures Leads(Look(p, getBound, q), Start(ttl, 1, map[q := entry], listBound, statusBound), s)
    ensures s.now == 0 && s.cache.ttl == ttl && Current(s) == map[q := entry]
    ensures s.cache.items[q] == Item(None, Some(entry.listing), 0)
  {
    hide Leads, PutItem;
    var s0 := Start(ttl, 1, map[q := entry], listBound, statusBound);
    LeadsNowhere(Look(p, getBound, q), s0);
    s := Then(Look(p, getBound, q), s0, s0, LookListing(1, q));
    assert s.lists == map[1 := ListAsking(q, 0)];
    s := Then(Look(p, getBound, q), s0, s, AskListing(1));
    PutItemKeeps(s.cache, q, Item(None, Some(entry.listing), 0));
    TtlStep(s, WriteListing(1, 0));
    s := Then(Look(p, getBound, q), s0, s, WriteListing(1, 0));
  }

  /** Fetch the status of `q` from the master, taking all the time there is, and write it. */
  lemma Refetch(p: Policy, getBound: nat, q: Key, s0: State, s: State, list: seq<FileInfo>, useCache: bool)
      returns (s': State)
    requires Shaped(s0) && Holds(s, q, list) && Leads(Look(p, getBound, q), s0, s)
    requires p.lookup ==> useCache
    requires useCache ==> Fresh(s.cache, q, s.now) && Served(s, q).None?
    requires p.servable ==> Servable(Truth(Current(s), q))
    ensures Holds(s', q, list) && Leads(Look(p, getBound, q), s0, s')
    ensures s'.now == s.now + getBound && s'.cache.ttl == s.cache.ttl && Current(s') == Current(s)
    ensures s'.cache.items[q] == Item(Some(Truth(Current(s), q)), Some(list), s'.now)
  {
    hide Leads, PutItem, Valid;
    s' := Looked(p, getBound, q, s0, s, list, useCache);
    s' := Wait(Look(p, getBound, q), s0, s', getBound);
    s' := Then(Look(p, getBound, q), s0, s', AskMaster(0));
    PutItemKeeps(s'.cache, q, Item(Some(Truth(Current(s), q)), Some(list), s'.now));
    TtlStep(s', WriteStatus(0, s'.now));
    s' := Then(Look(p, getBound, q), s0, s', WriteStatus(0, s'.now));
    assert s'.gets == map[];
  }

  lemma Looked(p: Policy, getBound: nat, q: Key, s0: State, s: State, list: seq<FileInfo>, useCache: bool)
      returns (s': State)
    requires Shaped(s0) && Holds(s, q, list) && Leads(Look(p, getBound, q), s0, s)
    requires p.lookup ==> useCache
    requires useCache ==> Fresh(s.cache, q, s.now) && Served(s, q).None?
    ensures Leads(Look(p, getBound, q), s0, s')
    ensures s' == s.(cache := s'.cache, gets := map[0 := Asking(q, s.now)])
    ensures Valid(s'.cache) && s'.cache.ttl == s.cache.ttl && ListingAt(s'.cache, q) == Some(list)
  {
    hide Leads;
    LookupKeeps(s.cache, q, s.now);
    s' := Then(Look(p, getBound, q), s0, s, LookStatus(0, q, useCache));
    assert s'.gets == map[0 := Asking(q, s.now)];
  }

  /** The bound is reached, for every time to live and every duration of fetches: a listing is
      served that was written at time 0. */
  lemma ListingBoundIsReached(p: Policy, ttl: nat, listBound: nat, statusBound: nat, getBound: nat,
                              q: Key, entry: Entry) returns (s: State)
    requires 0 < ttl && (p.servable ==> IsCompleted(entry.info))
    ensures Shaped(s) && Leads(Look(p, getBound, q), Start(ttl, 1, map[q := entry], listBound, statusBound), s)
    ensures ServedListing(s, q) == Some(entry.listing) && q in s.listed && s.listed[q].wroteAt == 0
    ensures s.now == 2 * ttl + getBound - 2
  {
    hide Leads, Valid;
    var s0 := Start(ttl, 1, map[q := entry], listBound, statusBound);
    s := ListFirst(p, ttl, listBound, statusBound, getBound, q, entry);
    s := Wait(Look(p, getBound, q), s0, s, ttl - 1);
    s := Refetch(p, getBound, q, s0, s, entry.listing, true);
    s := Wait(Look(p, getBound, q), s0, s, ttl - 1);
  }

  /** A caller with `sync_interval_ms == 0` does not look whether the item has expired before it
      writes: the listing is served at any time `n`. */
  lemma ListingRevived(p: Policy, ttl: nat, listBound: nat, statusBound: nat, getBound: nat,
                       q: Key, entry: Entry, n: nat) returns (s: State)
    requires 0 < ttl && !p.lookup && (p.servable ==> IsCompleted(entry.info))
    ensures Shaped(s) && Leads(Look(p, getBound, q), Start(ttl, 1, map[q := entry], listBound, statusBound), s)
    ensures ServedListing(s, q) == Some(entry.listing) && q in s.listed && s.listed[q].wroteAt == 0
    ensures s.now >= n
  {
    hide Leads, Valid;
    var s0 := Start(ttl, 1, map[q := entry], listBound, statusBound);
    s := ListFirst(p, ttl, listBound, statusBound, getBound, q, entry);
    s := Wait(Look(p, getBound, q), s0, s, n);
    s := Refetch(p, getBound, q, s0, s, entry.listing, false);
  }

  /** An incomplete status is cached but never served: every `get_status` fetches it again, and
      every time restarts the clock of the listing. */
  lemma {:induction false} ListingKeptAlive(p: Policy, ttl: nat, listBound: nat, statusBound: nat, getBound: nat,
                                            q: Key, entry: Entry, rounds: nat) returns (s: State)
    requires 0 < ttl && !p.servable && !IsCompleted(entry.info)
    ensures Shaped(s) && Holds(s, q, entry.listing) && q in s.listed
    ensures Leads(Look(p, getBound, q), Start(ttl, 1, map[q := entry], listBound, statusBound), s)
    ensures s.cache.ttl == ttl && Current(s) == map[q := entry] && s.listed[q].wroteAt == 0
    ensures s.cache.items[q].insertedAt == s.now && Served(s, q).None? && ServedListing(s, q) == Some(entry.listing)
    ensures s.now == rounds * (ttl - 1 + getBound)
  {
    hide Leads, Valid;
    if rounds == 0 {
      s := ListFirst(p, ttl, listBound, statusBound, getBound, q, entry);
    } else {
      var s0 := Start(ttl, 1, map[q := entry], listBound, statusBound);
      s := ListingKeptAlive(p, ttl, listBound, statusBound, getBound, q, entry, rounds - 1);
      s := Wait(Look(p, getBound, q), s0, s, ttl - 1);
      s := Refetch(p, getBound, q, s0, s, entry.listing, true);
      assert rounds * (ttl - 1 + getBound) == (rounds - 1) * (ttl - 1 + getBound) + (ttl - 1 + getBound);
    }
  }

  /** A run whose served listing is older than `age`. */
  lemma TooOld(p: Policy, ttl: nat, listBound: nat, statusBound: nat, getBound: nat, q: Key, master: Master,
               s: State, age: int)
    requires 0 < ttl && Shaped(s)
    requires Leads(Look(p, getBound, q), Start(ttl, 1, master, listBound, statusBound), s)
    requires ServedListing(s, q).Some? && q in s.listed && s.now - s.listed[q].wroteAt > age
    ensures !ListingAgeWithin(p, ttl, listBound, statusBound, getBound, q, age)
  {
    hide ServedListing;
    var s0 := Start(ttl, 1, master, listBound, statusBound);
    var run :| Legal(s0, run) && AllPermitted(Look(p, getBound, q), s0, run) && After(s0, run) == s;
    hide Legal, AllPermitted, After, Start;
  }

  lemma BeyondEveryAge(p: Policy, ttl: nat, listBound: nat, statusBound: nat, getBound: nat, q: Key, age: nat)
    requires 0 < ttl && !Bounding(p, ttl, getBound)
    ensures !ListingAgeWithin(p, ttl, listBound, statusBound, getBound, q, age)
  {
    hide Leads, Holds, ListingAgeWithin, ServedListing, Served, Start;
    var entry := Entry(FileInfo(None, Some(!p.lookup), None, [], [], None), []);
    if !p.lookup {
      var s := ListingRevived(p, ttl, listBound, statusBound, getBound, q, entry, age + 1);
      TooOld(p, ttl, listBound, statusBound, getBound, q, map[q := entry], s, age);
    } else {
      var s := ListingKeptAlive(p, ttl, listBound, statusBound, getBound, q, entry, age + 1);
      MulMonotone(age + 1, 1, ttl - 1 + getBound);
      TooOld(p, ttl, listBound, statusBound, getBound, q, map[q := entry], s, age);
    }
  }

  /** The age of served listings is bounded if and only if all callers look into the cache first
      and the master never answers with an incomplete file (or the item cannot get older between
      a lookup and a write). */
  lemma ListingAgeBoundedExactly(p: Policy, ttl: nat, listBound: nat, statusBound: nat, getBound: nat, q: Key)
    requires 0 < ttl
    ensures (exists age: nat :: ListingAgeWithin(p, ttl, listBound, statusBound, getBound, q, age))
       <==> Bounding(p, ttl, getBound)
    ensures Bounding(p, ttl, getBound) ==>
      ListingAgeWithin(p, ttl, listBound, statusBound, getBound, q, 2 * ttl + getBound - 2)
  {
    if Bounding(p, ttl, getBound) {
      forall capacity, master, run |
        var s0 := Start(ttl, capacity, master, listBound, statusBound);
        Legal(s0, run) && AllPermitted(Look(p, getBound, q), s0, run) && ServedListing(After(s0, run), q).Some?
        ensures
          var s := After(Start(ttl, capacity, master, listBound, statusBound), run);
          q in s.listed && s.now - s.listed[q].wroteAt <= 2 * ttl + getBound - 2
      {
        BoundedListingAge(p, ttl, listBound, statusBound, getBound, q, capacity, master, run);
      }
      assert ListingAgeWithin(p, ttl, listBound, statusBound, getBound, q, 2 * ttl + getBound - 2);
    } else {
      forall age: nat ensures !ListingAgeWithin(p, ttl, listBound, statusBound, getBound, q, age) {
        BeyondEveryAge(p, ttl, listBound, statusBound, getBound, q, age);
      }
    }
  }

  // ----- When a served status is younger than the time to live -----

  /** After every run that keeps the rule a served status was written less than the time to live
      ago. */
  ghost predicate AlwaysYoung(ttl: nat, listBound: nat, statusBound: nat, allowed: bool, q: Key)
    requires 0 < ttl
  {
    forall capacity, master, run ::
      var s0 := Start(ttl, capacity, master, listBound, statusBound);
      Legal(s0, run) && AllPermitted(Listed(allowed, q), s0, run) && Served(After(s0, run), q).Some? ==>
        q in After(s0, run).origins && After(s0, run).now - After(s0, run).origins[q].wroteAt < ttl
  }

  lemma {:induction false} NeverListed(s: State, run: seq<Action>, q: Key)
    requires Shaped(s) && Legal(s, run) && AllPermitted(Listed(false, q), s, run) && q !in s.listed
    ensures q !in After(s, run).listed
    decreases |run|
  {
    hide CacheAfter, GetsAfter, ListsAfter, OriginsAfter, WritesAfter, EventOf;
    if run != [] {
      NeverListed(Step(s, run[0]), run[1..], q);
    }
  }

  lemma YoungRun(ttl: nat, listBound: nat, statusBound: nat, allowed: bool, q: Key,
                 capacity: nat, master: Master, run: seq<Action>)
    requires 0 < ttl && (!allowed || ttl + listBound == 1)
    requires Legal(Start(ttl, capacity, master, listBound, statusBound), run)
    requires AllPermitted(Listed(allowed, q), Start(ttl, capacity, master, listBound, statusBound), run)
    ensures
      var s := After(Start(ttl, capacity, master, listBound, statusBound), run);
      Served(s, q).Some? ==> q in s.origins && s.now - s.origins[q].wroteAt < ttl
  {
    hide Legal, AllPermitted, After, Served;
    YoungUnlessRenewed(ttl, capacity, master, listBound, statusBound, run, q);
    if !allowed {
      NeverListed(Start(ttl, capacity, master, listBound, statusBound), run, q);
    } else {
      BoundedStaleness(ttl, capacity, master, listBound, statusBound, run, q);
    }
  }

  lemma OldRun(ttl: nat, listBound: nat, statusBound: nat, q: Key)
    requires 0 < ttl && ttl + listBound > 1
    ensures !AlwaysYoung(ttl, listBound, statusBound, true, q)
  {
    hide Leads, Served;
    var info := FileInfo(None, Some(true), None, [], [], None);
    var entry, other := Entry(info, []), Entry(info.(length := Some(0)), []);
    var s0 := Start(ttl, 1, map[q := entry], listBound, statusBound);
    var s := CoherenceWitnesses.StalenessBoundIsReached(Listed(true, q), ttl, listBound, statusBound, q, entry, other);
    RunTo(Listed(true, q), s0, s);
    hide Legal, AllPermitted, After, Start;
  }

  lemma RunTo(rule: Rule, s0: State, s: State)
    requires Shaped(s0) && Leads(rule, s0, s)
    ensures exists run :: Legal(s0, run) && AllPermitted(rule, s0, run) && After(s0, run) == s
  {
  }

  /** Served statuses are younger than the time to live if and only if no listing of the same key is
      ever cached (or a listing cannot add anything to the age of a status). */
  lemma YoungExactly(ttl: nat, listBound: nat, statusBound: nat, allowed: bool, q: Key)
    requires 0 < ttl
    ensures AlwaysYoung(ttl, listBound, statusBound, allowed, q) <==> !allowed || ttl + listBound == 1
  {
    if !allowed || ttl + listBound == 1 {
      hide Served;
      forall capacity, master, run |
        var s0 := Start(ttl, capacity, master, listBound, statusBound);
        Legal(s0, run) && AllPermitted(Listed(allowed, q), s0, run) && Served(After(s0, run), q).Some?
        ensures
          var s := After(Start(ttl, capacity, master, listBound, statusBound), run);
          q in s.origins && s.now - s.origins[q].wroteAt < ttl
      {
        YoungRun(ttl, listBound, statusBound, allowed, q, capacity, master, run);
      }
    } else {
      OldRun(ttl, listBound, statusBound, q);
    }
  }
}
