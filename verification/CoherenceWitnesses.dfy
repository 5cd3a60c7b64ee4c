/** Concrete runs of the coherence machine: each of them reaches what the theorems in
    Coherence.dfy leave open, so that the theorems cannot be improved. */
module CoherenceWitnesses {
  import opened Types
  import opened CacheSpec
  import opened Coherence
  import opened Rules

  /** A rule that limits at most who writes when. */
  predicate OnWrites(rule: Rule) {
    rule.Free? || rule.Careful? || (rule.Listed? && rule.allowed)
  }

  lemma StartFetch(rule: Rule, s0: State, s: State, k: Key) returns (s': State)
    requires OnWrites(rule) && Shaped(s0) && Shaped(s) && Leads(rule, s0, s) && s.gets == map[]
    ensures Leads(rule, s0, s') && s' == s.(gets := map[0 := Asking(k, s.now)])
  {
    hide Leads;
    s' := Then(rule, s0, s, LookStatus(0, k, false));
    assert s'.gets == map[0 := Asking(k, s.now)];
  }

  /** Ask the master about `k`, without looking at the cache first. */
  lemma Ask(rule: Rule, s0: State, s: State, k: Key) returns (s': State)
    requires OnWrites(rule) && Shaped(s0) && Shaped(s) && Leads(rule, s0, s) && s.gets == map[]
    ensures Leads(rule, s0, s')
    ensures s' == s.(gets := map[0 := Answered(k, s.now, Truth(Current(s), k), |s.log|, s.now)])
  {
    hide Leads;
    s' := StartFetch(rule, s0, s, k);
    s' := Then(rule, s0, s', AskMaster(0));
    assert s'.gets == map[0 := Answered(k, s.now, Truth(Current(s), k), |s.log|, s.now)];
  }

  /** Replace what the master holds, behind the client's back. */
  lemma Outside(rule: Rule, s0: State, s: State, after: Master) returns (s': State)
    requires OnWrites(rule) && Shaped(s0) && Shaped(s) && Leads(rule, s0, s)
    requires rule.Careful? ==> !rule.care.noOutsiders
    ensures Leads(rule, s0, s') && Shaped(s')
    ensures s' == s.(masters := s.masters + [after], since := s.since + [s.now], log := s'.log)
  {
    hide Leads;
    s' := Then(rule, s0, s, OutsideWrite(after));
  }

  /** Remove `k` at the master, through the client. */
  lemma Remove(rule: Rule, s0: State, s: State, k: Key) returns (s': State)
    requires OnWrites(rule) && Shaped(s0) && Shaped(s) && Leads(rule, s0, s)
    requires rule.Careful? ==> !rule.care.noOverlap
    ensures Leads(rule, s0, s') && Shaped(s') && Current(s') == Current(s) - {k}
    ensures s' == s.(masters := s'.masters, since := s'.since, log := s.log + [Wrote(true, {k})],
                     writes := s.writes[|s.log| := [k]])
  {
    hide Leads;
    s' := Then(rule, s0, s, ClientWrite([k], Current(s) - {k}));
    assert (set q | q in [k]) == {k};
  }

  /** Do the one invalidation that the client write `w` still has to do. */
  lemma Drop(rule: Rule, s0: State, s: State, w: nat, k: Key) returns (s': State)
    requires OnWrites(rule) && Shaped(s0) && Shaped(s) && Leads(rule, s0, s) && w in s.writes && s.writes[w] == [k]
    ensures Leads(rule, s0, s') && Shaped(s') && Current(s') == Current(s)
    ensures s' == s.(masters := s'.masters, since := s'.since, log := s.log + [Dropped(w, k)],
                     writes := s.writes[w := []], cache := Invalidate(s.cache, k))
  {
    hide Leads;
    assert s.writes[w][1..] == [];
    s' := Then(rule, s0, s, DropNext(w));
    assert s'.log == s.log + [Dropped(w, k)];
  }

  /** Write the answer that came in to the cache. */
  lemma Store(rule: Rule, s0: State, s: State) returns (s': State)
    requires OnWrites(rule) && Shaped(s0) && Shaped(s) && Leads(rule, s0, s) && Valid(s.cache)
    requires 0 in s.gets && s.gets[0].Answered? && s.gets[0].readAt <= s.now <= s.gets[0].readAt + s.statusBound
    ensures Leads(rule, s0, s') && Shaped(s') && Valid(s'.cache)
    ensures var g := s.gets[0];
      s' == s.(gets := s.gets - {0}, cache := PutStatus(s.cache, g.key, g.slot, s.now),
               origins := s.origins[g.key := Origin(g.read, |s.log|, g.readAt, s.now)])
    ensures var g := s.gets[0];
      && s'.cache.ttl == s.cache.ttl
      && g.key in s'.cache.items
      && s'.cache.items[g.key] == Item(Some(g.slot), ListingAt(s.cache, g.key), s.now)
  {
    hide Leads;
    var g := s.gets[0];
    PutItemKeeps(s.cache, g.key, Item(Some(g.slot), ListingAt(s.cache, g.key), s.now));
    TtlStep(s, WriteStatus(0, s.now));
    hide PutItem, Valid;
    s' := Then(rule, s0, s, WriteStatus(0, s.now));
  }

  /** Look for the listing of `k`, which is not cached. */
  lemma LookList(rule: Rule, s0: State, s: State, k: Key) returns (s': State)
    requires OnWrites(rule) && Shaped(s0) && Shaped(s) && Leads(rule, s0, s) && Valid(s.cache)
    requires s.lists == map[] && LookupListing(s.cache, k, s.now).0.None?
    ensures Leads(rule, s0, s') && Shaped(s') && Valid(s'.cache) && s'.cache.ttl == s.cache.ttl
    ensures s' == s.(cache := s'.cache, lists := map[0 := ListAsking(k, s.now)])
    ensures Fresh(s.cache, k, s.now) ==> k in s'.cache.items && s'.cache.items[k] == s.cache.items[k]
    ensures s.cache.items == map[] ==> s'.cache.items == map[]
  {
    hide Leads;
    LookupKeeps(s.cache, k, s.now);
    s' := Then(rule, s0, s, LookListing(0, k));
    assert s'.lists == map[0 := ListAsking(k, s.now)];
  }

  lemma AnswerList(rule: Rule, s0: State, s: State, k: Key, startedAt: nat) returns (s': State)
    requires OnWrites(rule) && Shaped(s0) && Shaped(s) && Leads(rule, s0, s)
    requires s.lists == map[0 := ListAsking(k, startedAt)] && k in Current(s)
    ensures Leads(rule, s0, s')
    ensures s' == s.(lists := map[0 := ListAnswered(k, startedAt, Current(s)[k].listing, |s.log|, s.now)])
  {
    hide Leads;
    s' := Then(rule, s0, s, AskListing(0));
    assert s'.lists == map[0 := ListAnswered(k, startedAt, Current(s)[k].listing, |s.log|, s.now)];
  }

  lemma StoreList(rule: Rule, s0: State, s: State) returns (s': State)
    requires OnWrites(rule) && Shaped(s0) && Shaped(s) && Leads(rule, s0, s) && Valid(s.cache)
    requires 0 in s.lists && s.lists[0].ListAnswered?
    requires s.lists[0].readAt <= s.now <= s.lists[0].startedAt + s.listBound
    ensures Leads(rule, s0, s') && Shaped(s') && Valid(s'.cache)
    ensures s' == s.(cache := s'.cache, listed := s'.listed, lists := s.lists - {0})
    ensures var l := s.lists[0];
      && s'.cache.ttl == s.cache.ttl
      && l.key in s'.cache.items
      && s'.cache.items[l.key] == Item(StatusAt(s.cache, l.key), Some(l.list), s.now)
  {
    hide Leads;
    var l := s.lists[0];
    PutItemKeeps(s.cache, l.key, Item(StatusAt(s.cache, l.key), Some(l.list), s.now));
    TtlStep(s, WriteListing(0, s.now));
    hide PutItem, Valid;
    s' := Then(rule, s0, s, WriteListing(0, s.now));
  }

  /** The master's answer for a listing, and its caching. */
  lemma FinishList(rule: Rule, s0: State, s: State, k: Key, startedAt: nat) returns (s': State)
    requires OnWrites(rule) && Shaped(s0) && Shaped(s) && Leads(rule, s0, s) && Valid(s.cache)
    requires s.lists == map[0 := ListAsking(k, startedAt)] && k in Current(s) && s.now <= startedAt + s.listBound
    ensures Leads(rule, s0, s') && Shaped(s') && Valid(s'.cache)
    ensures s' == s.(cache := s'.cache, listed := s'.listed, lists := s'.lists)
    ensures s'.cache.ttl == s.cache.ttl && k in s'.cache.items
    ensures s'.cache.items[k] == Item(StatusAt(s.cache, k), Some(Current(s)[k].listing), s.now)
  {
    hide Leads, Valid, Step, Enabled, Permits, OnWrites;
    s' := AnswerList(rule, s0, s, k, startedAt);
    s' := StoreList(rule, s0, s');
  }

  /** Look for the listing of `k` when its status is about to expire. */
  lemma LookLate(rule: Rule, s0: State, s: State, k: Key) returns (s': State)
    requires OnWrites(rule) && Shaped(s0) && Shaped(s) && Leads(rule, s0, s) && Valid(s.cache) && s.lists == map[]
    requires k in s.cache.items && s.cache.items[k].listing.None? && s.cache.items[k].insertedAt == s.now
    ensures Leads(rule, s0, s') && Shaped(s') && Valid(s'.cache) && s'.cache.ttl == s.cache.ttl > 0
    ensures s' == s.(now := s.now + s.cache.ttl - 1, cache := s'.cache, lists := map[0 := ListAsking(k, s'.now)])
    ensures k in s'.cache.items && s'.cache.items[k] == s.cache.items[k]
  {
    assert 0 < s.cache.ttl;
    hide Leads, Valid, Step, Enabled, Permits, OnWrites;
    s' := Wait(rule, s0, s, s.cache.ttl - 1);
    s' := LookList(rule, s0, s', k);
  }

  /** List `k` when its status is about to expire, and cache the listing as late as allowed. */
  lemma RenewByListing(rule: Rule, s0: State, s: State, k: Key) returns (s': State)
    requires OnWrites(rule) && Shaped(s0) && Shaped(s) && Leads(rule, s0, s) && Valid(s.cache) && s.lists == map[]
    requires k in s.cache.items && s.cache.items[k].listing.None? && s.cache.items[k].insertedAt == s.now
    requires k in Current(s)
    ensures Leads(rule, s0, s') && Shaped(s')
    ensures s'.now == s.now + s.cache.ttl - 1 + s.listBound
    ensures s'.cache.ttl == s.cache.ttl
    ensures k in s'.cache.items
    ensures s'.cache.items[k] == Item(s.cache.items[k].status, Some(Current(s)[k].listing), s'.now)
    ensures s'.masters == s.masters && s'.since == s.since && s'.origins == s.origins
  {
    hide Leads, Valid, Step, Enabled, Permits, OnWrites;
    s' := LookLate(rule, s0, s, k);
    var startedAt := s'.now;
    s' := Wait(rule, s0, s', s.listBound);
    s' := FinishList(rule, s0, s', k, startedAt);
  }

  /** Cache a status as late as allowed, when an outsider has replaced it long ago. */
  lemma StoreReplaced(rule: Rule, ttl: nat, listBound: nat, statusBound: nat, k: Key, entry: Entry, other: Entry)
      returns (s: State)
    requires OnWrites(rule) && !rule.Careful? && 0 < ttl
    ensures Shaped(s) && Valid(s.cache) && s.cache.ttl == ttl && s.listBound == listBound
    ensures Leads(rule, Start(ttl, 1, map[k := entry], listBound, statusBound), s)
    ensures s.masters == [map[k := entry], map[k := other]] && s.since == [0, 0] && s.now == statusBound
    ensures k in s.cache.items && s.cache.items[k] == Item(Some(Present(entry.info)), None, s.now)
    ensures k in s.origins && s.origins[k].wroteAt == statusBound && s.lists == map[]
  {
    var s0 := Start(ttl, 1, map[k := entry], listBound, statusBound);
    hide Leads, Valid, PutStatus, Step, Enabled, Permits;
    LeadsNowhere(rule, s0);
    s := Ask(rule, s0, s0, k);
    s := Outside(rule, s0, s, map[k := other]);
    s := Wait(rule, s0, s, statusBound);
    s := Store(rule, s0, s);
  }

  /** The bound on the age of a served status is reached, for every time to live and every
      pair of fetch bounds: the status that is served was the truth only at time 0. */
  lemma StalenessBoundIsReached(rule: Rule, ttl: nat, listBound: nat, statusBound: nat, k: Key, entry: Entry,
                                other: Entry) returns (s: State)
    requires OnWrites(rule) && !rule.Careful?
    requires 0 < ttl && IsCompleted(entry.info) && other.info != entry.info
    ensures Shaped(s) && Leads(rule, Start(ttl, 1, map[k := entry], listBound, statusBound), s)
    ensures Served(s, k) == Some(Present(entry.info))
    ensures s.now == 2 * ttl + listBound + statusBound - 2
    ensures k in s.origins && s.origins[k].wroteAt == statusBound
    ensures forall i, t :: WasTrue(s, k, Present(entry.info), i, t) ==> t == 0
  {
    hide Leads, Valid, WasTrue, Step, Enabled, Permits, OnWrites;
    var s0 := Start(ttl, 1, map[k := entry], listBound, statusBound);
    s := StoreReplaced(rule, ttl, listBound, statusBound, k, entry, other);
    s := RenewByListing(rule, s0, s, k);
    s := Wait(rule, s0, s, ttl - 1);
    TrueOnlyAtFirst(s, k, entry, other);
  }

  lemma TrueOnlyAtFirst(s: State, k: Key, entry: Entry, other: Entry)
    requires Shaped(s) && s.masters == [map[k := entry], map[k := other]] && s.since == [0, 0]
    requires other.info != entry.info
    ensures forall i, t :: WasTrue(s, k, Present(entry.info), i, t) ==> t == 0
  {
  }

  /** The race that `Explains` ends with does happen: all calls have returned, every
      invalidation has been done, nobody but this client has written, and still the cache
      serves a status that the master has replaced. */
  lemma QuietAndStale(rule: Rule, ttl: nat, listBound: nat, statusBound: nat, k: Key, entry: Entry)
      returns (s: State)
    requires OnWrites(rule) && (rule.Careful? ==> !rule.care.noOverlap)
    requires 0 < ttl && IsCompleted(entry.info)
    ensures Shaped(s) && Leads(rule, Start(ttl, 1, map[k := entry], listBound, statusBound), s)
    ensures s.gets == map[] && s.lists == map[] && (forall r, q :: !Pending(s, r, q))
    ensures forall e :: e in s.log && e.Wrote? ==> e.byClient
    ensures Served(s, k) == Some(Present(entry.info)) && Truth(Current(s), k) == Absent
  {
    var s0 := Start(ttl, 1, map[k := entry], listBound, statusBound);
    hide Leads, Valid, PutStatus, Step, Enabled, Permits;
    LeadsNowhere(rule, s0);
    s := Ask(rule, s0, s0, k);
    s := Remove(rule, s0, s, k);
    s := Drop(rule, s0, s, 0, k);
    InvalidateKeeps(s0.cache, k);
    s := Store(rule, s0, s);
  }

  /** The same with an outsider who removes the file, and no invalidation at all. */
  lemma OvertakenByOutsider(rule: Rule, ttl: nat, listBound: nat, statusBound: nat, k: Key, entry: Entry)
      returns (s: State)
    requires OnWrites(rule) && (rule.Careful? ==> !rule.care.noOutsiders)
    requires 0 < ttl && IsCompleted(entry.info)
    ensures Shaped(s) && Leads(rule, Start(ttl, 1, map[k := entry], listBound, statusBound), s)
    ensures forall r, q :: !Pending(s, r, q)
    ensures Served(s, k) == Some(Present(entry.info)) && Truth(Current(s), k) == Absent
  {
    var s0 := Start(ttl, 1, map[k := entry], listBound, statusBound);
    hide Leads, Valid, PutStatus, Step, Enabled, Permits;
    LeadsNowhere(rule, s0);
    s := Ask(rule, s0, s0, k);
    s := Outside(rule, s0, s, map[]);
    s := Store(rule, s0, s);
  }

  // ----- The same races of a listing -----

  /** All listings have been written, every invalidation has been done, and the cache serves a
      listing of what is no longer there. */
  lemma QuietAndStaleListing(rule: Rule, ttl: nat, listBound: nat, statusBound: nat, k: Key, entry: Entry,
                             outsider: bool) returns (s: State)
    requires OnWrites(rule) && 0 < ttl
    requires rule.Careful? ==> if outsider then !rule.care.noOutsiders else !rule.care.noOverlap
    ensures Shaped(s) && Leads(rule, Start(ttl, 1, map[k := entry], listBound, statusBound), s)
    ensures forall r, q :: !Pending(s, r, q)
    ensures LookupListing(s.cache, k, s.now).0 == Some(entry.listing) && TrueListing(Current(s), k) == None
  {
    var s0 := Start(ttl, 1, map[k := entry], listBound, statusBound);
    hide Leads, Valid;
    LeadsNowhere(rule, s0);
    s := LookList(rule, s0, s0, k);
    s := AnswerList(rule, s0, s, k, 0);
    hide Step, Enabled, Permits;
    if outsider {
      s := Outside(rule, s0, s, map[]);
    } else {
      s := Remove(rule, s0, s, k);
      InvalidateKeeps(s.cache, k);
      s := Drop(rule, s0, s, 0, k);
    }
    s := StoreList(rule, s0, s);
  }
}
