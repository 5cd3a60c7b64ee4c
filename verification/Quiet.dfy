/** Why a cached listing can be stale, and exactly when there is nothing stale in the cache once all
    invalidations have been done (src/metadata_cache.rs:398-504). The machine is the one of
    Coherence.dfy. */
module ListingCoherence {
  import opened Types
  import opened CacheSpec
  import opened Coherence
  import opened Rules
  import opened Ages

  /** Event `r` explains why the listing cached for `q` is stale, as `Explains` does for a status. */
  ghost predicate ListingExplains(s: State, q: Key, r: nat)
    requires Shaped(s) && q in s.listed
  {
    && s.listed[q].read <= r < |s.log|
    && s.log[r].Wrote? && ListingChangedAt(s, r, q)
    && (!s.log[r].byClient || Pending(s, r, q) || DroppedBefore(s, r, q, s.listed[q].wrote))
  }

  /** A listing was what the master held when it was read. */
  ghost predicate WasListed(s: State, q: Key, list: seq<FileInfo>, read: nat)
    requires Shaped(s)
  {
    read <= |s.log| && TrueListing(s.masters[read], q) == Some(list)
  }

  /** Listings in the cache come from the master, and are younger than the invalidations of their
      key. */
  ghost predicate ListingOrigin(s: State, q: Key)
    requires Shaped(s)
  {
    && (ListingAt(s.cache, q).Some? ==>
          && q in s.listed
          && WasListed(s, q, ListingAt(s.cache, q).value, s.listed[q].read)
          && s.listed[q].read <= s.listed[q].wrote <= |s.log|
          && forall v :: 0 <= v < |s.log| && s.log[v].Dropped? && s.log[v].key == q ==> v < s.listed[q].wrote)
    && (forall id :: id in s.lists && s.lists[id].ListAnswered? && s.lists[id].key == q ==>
          WasListed(s, q, s.lists[id].list, s.lists[id].read))
  }

  /** What a step can do to a listing in the cache. */
  lemma ListingAfter(s: State, a: Action, q: Key)
    requires Shaped(s) && Enabled(s, a) && Valid(s.cache) && ListingAt(CacheAfter(s, a), q).Some?
    ensures ListingAt(CacheAfter(s, a), q)
      == if a.WriteListing? && q == s.lists[a.id].key then Some(s.lists[a.id].list) else ListingAt(s.cache, q)
    ensures a.DropNext? ==> s.writes[a.write][0] != q
  {
    ItemAfter(s, a, q);
    if a.DropNext? {
      InvalidateKeeps(s.cache, s.writes[a.write][0]);
    }
  }

  lemma WasListedForever(s: State, a: Action, q: Key, list: seq<FileInfo>, read: nat)
    requires Shaped(s) && Enabled(s, a) && WasListed(s, q, list, read)
    ensures WasListed(Step(s, a), q, list, read)
  {
    StepExtends(s, a);
    hide Step;
  }

  lemma ListingOriginStep(s: State, a: Action, q: Key)
    requires Shaped(s) && Enabled(s, a) && Valid(s.cache) && ListingOrigin(s, q)
    ensures ListingOrigin(Step(s, a), q)
  {
    var s' := Step(s, a);
    StepExtends(s, a);
    if ListingAt(s'.cache, q).Some? {
      ListingAfter(s, a, q);
      hide CacheAfter, Valid;
      if a.WriteListing? && q == s.lists[a.id].key {
        WasListedForever(s, a, q, s.lists[a.id].list, s.lists[a.id].read);
      } else {
        WasListedForever(s, a, q, ListingAt(s.cache, q).value, s.listed[q].read);
      }
    }
    hide CacheAfter, Valid, GetsAfter, OriginsAfter;
    forall id | id in s'.lists && s'.lists[id].ListAnswered? && s'.lists[id].key == q
      ensures WasListed(s', q, s'.lists[id].list, s'.lists[id].read)
    {
      if !(a.AskListing? && a.id == id) {
        WasListedForever(s, a, q, s.lists[id].list, s.lists[id].read);
      }
    }
  }

  lemma {:induction false} RunKeepsListingOrigin(s: State, run: seq<Action>, q: Key)
    requires Inv(s) && Legal(s, run) && ListingOrigin(s, q)
    ensures Inv(After(s, run)) && ListingOrigin(After(s, run), q)
    decreases |run|
  {
    if run != [] {
      InvStep(s, run[0]);
      ListingOriginStep(s, run[0], q);
      hide Inv, Step, ListingOrigin, Enabled;
      RunKeepsListingOrigin(Step(s, run[0]), run[1..], q);
    }
  }

  lemma {:induction false} UnchangedListing(s: State, q: Key, i: nat)
    requires Shaped(s) && i <= |s.log|
    requires forall r :: i <= r < |s.log| ==> !ListingChangedAt(s, r, q)
    ensures TrueListing(s.masters[i], q) == TrueListing(Current(s), q)
    decreases |s.log| - i
  {
    if i < |s.log| {
      assert !ListingChangedAt(s, i, q);
      UnchangedListing(s, q, i + 1);
    }
  }

  lemma StaleListingIsExplained(s: State, q: Key)
    requires Inv(s) && ListingOrigin(s, q)
    requires ListingAt(s.cache, q).Some? && ListingAt(s.cache, q) != TrueListing(Current(s), q)
    ensures exists r :: ListingExplains(s, q, r)
  {
    var o := s.listed[q];
    if forall r :: o.read <= r < |s.log| ==> !ListingChangedAt(s, r, q) {
      UnchangedListing(s, q, o.read);
      assert false;
    }
    var r :| o.read <= r < |s.log| && ListingChangedAt(s, r, q);
    if s.log[r].byClient && !Pending(s, r, q) {
      var v :| r < v < |s.log| && s.log[v] == Dropped(r, q);
      assert v < o.wrote;
    }
    assert ListingExplains(s, q, r);
  }

  /** In every run a cached listing that differs from the master's was overtaken by an outsider, by
      a client write whose invalidation is still to come, or by one that ran, invalidation included,
      between the fetch's reading of the master and its writing of the listing. */
  lemma ListingStaleOnlyByRace(ttl: nat, capacity: nat, master: Master, listBound: nat, statusBound: nat,
                               run: seq<Action>, q: Key)
    requires 0 < ttl
    requires Legal(Start(ttl, capacity, master, listBound, statusBound), run)
    ensures
      var s := After(Start(ttl, capacity, master, listBound, statusBound), run);
      ListingAt(s.cache, q).Some? && ListingAt(s.cache, q) != TrueListing(Current(s), q) ==>
        q in s.listed && exists r :: ListingExplains(s, q, r)
  {
    var s0 := Start(ttl, capacity, master, listBound, statusBound);
    StartKeepsInv(ttl, capacity, master, listBound, statusBound);
    RunKeepsListingOrigin(s0, run, q);
    var s := After(s0, run);
    hide Inv, Legal, After;
    if ListingAt(s.cache, q).Some? && ListingAt(s.cache, q) != TrueListing(Current(s), q) {
      StaleListingIsExplained(s, q);
    }
  }
}

module Quiet {
  import opened Types
  import opened CacheSpec
  import opened Coherence
  import opened Rules
  import opened Ages
  import opened ListingCoherence
  import opened CoherenceWitnesses

  /** What is served for `q`, if anything, is what the master holds. */
  ghost predicate Agrees(s: State, kind: Kind, q: Key)
    requires Shaped(s)
  {
    match kind
    case Statuses => Served(s, q).Some? ==> Served(s, q).value == Truth(Current(s), q)
    case Listings => ServedListing(s, q).Some? ==> ServedListing(s, q) == TrueListing(Current(s), q)
  }

  /** All invalidations of `q` have been done. */
  ghost predicate Settled(s: State, q: Key) {
    forall r :: !Pending(s, r, q)
  }

  /** Every run that keeps the rule ends with agreement, unless an invalidation of `q` is still to
      be done. */
  ghost predicate AlwaysAgrees(ttl: nat, listBound: nat, statusBound: nat, kind: Kind, care: Care, q: Key)
    requires 0 < ttl
  {
    forall capacity, master, run ::
      var s0 := Start(ttl, capacity, master, listBound, statusBound);
      Legal(s0, run) && AllPermitted(Careful(kind, care, q), s0, run) && Settled(After(s0, run), q) ==>
        Agrees(After(s0, run), kind, q)
  }

  // ----- With care -----

  /** No write that touches `q` was logged in `[from, to)`. */
  ghost predicate Untouched(s: State, q: Key, from: nat, to: nat) {
    forall r :: from <= r < to && r < |s.log| && s.log[r].Wrote? ==> q !in s.log[r].touched
  }

  ghost predicate OnlyClient(s: State) {
    forall r :: 0 <= r < |s.log| && s.log[r].Wrote? ==> s.log[r].byClient
  }

  /** Nothing was written between the reading of an answer about `q` and now, nor between the
      reading and the caching of what is cached. */
  ghost predicate CareInv(s: State, kind: Kind, q: Key) {
    && OnlyClient(s)
    && match kind
       case Statuses =>
         && (StatusAt(s.cache, q).Some? && q in s.origins ==> Untouched(s, q, s.origins[q].read, s.origins[q].wrote))
         && (forall id :: id in s.gets && s.gets[id].Answered? && s.gets[id].key == q ==>
               Untouched(s, q, s.gets[id].read, |s.log|))
       case Listings =>
         && (ListingAt(s.cache, q).Some? && q in s.listed ==> Untouched(s, q, s.listed[q].read, s.listed[q].wrote))
         && (forall id :: id in s.lists && s.lists[id].ListAnswered? && s.lists[id].key == q ==>
               Untouched(s, q, s.lists[id].read, |s.log|))
  }

  /** A step keeps what was untouched, up to where the log ended; and beyond, unless it writes `q`. */
  lemma UntouchedStep(s: State, a: Action, q: Key, from: nat, to: nat)
    requires Shaped(s) && Enabled(s, a) && Untouched(s, q, from, to)
    ensures to <= |s.log| ==> Untouched(Step(s, a), q, from, to)
    ensures to == |s.log| && !a.OutsideWrite? && !(a.ClientWrite? && q in a.keys) ==>
      Untouched(Step(s, a), q, from, |Step(s, a).log|)
  {
    StepExtends(s, a);
    hide CacheAfter, GetsAfter, ListsAfter, OriginsAfter, ListedAfter, WritesAfter;
  }

  lemma OnlyClientStep(s: State, a: Action)
    requires Shaped(s) && Enabled(s, a) && OnlyClient(s) && !a.OutsideWrite?
    ensures OnlyClient(Step(s, a))
  {
    hide CacheAfter, GetsAfter, ListsAfter, OriginsAfter, ListedAfter, WritesAfter;
  }

  /** An answer that a step leaves under way was untouched, and is. */
  lemma StatusAnswerStep(s: State, a: Action, q: Key, id: nat)
    requires Shaped(s) && Enabled(s, a) && CareInv(s, Statuses, q)
    requires Permits(Careful(Statuses, Care(true, true), q), s, a)
    requires id in Step(s, a).gets && Step(s, a).gets[id].Answered? && Step(s, a).gets[id].key == q
    ensures Untouched(Step(s, a), q, Step(s, a).gets[id].read, |Step(s, a).log|)
  {
    hide CacheAfter, ListsAfter, OriginsAfter, ListedAfter, WritesAfter, Served;
    if !(a.AskMaster? && a.id == id) {
      assert s.gets[id] == Step(s, a).gets[id];
      assert Underway(s, Statuses, q);
      hide Step;
      UntouchedStep(s, a, q, s.gets[id].read, |s.log|);
    }
  }

  lemma StatusCacheStep(s: State, a: Action, q: Key)
    requires Inv(s) && Enabled(s, a) && CareInv(s, Statuses, q) && StatusAt(Step(s, a).cache, q).Some?
    ensures
      var s' := Step(s, a);
      q in s'.origins && Untouched(s', q, s'.origins[q].read, s'.origins[q].wrote)
  {
    CacheStep(s, a);
    if a.WriteStatus? && q == s.gets[a.id].key {
      UntouchedStep(s, a, q, s.gets[a.id].read, |s.log|);
    } else {
      UntouchedStep(s, a, q, s.origins[q].read, s.origins[q].wrote);
    }
    hide CacheAfter, ListsAfter, GetsAfter, ListedAfter, WritesAfter, Valid, Untouched;
  }

  lemma ListingAnswerStep(s: State, a: Action, q: Key, id: nat)
    requires Shaped(s) && Enabled(s, a) && CareInv(s, Listings, q)
    requires Permits(Careful(Listings, Care(true, true), q), s, a)
    requires id in Step(s, a).lists && Step(s, a).lists[id].ListAnswered? && Step(s, a).lists[id].key == q
    ensures Untouched(Step(s, a), q, Step(s, a).lists[id].read, |Step(s, a).log|)
  {
    hide CacheAfter, GetsAfter, OriginsAfter, ListedAfter, WritesAfter;
    if !(a.AskListing? && a.id == id) {
      assert s.lists[id] == Step(s, a).lists[id];
      assert Underway(s, Listings, q);
      hide Step;
      UntouchedStep(s, a, q, s.lists[id].read, |s.log|);
    }
  }

  lemma ListingCacheStep(s: State, a: Action, q: Key)
    requires Inv(s) && Enabled(s, a) && ListingOrigin(s, q) && CareInv(s, Listings, q)
    requires ListingAt(Step(s, a).cache, q).Some?
    ensures
      var s' := Step(s, a);
      q in s'.listed && Untouched(s', q, s'.listed[q].read, s'.listed[q].wrote)
  {
    ListingAfter(s, a, q);
    hide CacheAfter, Valid, WasListed;
    if a.WriteListing? && q == s.lists[a.id].key {
      UntouchedStep(s, a, q, s.lists[a.id].read, |s.log|);
    } else {
      UntouchedStep(s, a, q, s.listed[q].read, s.listed[q].wrote);
    }
    hide ListsAfter, GetsAfter, OriginsAfter, WritesAfter, Untouched;
  }

  lemma CareStep(s: State, a: Action, kind: Kind, q: Key)
    requires Inv(s) && Enabled(s, a) && Permits(Careful(kind, Care(true, true), q), s, a)
    requires ListingOrigin(s, q) && CareInv(s, kind, q)
    ensures CareInv(Step(s, a), kind, q)
  {
    OnlyClientStep(s, a);
    var s' := Step(s, a);
    hide Inv, ListingOrigin, Untouched, Underway, OnlyClient, Enabled, Step;
    match kind
    case Statuses =>
      if StatusAt(s'.cache, q).Some? {
        StatusCacheStep(s, a, q);
      }
      forall id | id in s'.gets && s'.gets[id].Answered? && s'.gets[id].key == q
        ensures Untouched(s', q, s'.gets[id].read, |s'.log|)
      {
        StatusAnswerStep(s, a, q, id);
      }
    case Listings =>
      if ListingAt(s'.cache, q).Some? {
        ListingCacheStep(s, a, q);
      }
      forall id | id in s'.lists && s'.lists[id].ListAnswered? && s'.lists[id].key == q
        ensures Untouched(s', q, s'.lists[id].read, |s'.log|)
      {
        ListingAnswerStep(s, a, q, id);
      }
  }

  lemma {:induction false} RunKeepsCare(s: State, run: seq<Action>, kind: Kind, q: Key)
    requires Inv(s) && Legal(s, run) && AllPermitted(Careful(kind, Care(true, true), q), s, run)
    requires ListingOrigin(s, q) && CareInv(s, kind, q)
    ensures Inv(After(s, run)) && ListingOrigin(After(s, run), q) && CareInv(After(s, run), kind, q)
    decreases |run|
  {
    if run != [] {
      InvStep(s, run[0]);
      ListingOriginStep(s, run[0], q);
      CareStep(s, run[0], kind, q);
      hide Inv, Step, ListingOrigin, CareInv, Enabled, Permits;
      RunKeepsCare(Step(s, run[0]), run[1..], kind, q);
    }
  }

  /** When all invalidations of `q` have been done, nothing can explain a stale status. */
  lemma NothingExplains(s: State, q: Key, r: nat)
    requires Inv(s) && CareInv(s, Statuses, q) && Settled(s, q) && StatusAt(s.cache, q).Some?
    ensures !Explains(s, q, r)
  {
    hide Valid, WasTrue, AgeInv;
    if s.origins[q].read <= r < |s.log| && s.log[r].Wrote? && ChangedAt(s, r, q) {
      assert q in s.log[r].touched && !Pending(s, r, q);
    }
  }

  /** Nor a stale listing. */
  lemma NothingExplainsListing(s: State, q: Key, r: nat)
    requires Inv(s) && ListingOrigin(s, q) && CareInv(s, Listings, q) && Settled(s, q) && ListingAt(s.cache, q).Some?
    ensures !ListingExplains(s, q, r)
  {
    hide Valid, WasTrue, AgeInv;
    if s.listed[q].read <= r < |s.log| && s.log[r].Wrote? && ListingChangedAt(s, r, q) {
      assert q in s.log[r].touched && !Pending(s, r, q);
    }
  }

  lemma CareAgrees(s: State, kind: Kind, q: Key)
    requires Inv(s) && ListingOrigin(s, q) && CareInv(s, kind, q) && Settled(s, q)
    ensures Agrees(s, kind, q)
  {
    assert Shaped(s) && (StatusAt(s.cache, q).Some? ==> q in s.origins);
    hide Inv, CareInv, Explains, ListingExplains;
    if kind.Statuses? && StatusAt(s.cache, q).Some? {
      forall r: nat ensures !Explains(s, q, r) {
        NothingExplains(s, q, r);
      }
      if StatusAt(s.cache, q).value != Truth(Current(s), q) {
        StaleIsExplained(s, q);
        assert false;
      }
    } else if kind.Listings? && ListingAt(s.cache, q).Some? {
      forall r: nat ensures !ListingExplains(s, q, r) {
        NothingExplainsListing(s, q, r);
      }
      if ListingAt(s.cache, q) != TrueListing(Current(s), q) {
        StaleListingIsExplained(s, q);
        assert false;
      }
    }
  }

  lemma CarefulRunAgrees(ttl: nat, capacity: nat, master: Master, listBound: nat, statusBound: nat,
                         run: seq<Action>, kind: Kind, q: Key)
    requires 0 < ttl
    requires Legal(Start(ttl, capacity, master, listBound, statusBound), run)
    requires AllPermitted(Careful(kind, Care(true, true), q), Start(ttl, capacity, master, listBound, statusBound), run)
    requires Settled(After(Start(ttl, capacity, master, listBound, statusBound), run), q)
    ensures Agrees(After(Start(ttl, capacity, master, listBound, statusBound), run), kind, q)
  {
    var s0 := Start(ttl, capacity, master, listBound, statusBound);
    StartKeepsInv(ttl, capacity, master, listBound, statusBound);
    RunKeepsCare(s0, run, kind, q);
    hide Inv, ListingOrigin, CareInv, Agrees, Legal, After;
    CareAgrees(After(s0, run), kind, q);
  }

  // ----- Without -----

  /** A run at whose end something stale is served. */
  lemma Disagrees(ttl: nat, listBound: nat, statusBound: nat, kind: Kind, care: Care, q: Key, master: Master, s: State)
    requires 0 < ttl && Shaped(s)
    requires Leads(Careful(kind, care, q), Start(ttl, 1, master, listBound, statusBound), s)
    requires Settled(s, q) && !Agrees(s, kind, q)
    ensures !AlwaysAgrees(ttl, listBound, statusBound, kind, care, q)
  {
    hide Agrees;
    var s0 := Start(ttl, 1, master, listBound, statusBound);
    var run :| Legal(s0, run) && AllPermitted(Careful(kind, care, q), s0, run) && After(s0, run) == s;
    hide Legal, AllPermitted, After, Start;
  }

  lemma CarelessRun(ttl: nat, listBound: nat, statusBound: nat, kind: Kind, care: Care, q: Key)
    requires 0 < ttl && !(care.noOverlap && care.noOutsiders)
    ensures !AlwaysAgrees(ttl, listBound, statusBound, kind, care, q)
  {
    hide Leads, AlwaysAgrees, Served, LookupListing;
    var entry := Entry(FileInfo(None, Some(true), None, [], [], None), []);
    var rule := Careful(kind, care, q);
    var s: State;
    if kind.Listings? {
      s := QuietAndStaleListing(rule, ttl, listBound, statusBound, q, entry, care.noOverlap);
    } else if care.noOverlap {
      s := OvertakenByOutsider(rule, ttl, listBound, statusBound, q, entry);
    } else {
      s := QuietAndStale(rule, ttl, listBound, statusBound, q, entry);
    }
    Disagrees(ttl, listBound, statusBound, kind, care, q, map[q := entry], s);
  }

  /** Once all invalidations of a key have been done the cache serves what the master holds, in
      every run, if and only if the client does not write the key while an answer about it is on its
      way into the cache, and nobody else writes. This holds for statuses and for listings. */
  lemma CoherentExactly(ttl: nat, listBound: nat, statusBound: nat, kind: Kind, care: Care, q: Key)
    requires 0 < ttl
    ensures AlwaysAgrees(ttl, listBound, statusBound, kind, care, q) <==> care.noOverlap && care.noOutsiders
  {
    if care.noOverlap && care.noOutsiders {
      hide Agrees;
      forall capacity, master, run |
        var s0 := Start(ttl, capacity, master, listBound, statusBound);
        Legal(s0, run) && AllPermitted(Careful(kind, care, q), s0, run) && Settled(After(s0, run), q)
        ensures Agrees(After(Start(ttl, capacity, master, listBound, statusBound), run), kind, q)
      {
        CarefulRunAgrees(ttl, capacity, master, listBound, statusBound, run, kind, q);
      }
    } else {
      CarelessRun(ttl, listBound, statusBound, kind, care, q);
    }
  }
}
