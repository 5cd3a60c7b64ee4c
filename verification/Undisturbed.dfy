/** The machine of Coherence.dfy against the helpers of MetadataCache.dfy: a caller whom nobody
    disturbs takes the machine through exactly what the helper does to the cache. */
module Undisturbed {
  import opened Types
  import opened CacheSpec
  import opened Coherence
  import opened ThroughCache

  /** The master's answer to `get_status`. */
  function AsResult(slot: Slot, path: string): Result<FileInfo> {
    match slot
    case Present(info) => Ok(info)
    case Absent => Err(NotFound(path))
  }

  /** A `get_status` that takes no time. */
  lemma GetAlone(s: State, id: nat, path: string, k: Key, sync: int)
    requires Shaped(s) && id !in s.gets
    ensures
      var (r, c) := GetStatus(s.cache, path, k, sync, s.now, AsResult(Truth(Current(s), k), path), s.now);
      var s1 := Step(s, LookStatus(id, k, sync != 0));
      if id !in s1.gets then s1.cache == c && Served(s, k).Some? && r == AsResult(Served(s, k).value, path)
      else
        && r == AsResult(Truth(Current(s), k), path)
        && Enabled(s1, AskMaster(id))
        && var s2 := Step(s1, AskMaster(id));
        && Enabled(s2, WriteStatus(id, s.now))
        && Step(s2, WriteStatus(id, s.now)).cache == c
  {
    hide AfterLookup, PutStatus;
    var s1 := Step(s, LookStatus(id, k, sync != 0));
    if id in s1.gets {
      var s2 := Step(s1, AskMaster(id));
      assert s2.gets[id] == Answered(k, s.now, Truth(Current(s), k), |s.log|, s.now);
    }
  }

  /** A `list_status` of a path that is there, and that takes no time. */
  lemma ListAlone(s: State, id: nat, k: Key)
    requires Shaped(s) && id !in s.lists && k in Current(s)
    ensures
      var (r, c) := ListStatus(s.cache, k, false, s.now, Ok(Current(s)[k].listing), s.now);
      var s1 := Step(s, LookListing(id, k));
      if id !in s1.lists then s1.cache == c && r.Ok? && LookupListing(s.cache, k, s.now).0 == Some(r.value)
      else
        && r == Ok(Current(s)[k].listing)
        && Enabled(s1, AskListing(id))
        && var s2 := Step(s1, AskListing(id));
        && Enabled(s2, WriteListing(id, s.now))
        && Step(s2, WriteListing(id, s.now)).cache == c
  {
    hide AfterLookup, PutListing;
    var s1 := Step(s, LookListing(id, k));
    if id in s1.lists {
      var s2 := Step(s1, AskListing(id));
      assert s2.lists[id] == ListAnswered(k, s.now, Current(s)[k].listing, |s.log|, s.now);
    }
  }

  /** The state after write `w` has done all its invalidations. */
  ghost function DropAll(s: State, w: nat): (s': State)
    requires Shaped(s) && w in s.writes
    ensures Shaped(s')
    decreases |s.writes[w]|
  {
    if s.writes[w] == [] then s else DropAll(Step(s, DropNext(w)), w)
  }

  /** A mutation and its invalidations, one after the other. */
  lemma {:induction false} DropsAlone(s: State, w: nat)
    requires Shaped(s) && w in s.writes
    ensures DropAll(s, w).cache == InvalidateAll(s.cache, s.writes[w])
    decreases |s.writes[w]|
  {
    hide Invalidate;
    if s.writes[w] != [] {
      var s1 := Step(s, DropNext(w));
      assert s1.writes[w] == s.writes[w][1..] && s1.cache == Invalidate(s.cache, s.writes[w][0]);
      DropsAlone(s1, w);
    }
  }

  lemma MutateAlone(s: State, path: string, after: Master)
    requires Shaped(s) && Enabled(s, ClientWrite(InvalidationKeys(path), after))
    ensures
      var s1 := Step(s, ClientWrite(InvalidationKeys(path), after));
      && Current(s1) == after && |s.log| in s1.writes
      && DropAll(s1, |s.log|).cache == InvalidateAll(s.cache, InvalidationKeys(path))
  {
    hide InvalidationKeys;
    var s1 := Step(s, ClientWrite(InvalidationKeys(path), after));
    DropsAlone(s1, |s.log|);
  }
}
