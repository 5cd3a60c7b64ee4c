/** Whole runs of the metadata cache (src/metadata_cache.rs:85-337): what the counters say,
    and when the LRU policy may throw a key out. */
module LruRuns {
  import opened Types
  import opened CacheSpec

  datatype Op =
    | FindStatus(k: Key, now: nat)
    | FindListing(k: Key, now: nat)
    | SetStatus(k: Key, slot: Slot, now: nat)
    | SetListing(k: Key, list: seq<FileInfo>, now: nat)
    | Drop(k: Key)

  function Apply(c: Cache, op: Op): Cache {
    match op
    case FindStatus(k, now) => LookupStatus(c, k, now).1
    case FindListing(k, now) => LookupListing(c, k, now).1
    case SetStatus(k, slot, now) => PutStatus(c, k, slot, now)
    case SetListing(k, list, now) => PutListing(c, k, list, now)
    case Drop(k) => Invalidate(c, k)
  }

  /** The keys an operation touches: a lookup that finds a fresh item, or a write. A lookup
      that only peeks at an expired item, or an invalidation, touches nothing. */
  function Touched(c: Cache, op: Op): seq<Key> {
    match op
    case FindStatus(k, now) => if Fresh(c, k, now) then [k] else []
    case FindListing(k, now) => if Fresh(c, k, now) then [k] else []
    case SetStatus(k, _, _) => [k]
    case SetListing(k, _, _) => [k]
    case Drop(_) => []
  }

  /** A run: the cache after `ops`, and the log of all touches on the way. */
  function After(c: Cache, ops: seq<Op>): Cache {
    if ops == [] then c else Apply(After(c, ops[..|ops| - 1]), ops[|ops| - 1])
  }

  function Touches(c: Cache, ops: seq<Op>): seq<Key> {
    if ops == [] then []
    else
      var init := ops[..|ops| - 1];
      Touches(c, init) + Touched(After(c, init), ops[|ops| - 1])
  }

  function Lookups(ops: seq<Op>): nat {
    if ops == [] then 0
    else
      var last := ops[|ops| - 1];
      Lookups(ops[..|ops| - 1]) + if last.FindStatus? || last.FindListing? then 1 else 0
  }

  // ----- Recency -----

  /** Position of the last touch of `k`. */
  function LastTouch(log: seq<Key>, k: Key): (i: nat)
    requires k in log
    ensures i < |log| && log[i] == k
    ensures forall j :: i < j < |log| ==> log[j] != k
  {
    if log[|log| - 1] == k then |log| - 1 else LastTouch(log[..|log| - 1], k)
  }

  /** When `k` was last touched; later is larger. */
  function Rank(log: seq<Key>, k: Key): int {
    if k in log then LastTouch(log, k) else -1
  }

  /** `order` lists keys from most to least recently touched. */
  ghost predicate ByRecency(order: seq<Key>, log: seq<Key>) {
    && (forall i :: 0 <= i < |order| ==> order[i] in log)
    && (forall i, j :: 0 <= i < j < |order| ==> Rank(log, order[i]) > Rank(log, order[j]))
  }

  lemma RecencyTail(order: seq<Key>, log: seq<Key>)
    requires order != [] && ByRecency(order, log)
    ensures ByRecency(order[1..], log)
    ensures forall q :: q in order[1..] ==> q in log && Rank(log, order[0]) > Rank(log, q)
  {
    hide Rank;
    forall q | q in order[1..] ensures q in log && Rank(log, order[0]) > Rank(log, q) {
      var j :| 0 <= j < |order| - 1 && order[1..][j] == q;
      assert order[j + 1] == q;
    }
  }

  lemma RecencyCons(k: Key, rest: seq<Key>, log: seq<Key>)
    requires ByRecency(rest, log) && k in log
    requires forall q :: q in rest ==> q in log && Rank(log, k) > Rank(log, q)
    ensures ByRecency([k] + rest, log)
  {
    hide Rank;
    var order := [k] + rest;
    forall i, j | 0 <= i < j < |order| ensures Rank(log, order[i]) > Rank(log, order[j]) {
      assert order[j] == rest[j - 1];
      if i > 0 {
        assert order[i] == rest[i - 1];
      }
    }
  }

  lemma {:induction false} RecencyWithout(order: seq<Key>, log: seq<Key>, k: Key)
    requires Distinct(order) && ByRecency(order, log)
    ensures ByRecency(Without(order, k), log)
  {
    if order != [] {
      RecencyTail(order, log);
      DistinctTail(order);
      if order[0] != k {
        RecencyWithout(order[1..], log, k);
        WithoutMembers(order[1..], k);
        RecencyCons(order[0], Without(order[1..], k), log);
      }
    }
  }

  /** Touching a key that is not in `order` and putting it in front keeps the order by recency. */
  lemma RecencyInFront(order: seq<Key>, log: seq<Key>, k: Key)
    requires k !in order && ByRecency(order, log)
    ensures ByRecency([k] + order, log + [k])
  {
    hide Rank;
    forall q | q in order ensures q in log && Rank(log + [k], q) == Rank(log, q) < Rank(log + [k], k) {
      assert q in log;
      TouchedAgain(log, k, q);
    }
    assert forall i :: 0 <= i < |order| ==> order[i] in order;
    assert ByRecency(order, log + [k]);
    hide ByRecency;
    RecencyCons(k, order, log + [k]);
  }

  lemma TouchedAgain(log: seq<Key>, k: Key, q: Key)
    requires q in log && q != k
    ensures Rank(log + [k], q) == Rank(log, q) < Rank(log + [k], k)
  {
    assert (log + [k])[..|log|] == log;
  }

  /** Every operation keeps the order by recency of touch. */
  lemma RecencyStep(c: Cache, op: Op, log: seq<Key>)
    requires Valid(c) && ByRecency(c.order, log)
    ensures Valid(Apply(c, op)) && ByRecency(Apply(c, op).order, log + Touched(c, op))
  {
    WithoutKeepsOrder(c.order, op.k);
    RecencyWithout(c.order, log, op.k);
    match op
    case FindStatus(k, now) => RecencyLookup(c, k, now, log);
    case FindListing(k, now) => RecencyLookup(c, k, now, log);
    case SetStatus(k, slot, now) => RecencyPut(c, k, Item(Some(slot), ListingAt(c, k), now), log);
    case SetListing(k, list, now) => RecencyPut(c, k, Item(StatusAt(c, k), Some(list), now), log);
    case Drop(k) =>
      InvalidateKeeps(c, k);
      assert log + [] == log;
  }

  lemma RecencyLookup(c: Cache, k: Key, now: nat, log: seq<Key>)
    requires Valid(c) && ByRecency(c.order, log)
    ensures Valid(AfterLookup(c, k, now))
    ensures ByRecency(AfterLookup(c, k, now).order, log + if Fresh(c, k, now) then [k] else [])
  {
    LookupKeeps(c, k, now);
    WithoutKeepsOrder(c.order, k);
    RecencyWithout(c.order, log, k);
    if Fresh(c, k, now) {
      RecencyInFront(Without(c.order, k), log, k);
    } else {
      assert log + [] == log;
    }
  }

  lemma RecencyPut(c: Cache, k: Key, item: Item, log: seq<Key>)
    requires Valid(c) && ByRecency(c.order, log)
    ensures Valid(PutItem(c, k, item)) && ByRecency(PutItem(c, k, item).order, log + [k])
  {
    PutItemKeeps(c, k, item);
    hide Without, ByRecency;
    if k in c.items {
      WithoutKeepsOrder(c.order, k);
      RecencyWithout(c.order, log, k);
      RecencyInFront(Without(c.order, k), log, k);
    } else if Victim(c, k).None? {
      RecencyInFront(c.order, log, k);
    } else {
      RecencyPrefix(c.order, log, |c.order| - 1);
      RecencyInFront(c.order[..|c.order| - 1], log, k);
    }
  }

  lemma RecencyPrefix(order: seq<Key>, log: seq<Key>, n: nat)
    requires n <= |order| && ByRecency(order, log)
    ensures ByRecency(order[..n], log)
  {
    hide Rank;
  }

  // ----- The theorems about runs -----

  ghost predicate Accounted(s: Stats, lookups: nat) {
    s.hits + s.misses == lookups && s.negativeHits <= s.hits && s.expired <= s.misses
  }

  /** In every run from an empty cache: keys stay distinct, the size stays within
      max(1, capacity), the order is by recency, every lookup is a hit or a miss, negative
      hits are hits, and expirations are misses. */
  lemma {:induction false} RunInvariant(ttl: nat, capacity: nat, ops: seq<Op>)
    requires 0 < ttl
    ensures
      var c := After(Empty(ttl, capacity), ops);
      && Valid(c) && c.cap == Max(1, capacity)
      && |c.items| <= Max(1, capacity)
      && ByRecency(c.order, Touches(Empty(ttl, capacity), ops))
      && Accounted(c.stats, Lookups(ops))
    decreases |ops|
  {
    var c0 := Empty(ttl, capacity);
    if ops != [] {
      var init, last := ops[..|ops| - 1], ops[|ops| - 1];
      RunInvariant(ttl, capacity, init);
      RecencyStep(After(c0, init), last, Touches(c0, init));
      CountStep(After(c0, init), last);
    }
    var c := After(c0, ops);
    SizeOfOrder(c.order);
    assert Elements(c.order) == c.items.Keys;
  }

  lemma CountStep(c: Cache, op: Op)
    ensures var s, s' := c.stats, Apply(c, op).stats;
      && s'.hits + s'.misses == s.hits + s.misses + (if op.FindStatus? || op.FindListing? then 1 else 0)
      && s'.negativeHits - s.negativeHits <= s'.hits - s.hits
      && s'.expired - s.expired <= s'.misses - s.misses
    ensures Apply(c, op).cap == c.cap
  {
  }

  function Bump(n: nat, yes: bool): nat {
    if yes then n + 1 else n
  }

  /** What each operation counts: a lookup is a hit if the cache has the answer and a miss if not, a
      hit is negative if the answer is that there is no file, an item found expired and an item
      invalidated are counted, and nothing else is. */
  lemma CountsExactly(c: Cache, op: Op)
    requires 0 < c.ttl
    ensures
      var s, s' := c.stats, Apply(c, op).stats;
      var lookup := op.FindStatus? || op.FindListing?;
      var hit := (op.FindStatus? && HasAnswer(c, op.k, op.now)) || (op.FindListing? && HasListing(c, op.k, op.now));
      && s'.hits == Bump(s.hits, hit)
      && s'.misses == Bump(s.misses, lookup && !hit)
      && s'.negativeHits == Bump(s.negativeHits, op.FindStatus? && hit && c.items[op.k].status.value.Absent?)
      && s'.expired == Bump(s.expired, lookup && HasExpired(c, op.k, op.now))
      && s'.invalidations == Bump(s.invalidations, op.Drop? && op.k in c.items)
  {
    hide Without;
  }

  function Elements(s: seq<Key>): set<Key> {
    set k | k in s
  }

  lemma {:induction false} SizeOfOrder(s: seq<Key>)
    requires Distinct(s)
    ensures |Elements(s)| == |s|
  {
    if s != [] {
      DistinctTail(s);
      SizeOfOrder(s[1..]);
      assert Elements(s) == {s[0]} + Elements(s[1..]);
    }
  }

  /** What was touched after the last touch of `k`. */
  function TouchedSince(log: seq<Key>, k: Key): seq<Key>
    requires k in log
  {
    log[LastTouch(log, k) + 1..]
  }

  /** All keys that precede `k` in an order by recency were touched since `k` was. */
  lemma TouchedSincePreceding(order: seq<Key>, log: seq<Key>, n: nat, q: Key)
    requires ByRecency(order, log) && n < |order| && q in order[..n]
    ensures order[n] in log && q in TouchedSince(log, order[n])
  {
    var i, t := LastTouch(log, q), LastTouch(log, order[n]);
    assert i > t;
    assert log[t + 1..][i - t - 1] == q;
  }

  /** A key is thrown out to make room only after at least `cap` distinct other keys were
      touched since its own last touch, the new key included. */
  lemma EvictedOnlyIfLeastRecent(ttl: nat, capacity: nat, ops: seq<Op>, op: Op, k: Key)
    requires 0 < ttl && (op.SetStatus? || op.SetListing?)
    requires var c := After(Empty(ttl, capacity), ops); k in c.items && k !in Apply(c, op).items
    ensures
      var log := Touches(Empty(ttl, capacity), ops);
      && k in log
      && k !in Elements(TouchedSince(log, k) + [op.k])
      && |Elements(TouchedSince(log, k) + [op.k])| >= Max(1, capacity)
  {
    var c0 := Empty(ttl, capacity);
    RunInvariant(ttl, capacity, ops);
    EvictedFrom(After(c0, ops), Touches(c0, ops), op, k);
  }

  lemma EvictedFrom(c: Cache, log: seq<Key>, op: Op, k: Key)
    requires Valid(c) && ByRecency(c.order, log) && (op.SetStatus? || op.SetListing?)
    requires k in c.items && k !in Apply(c, op).items
    ensures k in log && k !in Elements(TouchedSince(log, k) + [op.k])
    ensures |Elements(TouchedSince(log, k) + [op.k])| >= c.cap
  {
    VictimIs(c, op, k);
    LastIsLeastRecent(c.order, log, op.k);
  }

  /** The key that a write throws out is the last one of a full cache. */
  lemma VictimIs(c: Cache, op: Op, k: Key)
    requires Valid(c) && (op.SetStatus? || op.SetListing?)
    requires k in c.items && k !in Apply(c, op).items
    ensures |c.order| == c.cap && c.order[c.cap - 1] == k && op.k !in c.order
  {
    PutItemKeeps(c, op.k, Apply(c, op).items[op.k]);
    hide PutItem;
  }

  /** All other keys, and one more, have been touched since the last key was. */
  lemma LastIsLeastRecent(order: seq<Key>, log: seq<Key>, k: Key)
    requires order != [] && Distinct(order) && ByRecency(order, log) && k !in order
    ensures var last := order[|order| - 1];
      && last in log
      && last !in Elements(TouchedSince(log, last) + [k])
      && |Elements(TouchedSince(log, last) + [k])| >= |order|
  {
    var n := |order| - 1;
    var others, since := Elements(order[..n]), TouchedSince(log, order[n]);
    forall q | q in others ensures q in since {
      TouchedSincePreceding(order, log, n, q);
    }
    NotSince(log, order[n]);
    hide TouchedSince, ByRecency;
    DistinctPrefix(order, n);
    SizeOfOrder(order[..n]);
    assert k !in others;
    SubsetSize(others + {k}, Elements(since + [k]));
  }

  lemma NotSince(log: seq<Key>, k: Key)
    requires k in log
    ensures k !in TouchedSince(log, k)
  {
    hide LastTouch;
    var since := TouchedSince(log, k);
    forall i | 0 <= i < |since| ensures since[i] != k {
      assert since[i] == log[LastTouch(log, k) + 1 + i];
    }
  }

  lemma DistinctPrefix(s: seq<Key>, n: nat)
    requires Distinct(s) && n <= |s|
    ensures Distinct(s[..n])
  {
  }

  lemma {:induction false} SubsetSize(a: set<Key>, b: set<Key>)
    requires a <= b
    ensures |a| <= |b|
    decreases a
  {
    if a != {} {
      var x :| x in a;
      SubsetSize(a - {x}, b - {x});
    }
  }
}
