/** Rules that callers, outsiders and the master may be known to keep, and runs of the machine of
    Coherence.dfy that keep them. Theorems with "exactly" in their names say which rule a promise
    needs. */
module Rules {
  import opened CacheSpec
  import opened Coherence

  /** What callers and master do about one key: every `get_status` looks into the cache first, that
      is, none has `sync_interval_ms == 0`; and every answer of the master can be served from the
      cache, that is, none is an incomplete file. */
  datatype Policy = Policy(lookup: bool, servable: bool)

  /** What writers do about one key: the client does not write while one of its fetches has an
      answer that is not in the cache yet; and nobody else writes. */
  datatype Care = Care(noOverlap: bool, noOutsiders: bool)

  datatype Kind = Statuses | Listings

  datatype Rule =
    | Free
    | Look(policy: Policy, getBound: nat, q: Key)
    | Careful(kind: Kind, care: Care, q: Key)
    | Listed(allowed: bool, q: Key)

  /** A fetch of `q` has its answer from the master, and has not written it yet. */
  ghost predicate Underway(s: State, kind: Kind, q: Key) {
    match kind
    case Statuses => exists id :: id in s.gets && s.gets[id].Answered? && s.gets[id].key == q
    case Listings => exists id :: id in s.lists && s.lists[id].ListAnswered? && s.lists[id].key == q
  }

  ghost predicate Permits(rule: Rule, s: State, a: Action)
    requires Shaped(s) && Enabled(s, a)
  {
    match rule
    case Free => true
    case Look(p, getBound, q) =>
      && (p.lookup && a.LookStatus? && a.key == q ==> a.useCache)
      && (p.servable && a.AskMaster? && s.gets[a.id].key == q ==> Servable(Truth(Current(s), q)))
      && (a.WriteStatus? && s.gets[a.id].key == q ==> a.stamp <= s.gets[a.id].startedAt + getBound)
    case Careful(kind, care, q) =>
      && (care.noOverlap && a.ClientWrite? && q in a.keys ==> !Underway(s, kind, q))
      && (care.noOutsiders ==> !a.OutsideWrite?)
    case Listed(allowed, q) => !allowed && a.WriteListing? ==> s.lists[a.id].key != q
  }

  ghost predicate AllPermitted(rule: Rule, s: State, run: seq<Action>)
    requires Shaped(s) && Legal(s, run)
    decreases |run|
  {
    run == [] || (Permits(rule, s, run[0]) && AllPermitted(rule, Step(s, run[0]), run[1..]))
  }

  /** A run that keeps the rule leads from `s` to `s'`. */
  ghost predicate Leads(rule: Rule, s: State, s': State)
    requires Shaped(s)
  {
    exists run :: Legal(s, run) && AllPermitted(rule, s, run) && After(s, run) == s'
  }

  lemma {:induction false} RunThen(rule: Rule, s: State, run: seq<Action>, a: Action)
    requires Shaped(s) && Legal(s, run) && AllPermitted(rule, s, run)
    requires Enabled(After(s, run), a) && Permits(rule, After(s, run), a)
    ensures Legal(s, run + [a]) && AllPermitted(rule, s, run + [a])
    ensures After(s, run + [a]) == Step(After(s, run), a)
    decreases |run|
  {
    hide Step, Enabled, Permits;
    if run == [] {
      assert [a][1..] == [];
    } else {
      RunThen(rule, Step(s, run[0]), run[1..], a);
      assert (run + [a])[1..] == run[1..] + [a];
    }
  }

  /** One more step that keeps the rule. */
  lemma Then(rule: Rule, s0: State, s: State, a: Action) returns (s': State)
    requires Shaped(s0) && Shaped(s) && Leads(rule, s0, s)
    requires Enabled(s, a) && Permits(rule, s, a)
    ensures Leads(rule, s0, s') && s' == Step(s, a)
  {
    hide Step, Enabled, Permits;
    var run :| Legal(s0, run) && AllPermitted(rule, s0, run) && After(s0, run) == s;
    RunThen(rule, s0, run, a);
    s' := Step(s, a);
  }

  lemma LeadsNowhere(rule: Rule, s: State)
    requires Shaped(s)
    ensures Leads(rule, s, s)
  {
    assert Legal(s, []) && AllPermitted(rule, s, []) && After(s, []) == s;
  }

  lemma Wait(rule: Rule, s0: State, s: State, d: nat) returns (s': State)
    requires Shaped(s0) && Shaped(s) && Leads(rule, s0, s)
    ensures Leads(rule, s0, s') && s' == s.(now := s.now + d)
  {
    hide Leads;
    s' := Then(rule, s0, s, Tick(d));
  }

  // ----- The invariant of Coherence.dfy, one step at a time -----

  lemma InvStep(s: State, a: Action)
    requires Inv(s) && Enabled(s, a)
    ensures Inv(Step(s, a)) && Step(s, a).cache.ttl == s.cache.ttl
  {
    RunKeepsInv(s, [a]);
    assert [a][1..] == [];
  }

  lemma StartKeepsInv(ttl: nat, capacity: nat, master: Master, listBound: nat, statusBound: nat)
    requires 0 < ttl
    ensures Inv(Start(ttl, capacity, master, listBound, statusBound))
  {
    RunKeepsInv(Start(ttl, capacity, master, listBound, statusBound), []);
  }
}
