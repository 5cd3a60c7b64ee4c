/** The configuration refresher (src/config.rs:3840-3998): a reload that threads do at most once per
    expiry interval. Times are readings of a monotonic clock; what a reload reads from disk is a
    parameter. */
module Refresher {
  import opened Types

  /** The time from `t` to `now`, or zero if `t` is later. */
  function Since(now: nat, t: nat): nat {
    Max(now - t, 0)
  }

  /** The loaded configuration has expired, as seen by a thread that looked at the clock at `now`. */
  predicate Needs(last: Option<nat>, now: nat, expire: nat) {
    match last
    case None => true
    case Some(t) => Since(now, t) >= expire
  }

  /** A reload is due: there has been none, or the interval has passed since the last one, or there is
      no interval. */
  predicate Due(last: Option<nat>, now: nat, expire: nat) {
    last.None? || expire == 0 || last.value + expire <= now
  }

  /** The object, as a single thread sees it. */
  class ConfigRefresher {
    const expire: nat
    var lastLoadTime: Option<nat>
    var enabled: bool
    var cosrangerEnabled: bool

    constructor (expire: nat, now: nat, enabled: bool, cosrangerEnabled: bool)
      ensures this.expire == expire && lastLoadTime == Some(now)
      ensures this.enabled == enabled && this.cosrangerEnabled == cosrangerEnabled
    {
      this.expire := expire;
      this.enabled := enabled;
      this.cosrangerEnabled := cosrangerEnabled;
      lastLoadTime := Some(now);
    }

    /** `reload_properties`: a file that cannot be loaded leaves the flags alone. */
    method ReloadProperties(loaded: Option<(bool, bool)>)
      modifies `enabled, `cosrangerEnabled
      ensures loaded.Some? ==> (enabled, cosrangerEnabled) == loaded.value
      ensures loaded.None? ==> enabled == old(enabled) && cosrangerEnabled == old(cosrangerEnabled)
    {
      if loaded.Some? {
        enabled := loaded.value.0;
        cosrangerEnabled := loaded.value.1;
      }
    }

    /** `load_if_expire` without other threads: `stamp` is the time at the end of a reload. The
        stamp is set even if the file could not be loaded. */
    method LoadIfExpire(now: nat, stamp: nat, loaded: Option<(bool, bool)>)
      requires now <= stamp
      modifies this
      ensures lastLoadTime == if Due(old(lastLoadTime), now, expire) then Some(stamp) else old(lastLoadTime)
      ensures (enabled, cosrangerEnabled) ==
        if Due(old(lastLoadTime), now, expire) && loaded.Some? then loaded.value else old((enabled, cosrangerEnabled))
    {
      var needsReload := Needs(lastLoadTime, now, expire);
      if needsReload {
        var stillNeeds := Needs(lastLoadTime, now, expire);
        if stillNeeds {
          ReloadProperties(loaded);
          lastLoadTime := Some(stamp);
        }
      }
    }
  }

  // ----- Threads -----

  type Thread = nat

  /** Where a thread is in `load_if_expire`: outside, after looking at the clock, after the first
      check, or reloading under the lock. */
  datatype Phase = Idle | Sampled(now: nat) | Expired(now: nat) | Loading(now: nat)

  /** A reload, by the time its thread had read at the beginning and the time it set at the end. */
  datatype Reload = Reload(now: nat, stamp: nat)

  datatype State = State(
    clock: nat,
    last: Option<nat>,
    lock: Option<Thread>,
    phases: map<Thread, Phase>,
    log: seq<Reload>)

  datatype Action = Tick | Sample(t: Thread) | Check(t: Thread) | Recheck(t: Thread) | Finish(t: Thread)

  function PhaseOf(s: State, t: Thread): Phase {
    if t in s.phases then s.phases[t] else Idle
  }

  predicate Enabled(s: State, a: Action) {
    match a
    case Tick => true
    case Sample(t) => PhaseOf(s, t).Idle?
    case Check(t) => PhaseOf(s, t).Sampled? && s.lock.None?
    case Recheck(t) => PhaseOf(s, t).Expired? && s.lock.None?
    case Finish(t) => PhaseOf(s, t).Loading?
  }

  function Step(s: State, a: Action, expire: nat): State {
    if !Enabled(s, a) then s
    else match a
    case Tick => s.(clock := s.clock + 1)
    case Sample(t) => s.(phases := s.phases[t := Sampled(s.clock)])
    case Check(t) =>
      var now := PhaseOf(s, t).now;
      s.(phases := s.phases[t := if Needs(s.last, now, expire) then Expired(now) else Idle])
    case Recheck(t) =>
      var now := PhaseOf(s, t).now;
      if Needs(s.last, now, expire) then s.(phases := s.phases[t := Loading(now)], lock := Some(t))
      else s.(phases := s.phases[t := Idle])
    case Finish(t) =>
      s.(phases := s.phases[t := Idle], lock := None, last := Some(s.clock),
         log := s.log + [Reload(PhaseOf(s, t).now, s.clock)])
  }

  ghost predicate Initial(s: State) {
    && s.lock.None? && s.phases == map[] && s.log == []
    && (s.last.Some? ==> s.last.value <= s.clock)
  }

  function After(start: State, run: seq<Action>, expire: nat): State {
    if run == [] then start else Step(After(start, run[..|run| - 1], expire), run[|run| - 1], expire)
  }

  predicate Legal(start: State, run: seq<Action>, expire: nat) {
    run == [] ||
    (Legal(start, run[..|run| - 1], expire) && Enabled(After(start, run[..|run| - 1], expire), run[|run| - 1]))
  }

  // ----- What every step keeps -----

  /** Only the thread that has the lock is reloading. */
  ghost predicate LockInv(s: State) {
    forall t: Thread :: PhaseOf(s, t).Loading? <==> s.lock == Some(t)
  }

  /** No time is later than the clock, a reloading thread found the configuration expired, and the
      last stamp is in the log. */
  ghost predicate ClockInv(s: State, expire: nat) {
    && (forall t: Thread :: !PhaseOf(s, t).Idle? ==> PhaseOf(s, t).now <= s.clock)
    && (forall t: Thread :: PhaseOf(s, t).Loading? ==> Needs(s.last, PhaseOf(s, t).now, expire))
    && (s.last.Some? ==> s.last.value <= s.clock)
    && (s.log != [] ==> s.last == Some(s.log[|s.log| - 1].stamp))
  }

  /** Two reloads next to each other: the later thread looked at the clock an expiry interval after
      the earlier reload's stamp. */
  ghost predicate Apart(log: seq<Reload>, expire: nat, i: nat)
    requires i + 1 < |log|
  {
    log[i].stamp + expire <= log[i + 1].now
  }

  ghost predicate LogInv(s: State, expire: nat) {
    && (forall i :: 0 <= i < |s.log| ==> s.log[i].now <= s.log[i].stamp)
    && (expire > 0 ==> forall i: nat :: i + 1 < |s.log| ==> Apart(s.log, expire, i))
  }

  ghost predicate Inv(s: State, expire: nat) {
    LockInv(s) && ClockInv(s, expire) && LogInv(s, expire)
  }

  lemma StepKeepsLock(s: State, a: Action, expire: nat)
    requires LockInv(s) && Enabled(s, a)
    ensures LockInv(Step(s, a, expire))
  {
    hide Needs;
  }

  lemma StepKeepsClock(s: State, a: Action, expire: nat)
    requires LockInv(s) && ClockInv(s, expire) && Enabled(s, a)
    ensures ClockInv(Step(s, a, expire), expire)
  {
    hide Needs;
    var s' := Step(s, a, expire);
    forall t: Thread | !PhaseOf(s', t).Idle?
      ensures PhaseOf(s', t).now <= s'.clock
      ensures PhaseOf(s', t).Loading? ==> Needs(s'.last, PhaseOf(s', t).now, expire)
    {
      assert PhaseOf(s', t) == PhaseOf(s, t) || (!a.Tick? && a.t == t);
    }
  }

  lemma StepKeepsLog(s: State, a: Action, expire: nat)
    requires Inv(s, expire) && Enabled(s, a)
    ensures LogInv(Step(s, a, expire), expire)
  {
    var s' := Step(s, a, expire);
    if a.Finish? && expire > 0 {
      forall i: nat | i + 1 < |s'.log| ensures Apart(s'.log, expire, i) {
        if i + 1 < |s.log| {
          assert Apart(s.log, expire, i);
        }
      }
    }
  }

  lemma {:induction false} RunKeepsInv(start: State, run: seq<Action>, expire: nat)
    requires Initial(start) && Legal(start, run, expire)
    ensures Inv(After(start, run, expire), expire)
  {
    if run != [] {
      var s := After(start, run[..|run| - 1], expire);
      RunKeepsInv(start, run[..|run| - 1], expire);
      StepKeepsLock(s, run[|run| - 1], expire);
      StepKeepsClock(s, run[|run| - 1], expire);
      StepKeepsLog(s, run[|run| - 1], expire);
    }
  }

  // ----- Results -----

  /** No two threads reload at the same time. */
  lemma OneReloadAtATime(start: State, run: seq<Action>, expire: nat, t: Thread, u: Thread)
    requires Initial(start) && Legal(start, run, expire)
    requires PhaseOf(After(start, run, expire), t).Loading? && PhaseOf(After(start, run, expire), u).Loading?
    ensures t == u
  {
    RunKeepsInv(start, run, expire);
  }

  /** Reloads are an expiry interval apart, in every interleaving: any `k` reloads after one another
      take at least `k` intervals. */
  lemma {:induction false} ReloadsApart(start: State, run: seq<Action>, expire: nat, i: nat, k: nat)
    requires Initial(start) && Legal(start, run, expire) && expire > 0
    requires i + k < |After(start, run, expire).log|
    ensures var log := After(start, run, expire).log;
      k > 0 ==> log[i].stamp + k * expire <= log[i + k].now <= log[i + k].stamp
    decreases k
  {
    RunKeepsInv(start, run, expire);
    var log := After(start, run, expire).log;
    if k > 0 {
      assert Apart(log, expire, i + k - 1);
      ReloadsApart(start, run, expire, i, k - 1);
      assert k * expire == (k - 1) * expire + expire;
    }
  }

  /** A thread returns from `load_if_expire` with a configuration that was loaded less than the
      interval before the thread looked at the clock, whoever loaded it. So once the interval has
      passed, nobody returns before there has been a reload. */
  lemma FreshOnReturn(start: State, run: seq<Action>, expire: nat, a: Action, t: Thread)
    requires Initial(start) && Legal(start, run, expire) && expire > 0
    requires Enabled(After(start, run, expire), a)
    requires !PhaseOf(After(start, run, expire), t).Idle?
    ensures var s, s' := After(start, run, expire), Step(After(start, run, expire), a, expire);
      PhaseOf(s', t).Idle? ==> s'.last.Some? && PhaseOf(s, t).now < s'.last.value + expire
  {
    RunKeepsInv(start, run, expire);
  }

  /** A thread that nobody disturbs does what the object does: `ticks` is how long a reload takes. */
  lemma AloneIsSequential(s: State, t: Thread, expire: nat, ticks: nat)
    requires s.lock.None? && PhaseOf(s, t).Idle?
    ensures var checked := Step(Step(s, Sample(t), expire), Check(t), expire);
      if Due(s.last, s.clock, expire) then
        var loading := Step(checked, Recheck(t), expire);
        var done := Step(loading.(clock := loading.clock + ticks), Finish(t), expire);
        && Enabled(checked, Recheck(t)) && Enabled(loading, Finish(t))
        && done.last == Some(s.clock + ticks) && PhaseOf(done, t).Idle? && done.lock.None?
        && done.log == s.log + [Reload(s.clock, s.clock + ticks)]
      else PhaseOf(checked, t).Idle? && checked.last == s.last && checked.log == s.log
  {
    var sampled := Step(s, Sample(t), expire);
    assert Enabled(s, Sample(t)) && PhaseOf(sampled, t) == Sampled(s.clock);
    var checked := Step(sampled, Check(t), expire);
    if Due(s.last, s.clock, expire) {
      assert PhaseOf(checked, t) == Expired(s.clock);
    }
  }

  // ----- Without an expiry interval -----

  /** Two threads that look at the clock at the same time, and reload one after the other. */
  function Overtaking(): seq<Action> {
    [Sample(0), Sample(1), Check(0), Check(1), Recheck(0), Tick, Finish(0), Recheck(1), Finish(1)]
  }

  function AtStart(): State {
    State(0, Some(0), None, map[], [])
  }

  /** With interval zero every check succeeds, and a thread reloads although another one has done
      so since it looked at the clock. */
  lemma OvertakenReload()
    ensures Legal(AtStart(), Overtaking(), 0)
    ensures After(AtStart(), Overtaking(), 0).log == [Reload(0, 1), Reload(0, 1)]
  {
    var s := AtStart();
    var run := Overtaking();
    assert run[..0] == [];
    StepIn(s, run, 0, 0);
    StepIn(s, run, 0, 1);
    StepIn(s, run, 0, 2);
    StepIn(s, run, 0, 3);
    StepIn(s, run, 0, 4);
    StepIn(s, run, 0, 5);
    StepIn(s, run, 0, 6);
    StepIn(s, run, 0, 7);
    StepIn(s, run, 0, 8);
    assert run[..9] == run;
  }

  lemma StepIn(start: State, run: seq<Action>, expire: nat, k: nat)
    requires k < |run| && Legal(start, run[..k], expire) && Enabled(After(start, run[..k], expire), run[k])
    ensures Legal(start, run[..k + 1], expire)
    ensures After(start, run[..k + 1], expire) == Step(After(start, run[..k], expire), run[k], expire)
  {
    hide Step, Enabled;
    assert run[..k + 1][..k] == run[..k];
  }

  /** Every run keeps neighbouring reloads apart. */
  ghost predicate AlwaysApart(expire: nat) {
    forall start, run, i: nat | Initial(start) && Legal(start, run, expire) ::
      i + 1 < |After(start, run, expire).log| ==> Apart(After(start, run, expire).log, expire, i)
  }

  lemma ApartExactly(expire: nat)
    ensures AlwaysApart(expire) <==> expire > 0
  {
    if expire > 0 {
      forall start, run, i: nat | Initial(start) && Legal(start, run, expire) && i + 1 < |After(start, run, expire).log|
        ensures Apart(After(start, run, expire).log, expire, i)
      {
        RunKeepsInv(start, run, expire);
      }
    } else {
      OvertakenReload();
      assert Initial(AtStart()) && !Apart(After(AtStart(), Overtaking(), 0).log, 0, 0);
    }
  }
}
