/** The launcher's response cache: a value with an expiry time, checked before and after taking a
    lock, and rebuilt under the lock across an `await`. */
module ResponseCache {
  import opened OrderedDict

  /** One cache entry. A value is named by the place in the log where its build completed. */
  datatype Slot = Slot(value: Option<nat>, expiresAt: int)

  /** What a check of the entry finds. */
  function Hit(slot: Slot, now: int): Option<nat> {
    if slot.value.Some? && now < slot.expiresAt then slot.value else None
  }

  function Stored(built: nat, now: int, ttl: int): Slot { Slot(Some(built), now + ttl) }

  const EMPTY := Slot(None, 0)

  class CacheSlot {
    var value: Option<nat>
    var expiresAt: int

    function View(): Slot
      reads this
    {
      Slot(value, expiresAt)
    }

    method Check(now: int) returns (hit: Option<nat>)
      ensures hit == Hit(View(), now)
    {
      if value.Some? && now < expiresAt {
        return value;
      }
      return None;
    }

    method Store(built: nat, now: int, ttl: int)
      modifies this
      ensures View() == Stored(built, now, ttl)
    {
      value := Some(built);
      expiresAt := now + ttl;
    }

    /** `invalidate_cached_response`: takes no lock. */
    method Invalidate()
      modifies this
      ensures View() == EMPTY
    {
      value := None;
      expiresAt := 0;
    }
  }

  // ----- interleavings -----

  datatype Event =
    | BuildStarted(reader: nat)
    | BuildDone(at: int)
    | BuildFailed
    | Served(source: nat, servedAt: int)
    | Invalidated

  /** `waiting` readers missed the first check; `holder` is building under the lock. */
  datatype State = State(
    ttl: int,
    clock: int,
    slot: Slot,
    waiting: set<nat>,
    holder: Option<nat>,
    log: seq<Event>)

  datatype Action =
    | Tick(clock: int)
    | Arrive(reader: nat)       // first check, without the lock
    | Acquire(reader: nat)      // the lock is granted; second check
    | Finish                    // the builder returned
    | Fail                      // the builder raised or was cancelled
    | GiveUp(reader: nat)       // a waiting reader was cancelled
    | Invalidate

  predicate Fresh(s: State) { Hit(s.slot, s.clock).Some? }

  predicate Enabled(s: State, a: Action) {
    match a
    case Tick(clock) => s.clock <= clock
    case Arrive(r) => r !in s.waiting && s.holder != Some(r)
    case Acquire(r) => r in s.waiting && s.holder == None
    case Finish => s.holder.Some?
    case Fail => s.holder.Some?
    case GiveUp(r) => r in s.waiting
    case Invalidate => true
  }

  function Step(s: State, a: Action): State
    requires Enabled(s, a)
  {
    match a
    case Tick(clock) => s.(clock := clock)
    case Arrive(r) =>
      if Fresh(s) then s.(log := s.log + [Served(Hit(s.slot, s.clock).value, s.clock)])
      else s.(waiting := s.waiting + {r})
    case Acquire(r) =>
      if Fresh(s) then s.(waiting := s.waiting - {r}, log := s.log + [Served(Hit(s.slot, s.clock).value, s.clock)])
      else s.(waiting := s.waiting - {r}, holder := Some(r), log := s.log + [BuildStarted(r)])
    case Finish =>
      s.(slot := Stored(|s.log|, s.clock, s.ttl), holder := None, log := s.log + [BuildDone(s.clock)])
    case Fail => s.(holder := None, log := s.log + [BuildFailed])
    case GiveUp(r) => s.(waiting := s.waiting - {r})
    case Invalidate => s.(slot := EMPTY, log := s.log + [Invalidated])
  }

  predicate Initial(s: State) { s.slot == EMPTY && s.holder == None && s.waiting == {} && s.log == [] }

  ghost predicate IsRun(states: seq<State>, actions: seq<Action>) {
    |states| == |actions| + 1 && Initial(states[0])
    && forall i :: 0 <= i < |actions| ==> Enabled(states[i], actions[i]) && states[i + 1] == Step(states[i], actions[i])
  }

  /** Builds begun and not ended in a piece of the log. */
  function InFlight(log: seq<Event>): int {
    if log == [] then 0 else InFlight(log[..|log| - 1]) + Delta(log[|log| - 1])
  }

  function Delta(e: Event): int {
    if e.BuildStarted? then 1 else if e.BuildDone? || e.BuildFailed? then -1 else 0
  }

  /** The value built at `i` is current up to `k`: no invalidation and no newer build between. */
  predicate CurrentFrom(log: seq<Event>, i: nat, k: nat) {
    i < k <= |log| && log[i].BuildDone? && forall m :: i < m < k ==> !log[m].Invalidated? && !log[m].BuildDone?
  }

  /** What was served at `k` is a current value, built less than the TTL before. */
  predicate ServedCurrent(log: seq<Event>, ttl: int, k: nat)
    requires k < |log| && log[k].Served?
  {
    CurrentFrom(log, log[k].source, k) && log[k].servedAt < log[log[k].source].at + ttl
  }

  /** The stored value is current and expires the TTL after its build. */
  ghost predicate SlotCurrent(s: State) {
    s.slot.value.Some? ==>
      CurrentFrom(s.log, s.slot.value.value, |s.log|) && s.slot.expiresAt == s.log[s.slot.value.value].at + s.ttl
  }

  ghost predicate Inv(s: State) {
    SlotCurrent(s)
    && InFlight(s.log) == Holding(s)
    && (forall k :: 0 <= k <= |s.log| ==> 0 <= InFlight(s.log[..k]) <= 1)
    && (forall k :: 0 <= k < |s.log| && s.log[k].Served? ==> ServedCurrent(s.log, s.ttl, k))
  }

  lemma LogStep(s: State, a: Action) returns (more: seq<Event>)
    requires Enabled(s, a)
    ensures Step(s, a).log == s.log + more && |more| <= 1
  {
    more := Step(s, a).log[|s.log|..];
  }

  lemma CountsGrow(log: seq<Event>, e: Event)
    requires 0 <= InFlight(log) + Delta(e) <= 1
    requires forall k :: 0 <= k <= |log| ==> 0 <= InFlight(log[..k]) <= 1
    ensures InFlight(log + [e]) == InFlight(log) + Delta(e)
    ensures forall k :: 0 <= k <= |log + [e]| ==> 0 <= InFlight((log + [e])[..k]) <= 1
  {
    var l := log + [e];
    assert l[..|log|] == log;
    forall k | 0 <= k <= |l| ensures 0 <= InFlight(l[..k]) <= 1 {
      if k <= |log| {
        assert l[..k] == log[..k];
      } else {
        assert l[..k] == l;
      }
    }
  }

  lemma ServedStays(log: seq<Event>, e: Event, ttl: int)
    requires forall k :: 0 <= k < |log| && log[k].Served? ==> ServedCurrent(log, ttl, k)
    requires e.Served? ==> CurrentFrom(log, e.source, |log|) && e.servedAt < log[e.source].at + ttl
    ensures forall k :: 0 <= k < |log + [e]| && (log + [e])[k].Served? ==> ServedCurrent(log + [e], ttl, k)
  {
    var l := log + [e];
    forall k | 0 <= k < |l| && l[k].Served? ensures ServedCurrent(l, ttl, k) {
      if k < |log| {
        assert ServedCurrent(log, ttl, k);
      }
    }
  }

  lemma CurrentStays(log: seq<Event>, e: Event, i: nat)
    requires CurrentFrom(log, i, |log|) && !e.Invalidated? && !e.BuildDone?
    ensures CurrentFrom(log + [e], i, |log| + 1) && (log + [e])[i] == log[i]
  {
  }

  lemma StepKeepsValue(s: State, a: Action)
    requires Inv(s) && Enabled(s, a)
    ensures SlotCurrent(Step(s, a))
  {
    var t := Step(s, a);
    var more := LogStep(s, a);
    if s.slot.value.Some? && t.slot == s.slot && more != [] {
      assert t.log == s.log + [more[0]] && t.log[|s.log|] == more[0];
      CurrentStays(s.log, more[0], s.slot.value.value);
    } else if a.Finish? {
      assert t.log[|s.log|] == BuildDone(s.clock);
    } else {
      assert t.log == s.log || t.slot.value == None;
    }
  }

  function Holding(s: State): int { if s.holder.Some? then 1 else 0 }

  /** A step logs a start or an end exactly when the lock changes hands. */
  lemma DeltaIsHolder(s: State, a: Action, more: seq<Event>)
    requires Enabled(s, a) && Step(s, a).log == s.log + more && |more| <= 1
    ensures Holding(Step(s, a)) == Holding(s) + if more == [] then 0 else Delta(more[0])
  {
    assert more == Step(s, a).log[|s.log|..];
  }

  lemma StepKeepsCounts(s: State, a: Action)
    requires Inv(s) && Enabled(s, a)
    ensures var t := Step(s, a);
      InFlight(t.log) == Holding(t) && forall k :: 0 <= k <= |t.log| ==> 0 <= InFlight(t.log[..k]) <= 1
  {
    var more := LogStep(s, a);
    DeltaIsHolder(s, a, more);
    if more != [] {
      assert more == [more[0]];
      CountsGrow(s.log, more[0]);
    } else {
      assert s.log + more == s.log;
    }
  }

  lemma StepKeepsServed(s: State, a: Action)
    requires Inv(s) && Enabled(s, a)
    ensures var t := Step(s, a); forall k :: 0 <= k < |t.log| && t.log[k].Served? ==> ServedCurrent(t.log, t.ttl, k)
  {
    var t := Step(s, a);
    var more := LogStep(s, a);
    if more != [] {
      assert t.log == s.log + [more[0]] && t.log[|s.log|] == more[0];
      ServedStays(s.log, more[0], s.ttl);
    } else {
      assert t.log == s.log;
    }
  }

  lemma StepKeepsInv(s: State, a: Action)
    requires Inv(s) && Enabled(s, a)
    ensures Inv(Step(s, a))
  {
    StepKeepsValue(s, a);
    StepKeepsCounts(s, a);
    StepKeepsServed(s, a);
  }

  lemma {:induction false} RunKeepsInv(states: seq<State>, actions: seq<Action>, n: nat)
    requires IsRun(states, actions) && n < |states|
    ensures Inv(states[n]) && states[n].ttl == states[0].ttl
  {
    if n > 0 {
      RunKeepsInv(states, actions, n - 1);
      StepKeepsInv(states[n - 1], actions[n - 1]);
    }
  }

  /** Main result, over every interleaving of readers, builds and invalidations: builds never
      overlap, and whatever is served from the cache was built less than the TTL before, with no
      invalidation since that build completed. */
  lemma CacheIsCoherent(states: seq<State>, actions: seq<Action>, n: nat)
    requires IsRun(states, actions) && n < |states|
    ensures forall k :: 0 <= k <= |states[n].log| ==> 0 <= InFlight(states[n].log[..k]) <= 1
    ensures forall k :: 0 <= k < |states[n].log| && states[n].log[k].Served? ==>
      ServedCurrent(states[n].log, states[0].ttl, k)
  {
    RunKeepsInv(states, actions, n);
  }

  // ----- what is fresh is served -----

  /** The build completed at `i` is the last one, not invalidated since. */
  ghost predicate StoredIsCurrent(s: State) {
    forall i: nat :: CurrentFrom(s.log, i, |s.log|) ==> s.slot == Slot(Some(i), s.log[i].at + s.ttl)
  }

  lemma CurrentShrinks(log: seq<Event>, e: Event, i: nat)
    requires CurrentFrom(log + [e], i, |log| + 1)
    ensures i < |log| ==> CurrentFrom(log, i, |log|) && !e.Invalidated? && !e.BuildDone?
    ensures i == |log| ==> e.BuildDone?
  {
    var l := log + [e];
    assert l[|log|] == e;
    assert forall m :: 0 <= m < |log| ==> l[m] == log[m];
  }

  lemma StepKeepsStored(s: State, a: Action)
    requires StoredIsCurrent(s) && Enabled(s, a)
    ensures StoredIsCurrent(Step(s, a))
  {
    var t := Step(s, a);
    var more := LogStep(s, a);
    if more == [] {
      assert t.log == s.log;
    } else {
      assert t.log == s.log + [more[0]] && t.log[|s.log|] == more[0];
      forall i: nat | CurrentFrom(t.log, i, |t.log|) ensures t.slot == Slot(Some(i), t.log[i].at + t.ttl) {
        CurrentShrinks(s.log, more[0], i);
      }
    }
  }

  lemma {:induction false} RunKeepsStored(states: seq<State>, actions: seq<Action>, n: nat)
    requires IsRun(states, actions) && n < |states|
    ensures StoredIsCurrent(states[n])
  {
    if n > 0 {
      RunKeepsStored(states, actions, n - 1);
      StepKeepsStored(states[n - 1], actions[n - 1]);
    }
  }

  /** A build that completed less than the TTL ago, with no invalidation and no newer build since. */
  predicate FreshBuild(s: State, i: nat) {
    CurrentFrom(s.log, i, |s.log|) && s.clock < s.log[i].at + s.ttl
  }

  /** Main result on hits, in every interleaving: a reader that arrives, or gets the lock, is
      served the fresh build if there is one; only without one does it wait, or build. */
  lemma FreshIsServed(states: seq<State>, actions: seq<Action>, n: nat, r: nat)
    requires IsRun(states, actions) && n < |actions| && actions[n] in {Arrive(r), Acquire(r)}
    ensures var s, t := states[n], states[n + 1];
      (forall i: nat :: FreshBuild(s, i) ==> t.log == s.log + [Served(i, s.clock)] && r !in t.waiting)
      && ((forall i: nat :: !FreshBuild(s, i)) ==>
            if actions[n] == Acquire(r) then t.holder == Some(r) && t.log == s.log + [BuildStarted(r)]
            else r in t.waiting && t.log == s.log)
  {
    RunKeepsInv(states, actions, n);
    RunKeepsStored(states, actions, n);
    var s := states[n];
    if Fresh(s) {
      assert FreshBuild(s, s.slot.value.value);
    }
  }

  // ----- builds and invalidations -----

  /** Without a start between, the builds in flight only fall; without an end they only rise. */
  lemma {:induction false} NoStartNoGain(log: seq<Event>, j: nat, i: nat)
    requires j <= i <= |log| && forall m :: j <= m < i ==> !log[m].BuildStarted?
    ensures InFlight(log[..i]) <= InFlight(log[..j])
  {
    if j < i {
      NoStartNoGain(log, j, i - 1);
      assert log[..i][..i - 1] == log[..i - 1];
    }
  }

  lemma {:induction false} NoEndNoLoss(log: seq<Event>, j: nat, i: nat)
    requires j <= i <= |log| && forall m :: j <= m < i ==> !Ends(log[m])
    ensures InFlight(log[..i]) >= InFlight(log[..j])
    ensures (exists m :: j <= m < i && log[m].BuildStarted?) ==> InFlight(log[..i]) > InFlight(log[..j])
  {
    if j < i {
      NoEndNoLoss(log, j, i - 1);
      assert log[..i][..i - 1] == log[..i - 1];
    }
  }

  predicate Ends(e: Event) { e.BuildDone? || e.BuildFailed? }

  predicate StartsBetween(log: seq<Event>, j: nat, i: nat)
    requires i <= |log|
  {
    exists m :: j < m < i && log[m].BuildStarted?
  }

  predicate EndsBetween(log: seq<Event>, j: nat, i: nat)
    requires i <= |log|
  {
    exists m :: j < m < i && Ends(log[m])
  }

  /** An end with no build in flight, or two ends without a start between, need a start. */
  lemma StartNeeded(log: seq<Event>, j: nat, i: nat)
    requires j < i < |log| && log[j].Invalidated? && log[i].BuildDone?
    requires forall k :: 0 <= k <= |log| ==> 0 <= InFlight(log[..k]) <= 1
    requires InFlight(log[..j]) == 0 || EndsBetween(log, j, i)
    ensures StartsBetween(log, j, i)
  {
    assert log[..i + 1][..i] == log[..i];
    if EndsBetween(log, j, i) {
      var m :| j < m < i && Ends(log[m]);
      assert log[..m + 1][..m] == log[..m];
      if !StartsBetween(log, m, i) {
        NoStartNoGain(log, m + 1, i);
      }
    } else if !StartsBetween(log, j, i) {
      NoStartNoGain(log, j, i);
    }
  }

  lemma StartExcluded(log: seq<Event>, j: nat, i: nat)
    requires j < i < |log| && log[j].Invalidated?
    requires forall k :: 0 <= k <= |log| ==> 0 <= InFlight(log[..k]) <= 1
    requires InFlight(log[..j]) != 0 && !EndsBetween(log, j, i)
    ensures !StartsBetween(log, j, i)
  {
    NoEndNoLoss(log, j, i);
  }

  /** Main result on invalidations, in every interleaving: a value served after one was completed
      after it, and its build also started after it exactly when none was in flight at the
      invalidation or another build ended in between. */
  lemma ServedBuildStartedAfter(states: seq<State>, actions: seq<Action>, n: nat, j: nat, k: nat)
    requires IsRun(states, actions) && n < |states| && j < k < |states[n].log|
    requires states[n].log[j].Invalidated? && states[n].log[k].Served?
    ensures j < states[n].log[k].source < k
    ensures StartsBetween(states[n].log, j, states[n].log[k].source)
      <==> InFlight(states[n].log[..j]) == 0 || EndsBetween(states[n].log, j, states[n].log[k].source)
  {
    RunKeepsInv(states, actions, n);
    var log := states[n].log;
    var i := log[k].source;
    assert ServedCurrent(log, states[n].ttl, k);
    if InFlight(log[..j]) == 0 || EndsBetween(log, j, i) {
      StartNeeded(log, j, i);
    } else {
      StartExcluded(log, j, i);
    }
  }

  /** The failing side is reachable: a build that began before the invalidation stores its value
      after it, and the next reader is served that value. */
  lemma StaleBuildServed() returns (states: seq<State>, actions: seq<Action>)
    ensures IsRun(states, actions)
    ensures states[|actions|].log == [BuildStarted(1), Invalidated, BuildDone(0), Served(2, 0)]
  {
    var s0 := State(3, 0, EMPTY, {}, None, []);
    var s1 := State(3, 0, EMPTY, {1}, None, []);
    var s2 := State(3, 0, EMPTY, {}, Some(1), [BuildStarted(1)]);
    var s3 := State(3, 0, EMPTY, {}, Some(1), [BuildStarted(1), Invalidated]);
    var s4 := State(3, 0, Slot(Some(2), 3), {}, None, [BuildStarted(1), Invalidated, BuildDone(0)]);
    var s5 := State(3, 0, Slot(Some(2), 3), {}, None, [BuildStarted(1), Invalidated, BuildDone(0), Served(2, 0)]);
    states := [s0, s1, s2, s3, s4, s5];
    actions := [Arrive(1), Acquire(1), Invalidate, Finish, Arrive(2)];
    assert Step(s0, Arrive(1)) == s1;
    assert Step(s1, Acquire(1)) == s2;
  }
}
