/** The worker's per-session channel leases and their idle collector. Every step below is one
    stretch of code between two suspension points; the collector's snapshot and its re-check are
    separate steps, so tasks may start and complete in between. */
module ChannelLeases {
  import opened OrderedDict

  datatype Lease = Lease(slot: string, user: string, lastActive: int, inflight: Option<string>)

  /** A dispatched task; the fields are already trimmed text. */
  datatype Task = Task(session: string, slot: string, user: string, id: string)

  /** The collector's private copy of a lease it means to release. */
  datatype Candidate = Candidate(session: string, lease: Lease)

  type Leases = map<string, Lease>

  function Marker(id: string): Option<string> { if id == "" then None else Some(id) }

  predicate OpensLease(t: Task) { t.session != "" && t.slot != "" }

  /** `_mark_channel_task_started` */
  function MarkedStarted(leases: Leases, t: Task, now: int): Leases {
    if OpensLease(t) then leases[t.session := Lease(t.slot, t.user, now, Marker(t.id))] else leases
  }

  /** `_mark_channel_task_completed`: clears the marker whatever task it names. */
  function MarkedCompleted(leases: Leases, session: string, now: int): Leases {
    if session != "" && session in leases
    then leases[session := leases[session].(lastActive := now, inflight := None)]
    else leases
  }

  predicate Releasable(l: Lease, now: int, timeout: int) { l.inflight == None && now - l.lastActive >= timeout }

  /** The list the scan builds, in any order of the dictionary. */
  ghost predicate IsScan(leases: Leases, now: int, timeout: int, found: seq<Candidate>) {
    (forall i :: 0 <= i < |found| ==>
      found[i].session in leases && found[i].lease == leases[found[i].session]
      && Releasable(found[i].lease, now, timeout))
    && (forall i, j :: 0 <= i < j < |found| ==> found[i].session != found[j].session)
    && (forall s :: s in leases && Releasable(leases[s], now, timeout) ==> Candidate(s, leases[s]) in found)
  }

  /** The re-check after the release was submitted. */
  predicate Unchanged(leases: Leases, c: Candidate) {
    c.session in leases && leases[c.session].slot == c.lease.slot && leases[c.session].inflight == None
    && leases[c.session].lastActive == c.lease.lastActive
  }

  function Rechecked(leases: Leases, c: Candidate): Leases {
    if Unchanged(leases, c) then leases - {c.session} else leases
  }

  /** The lease table with the worker's own methods, one per critical section of the lock. */
  class ChannelLeaseTable {
    var states: Leases

    method MarkChannelTaskStarted(t: Task, now: int)
      modifies this
      ensures states == MarkedStarted(old(states), t, now)
      ensures t.session != "" && t.slot != "" ==> t.session in states
      ensures t.session == "" || t.slot == "" ==> states == old(states)
    {
      if t.session == "" || t.slot == "" {
        return;
      }
      states := states[t.session := Lease(t.slot, t.user, now, if t.id == "" then None else Some(t.id))];
    }

    method MarkChannelTaskCompleted(session: string, now: int)
      modifies this
      ensures states == MarkedCompleted(old(states), session, now)
    {
      if session == "" || session !in states {
        return;
      }
      var current := states[session];
      states := states[session := Lease(current.slot, current.user, now, None)];
    }

    /** The snapshot half of `_release_idle_channels_if_needed`. */
    method CollectIdle(now: int, timeout: int) returns (found: seq<Candidate>)
      ensures IsScan(states, now, timeout, found)
      ensures forall i :: 0 <= i < |found| ==>
        found[i].lease.inflight == None && now - found[i].lease.lastActive >= timeout
      ensures forall s :: s in states && states[s].inflight == None && now - states[s].lastActive >= timeout ==>
        Candidate(s, states[s]) in found
    {
      found := [];
      var rest := states.Keys;
      while rest != {}
        invariant rest <= states.Keys
        invariant forall i :: 0 <= i < |found| ==>
          found[i].session in states && found[i].session !in rest && found[i].lease == states[found[i].session]
          && Releasable(found[i].lease, now, timeout)
        invariant forall i, j :: 0 <= i < j < |found| ==> found[i].session != found[j].session
        invariant forall s :: s in states && s !in rest && Releasable(states[s], now, timeout) ==>
          Candidate(s, states[s]) in found
        decreases |rest|
      {
        var s :| s in rest;
        rest := rest - {s};
        var state := states[s];
        if state.inflight != None {
          continue;
        }
        if now - state.lastActive < timeout {
          continue;
        }
        found := found + [Candidate(s, state)];
      }
    }

    /** The locked half that follows a submitted release. */
    method DropIfUnchanged(c: Candidate)
      modifies this
      ensures states == Rechecked(old(states), c)
    {
      if c.session !in states {
        return;
      }
      var current := states[c.session];
      if current.slot != c.lease.slot || current.inflight != None {
        return;
      }
      if current.lastActive != c.lease.lastActive {
        return;
      }
      states := states - {c.session};
    }
  }

  // ----- interleavings -----

  /** What an observer sees; a start or completion is recorded when it touched a lease. */
  datatype Event =
    | Scanned(now: int, found: seq<Candidate>)
    | Reported(reported: string, slot: string)
    | Started(started: Task, at: int)
    | Completed(completed: string, at: int)
    | Dropped(dropped: string, lease: Lease)

  /** Where the collector is parked. `scan` is the place of its scan in the log. */
  datatype Phase =
    | Idle
    | Clocked(now: int)
    | Releasing(todo: seq<Candidate>, scan: nat)
    | Submitted(todo: seq<Candidate>, scan: nat)

  /** `outstanding` holds the tasks from their start mark until their handler ends. A handler may
      mark completion more than once: a cancel or an error behind the first mark marks again.
      `marked` is history: the outstanding handlers that have marked completion. */
  datatype State = State(
    timeout: int,
    clock: int,
    leases: Leases,
    phase: Phase,
    outstanding: map<nat, Task>,
    marked: set<nat>,
    log: seq<Event>)

  datatype Action =
    | Tick(clock: int)
    | Start(handle: nat, task: Task)
    | Complete(handle: nat)
    | End(handle: nat)
    | Recover(recovered: Leases)
    | ReadClock
    | Scan(found: seq<Candidate>)
    | SubmitSucceeds
    | SubmitFails
    | Recheck
    | CancelCollector

  ghost predicate Enabled(s: State, a: Action) {
    match a
    case Tick(clock) => s.clock <= clock
    case Start(h, _) => h !in s.outstanding
    case Complete(h) => h in s.outstanding
    case End(h) => h in s.outstanding
    case Recover(_) => s.phase.Idle?
    case ReadClock => s.phase.Idle?
    case Scan(found) => s.phase.Clocked? && IsScan(s.leases, s.phase.now, s.timeout, found)
    case SubmitSucceeds => s.phase.Releasing? && s.phase.todo != []
    case SubmitFails => s.phase.Releasing? && s.phase.todo != []
    case Recheck => s.phase.Submitted? && s.phase.todo != []
    case CancelCollector => true
  }

  function Advance(todo: seq<Candidate>, scan: nat): Phase { if todo == [] then Idle else Releasing(todo, scan) }

  ghost function Step(s: State, a: Action): State
    requires Enabled(s, a)
  {
    match a
    case Tick(clock) => s.(clock := clock)
    case Start(h, t) =>
      s.(leases := MarkedStarted(s.leases, t, s.clock),
         outstanding := s.outstanding[h := t],
         log := if OpensLease(t) then s.log + [Started(t, s.clock)] else s.log)
    case Complete(h) =>
      var t := s.outstanding[h];
      s.(leases := MarkedCompleted(s.leases, t.session, s.clock),
         marked := s.marked + {h},
         log := if t.session != "" && t.session in s.leases then s.log + [Completed(t.session, s.clock)] else s.log)
    case End(h) => s.(outstanding := s.outstanding - {h}, marked := s.marked - {h})
    case Recover(recovered) => s.(leases := s.leases + recovered)
    case ReadClock => s.(phase := Clocked(s.clock))
    case Scan(found) =>
      s.(phase := Advance(found, |s.log|), log := s.log + [Scanned(s.phase.now, found)])
    case SubmitSucceeds =>
      var c := s.phase.todo[0];
      s.(phase := Submitted(s.phase.todo, s.phase.scan), log := s.log + [Reported(c.session, c.lease.slot)])
    case SubmitFails => s.(phase := Idle)
    case Recheck =>
      var c := s.phase.todo[0];
      s.(leases := Rechecked(s.leases, c),
         phase := Advance(s.phase.todo[1..], s.phase.scan),
         log := if Unchanged(s.leases, c) then s.log + [Dropped(c.session, s.leases[c.session])] else s.log)
    case CancelCollector => s.(phase := Idle)
  }

  predicate Initial(s: State) {
    s.timeout >= 60 && s.phase == Idle && s.log == [] && s.outstanding == map[] && s.marked == {}
  }

  /** Each state follows from the one before by the action beside it. */
  ghost predicate IsPath(states: seq<State>, actions: seq<Action>) {
    |states| == |actions| + 1
    && forall i :: 0 <= i < |actions| ==> Follows(states[i], actions[i], states[i + 1])
  }

  ghost predicate Follows(s: State, a: Action, t: State) { Enabled(s, a) && t == Step(s, a) }

  ghost predicate IsRun(states: seq<State>, actions: seq<Action>) { IsPath(states, actions) && Initial(states[0]) }

  // ----- why a drop is safe -----

  predicate Touches(e: Event, session: string) {
    (e.Started? && e.started.session == session) || (e.Completed? && e.completed == session)
  }

  predicate TouchedSince(log: seq<Event>, from: nat, session: string) {
    exists m :: from < m < |log| && Touches(log[m], session)
  }

  /** The collector's view while it works through its candidates. */
  ghost predicate ScanView(s: State, todo: seq<Candidate>, scan: nat) {
    scan < |s.log| && s.log[scan].Scanned? && s.log[scan].now <= s.clock
    && (forall i :: scan < i < |s.log| ==> !s.log[i].Scanned?)
    && (forall i, j :: 0 <= i < j < |todo| ==> todo[i].session != todo[j].session)
    && (forall i :: 0 <= i < |todo| ==>
        && todo[i] in s.log[scan].found
        && Releasable(todo[i].lease, s.log[scan].now, s.timeout)
        && (if TouchedSince(s.log, scan, todo[i].session)
            then todo[i].session in s.leases ==> s.leases[todo[i].session].lastActive >= s.log[scan].now
            else todo[i].session in s.leases && s.leases[todo[i].session] == todo[i].lease))
  }

  /** The history behind a drop: the same lease was scanned as idle long enough and unmarked,
      its release was submitted afterwards, and nothing touched the session from scan to drop. */
  ghost predicate DropJustified(log: seq<Event>, timeout: int, k: nat)
    requires k < |log| && log[k].Dropped?
  {
    exists i, j :: 0 <= i < j < k
      && log[i].Scanned? && Candidate(log[k].dropped, log[k].lease) in log[i].found
      && Releasable(log[k].lease, log[i].now, timeout)
      && log[j] == Reported(log[k].dropped, log[k].lease.slot)
      && forall m :: i < m < k ==> !Touches(log[m], log[k].dropped) && !log[m].Scanned?
  }

  /** The release of the candidate about to be re-checked is in the log. */
  ghost predicate ReportedHead(s: State)
    requires s.phase.Submitted? && s.phase.todo != []
  {
    exists j :: s.phase.scan < j < |s.log| && s.log[j] == Reported(s.phase.todo[0].session, s.phase.todo[0].lease.slot)
  }

  /** The part of the invariant about where the collector is parked. */
  ghost predicate PhaseInv(s: State) {
    (s.phase.Clocked? ==> s.phase.now <= s.clock)
    && (s.phase.Releasing? ==> s.phase.todo != [] && ScanView(s, s.phase.todo, s.phase.scan))
    && (s.phase.Submitted? ==> s.phase.todo != [] && ScanView(s, s.phase.todo, s.phase.scan) && ReportedHead(s))
  }

  ghost predicate Inv(s: State) {
    s.timeout >= 60 && PhaseInv(s)
    && forall k :: 0 <= k < |s.log| && s.log[k].Dropped? ==> DropJustified(s.log, s.timeout, k)
  }

  /** The heart of the argument: after the submit, the re-check drops the lease exactly when
      no start or completion touched the session since the scan. */
  lemma RecheckIffUntouched(s: State)
    requires Inv(s) && s.phase.Submitted?
    ensures Unchanged(s.leases, s.phase.todo[0]) <==> !TouchedSince(s.log, s.phase.scan, s.phase.todo[0].session)
    ensures Unchanged(s.leases, s.phase.todo[0]) ==> s.leases[s.phase.todo[0].session] == s.phase.todo[0].lease
  {
  }

  lemma JustifiedStays(log: seq<Event>, more: seq<Event>, timeout: int, k: nat)
    requires k < |log| && log[k].Dropped? && DropJustified(log, timeout, k)
    ensures DropJustified(log + more, timeout, k)
  {
    var i, j :| 0 <= i < j < k
      && log[i].Scanned? && Candidate(log[k].dropped, log[k].lease) in log[i].found
      && Releasable(log[k].lease, log[i].now, timeout)
      && log[j] == Reported(log[k].dropped, log[k].lease.slot)
      && forall m :: i < m < k ==> !Touches(log[m], log[k].dropped) && !log[m].Scanned?;
    var l := log + more;
    assert l[i] == log[i] && l[j] == log[j] && l[k] == log[k];
    assert forall m :: i < m < k ==> l[m] == log[m];
  }

  lemma LogGrows(s: State, a: Action) returns (more: seq<Event>)
    requires Enabled(s, a)
    ensures Step(s, a).log == s.log + more && |more| <= 1
  {
    var t := Step(s, a);
    more := t.log[|s.log|..];
  }

  lemma TouchedAppend(log: seq<Event>, e: Event, from: nat, session: string)
    requires from < |log|
    ensures TouchedSince(log + [e], from, session) <==> TouchedSince(log, from, session) || Touches(e, session)
  {
    var l := log + [e];
    assert l[|log|] == e;
    assert forall m :: 0 <= m < |log| ==> l[m] == log[m];
    if TouchedSince(log, from, session) {
      var m :| from < m < |log| && Touches(log[m], session);
      assert Touches(l[m], session);
    }
  }

  lemma ViewAfterLease(s: State, t: State, todo: seq<Candidate>, scan: nat, session: string, e: Event)
    requires ScanView(s, todo, scan) && t.timeout == s.timeout && t.clock == s.clock
    requires t.log == s.log + [e] && Touches(e, session)
    requires session in t.leases && t.leases[session].lastActive == s.clock
    requires t.leases.Keys - {session} == s.leases.Keys - {session}
    requires forall k :: k in s.leases && k != session ==> k in t.leases && t.leases[k] == s.leases[k]
    ensures ScanView(t, todo, scan)
  {
    forall i | 0 <= i < |todo|
      ensures if TouchedSince(t.log, scan, todo[i].session)
              then todo[i].session in t.leases ==> t.leases[todo[i].session].lastActive >= t.log[scan].now
              else todo[i].session in t.leases && t.leases[todo[i].session] == todo[i].lease
    {
      TouchedAppend(s.log, e, scan, todo[i].session);
      if todo[i].session != session && todo[i].session in t.leases {
        assert todo[i].session in t.leases.Keys - {session};
      }
    }
  }

  lemma ViewAfterReport(s: State, t: State, todo: seq<Candidate>, scan: nat, e: Event)
    requires ScanView(s, todo, scan) && t.timeout == s.timeout && t.clock == s.clock && t.leases == s.leases
    requires t.log == s.log + [e] && e.Reported?
    ensures ScanView(t, todo, scan)
  {
    forall i | 0 <= i < |todo|
      ensures TouchedSince(t.log, scan, todo[i].session) <==> TouchedSince(s.log, scan, todo[i].session)
    {
      TouchedAppend(s.log, e, scan, todo[i].session);
    }
  }

  lemma ViewAfterRecheck(s: State)
    requires Inv(s) && s.phase.Submitted?
    ensures ScanView(Step(s, Recheck), s.phase.todo[1..], s.phase.scan)
  {
    var t := Step(s, Recheck);
    var rest := s.phase.todo[1..];
    var more := LogGrows(s, Recheck);
    forall i | 0 <= i < |rest|
      ensures TouchedSince(t.log, s.phase.scan, rest[i].session) <==> TouchedSince(s.log, s.phase.scan, rest[i].session)
      ensures rest[i] == s.phase.todo[i + 1]
    {
      if more != [] {
        TouchedAppend(s.log, more[0], s.phase.scan, rest[i].session);
        assert more == [more[0]];
      }
    }
  }

  lemma DropStep(s: State)
    requires Inv(s) && s.phase.Submitted? && Unchanged(s.leases, s.phase.todo[0])
    ensures DropJustified(Step(s, Recheck).log, s.timeout, |s.log|)
  {
    var c, scan := s.phase.todo[0], s.phase.scan;
    var log := Step(s, Recheck).log;
    RecheckIffUntouched(s);
    var j :| scan < j < |s.log| && s.log[j] == Reported(c.session, c.lease.slot);
    assert log[|s.log|] == Dropped(c.session, c.lease);
    assert log[scan] == s.log[scan] && log[j] == s.log[j];
    assert c == Candidate(c.session, c.lease);
    forall m | scan < m < |s.log| ensures !Touches(log[m], c.session) && !log[m].Scanned? {
      assert log[m] == s.log[m];
    }
  }

  lemma ReportStays(s: State, t: State, e: Event)
    requires s.phase.Submitted? && s.phase.todo != [] && ReportedHead(s) && t.phase == s.phase && t.log == s.log + [e]
    ensures ReportedHead(t)
  {
    var j :| s.phase.scan < j < |s.log| && s.log[j] == Reported(s.phase.todo[0].session, s.phase.todo[0].lease.slot);
    assert t.log[j] == s.log[j];
  }

  lemma TouchKeepsPhase(s: State, t: State, session: string, e: Event)
    requires Inv(s) && t.timeout == s.timeout && t.clock == s.clock && t.phase == s.phase
    requires t.log == s.log + [e] && Touches(e, session)
    requires session in t.leases && t.leases[session].lastActive == s.clock
    requires t.leases.Keys - {session} == s.leases.Keys - {session}
    requires forall k :: k in s.leases && k != session ==> k in t.leases && t.leases[k] == s.leases[k]
    ensures PhaseInv(t)
  {
    if s.phase.Releasing? || s.phase.Submitted? {
      ViewAfterLease(s, t, s.phase.todo, s.phase.scan, session, e);
    }
    if s.phase.Submitted? {
      ReportStays(s, t, e);
    }
  }

  lemma SubmitKeepsPhase(s: State)
    requires Inv(s) && Enabled(s, SubmitSucceeds)
    ensures PhaseInv(Step(s, SubmitSucceeds))
  {
    var t := Step(s, SubmitSucceeds);
    var e := Reported(s.phase.todo[0].session, s.phase.todo[0].lease.slot);
    ViewAfterReport(s, t, s.phase.todo, s.phase.scan, e);
    assert t.log[|s.log|] == e;
  }

  lemma StepKeepsPhase(s: State, a: Action)
    requires Inv(s) && Enabled(s, a)
    ensures PhaseInv(Step(s, a))
  {
    var t := Step(s, a);
    match a
    case Start(h, task) =>
      if OpensLease(task) {
        TouchKeepsPhase(s, t, task.session, Started(task, s.clock));
      }
    case Complete(h) =>
      var session := s.outstanding[h].session;
      if session != "" && session in s.leases {
        TouchKeepsPhase(s, t, session, Completed(session, s.clock));
      }
    case SubmitSucceeds => SubmitKeepsPhase(s);
    case Recheck => ViewAfterRecheck(s);
    case _ =>
  }

  lemma StepKeepsInv(s: State, a: Action)
    requires Inv(s) && Enabled(s, a)
    ensures Inv(Step(s, a))
  {
    var t := Step(s, a);
    StepKeepsPhase(s, a);
    var more := LogGrows(s, a);
    forall k | 0 <= k < |t.log| && t.log[k].Dropped? ensures DropJustified(t.log, t.timeout, k) {
      if k < |s.log| {
        assert t.log[k] == s.log[k];
        JustifiedStays(s.log, more, s.timeout, k);
      } else {
        assert a.Recheck?;
        DropStep(s);
      }
    }
  }

  lemma {:induction false} RunKeepsInv(states: seq<State>, actions: seq<Action>, n: nat)
    requires IsRun(states, actions) && n < |states|
    ensures Inv(states[n]) && states[n].timeout == states[0].timeout
  {
    if n > 0 {
      RunKeepsInv(states, actions, n - 1);
      assert Follows(states[n - 1], actions[n - 1], states[n]);
      StepKeepsInv(states[n - 1], actions[n - 1]);
    }
  }

  /** Main result, over every interleaving: each lease ever dropped was scanned unmarked and
      idle for the timeout, its release was submitted after that scan, and from scan to drop
      no task of the session started or completed. */
  lemma EveryDropJustified(states: seq<State>, actions: seq<Action>, n: nat, k: nat)
    requires IsRun(states, actions) && n < |states| && k < |states[n].log| && states[n].log[k].Dropped?
    ensures DropJustified(states[n].log, states[0].timeout, k)
  {
    RunKeepsInv(states, actions, n);
  }

  /** The same without any predicate of the model: a dropped lease bore no marker and had been
      idle for the whole timeout when it was scanned. */
  lemma DroppedAfterTimeout(states: seq<State>, actions: seq<Action>, n: nat, k: nat) returns (i: nat)
    requires IsRun(states, actions) && n < |states| && k < |states[n].log| && states[n].log[k].Dropped?
    ensures i < k && states[n].log[i].Scanned? && states[n].log[k].lease.inflight == None
    ensures states[n].log[i].now - states[n].log[k].lease.lastActive >= states[0].timeout
    ensures forall m :: i < m < k ==> !Touches(states[n].log[m], states[n].log[k].dropped)
  {
    EveryDropJustified(states, actions, n, k);
    var log := states[n].log;
    var i', j :| 0 <= i' < j < k
      && log[i'].Scanned? && Candidate(log[k].dropped, log[k].lease) in log[i'].found
      && Releasable(log[k].lease, log[i'].now, states[0].timeout)
      && log[j] == Reported(log[k].dropped, log[k].lease.slot)
      && forall m :: i' < m < k ==> !Touches(log[m], log[k].dropped) && !log[m].Scanned?;
    i := i';
  }

  // ----- what a lease remembers -----

  /** A run from an empty table that recovers nothing from the gateway. */
  ghost predicate FromEmpty(states: seq<State>, actions: seq<Action>) {
    IsRun(states, actions) && states[0].leases == map[] && forall i :: 0 <= i < |actions| ==> !actions[i].Recover?
  }

  /** The last start of the session, and the instant of its last start or completion. */
  function LastStart(log: seq<Event>, session: string): Option<Task> {
    if log == [] then None
    else
      var e := log[|log| - 1];
      if e.Started? && e.started.session == session then Some(e.started) else LastStart(log[..|log| - 1], session)
  }

  function LastTouchAt(log: seq<Event>, session: string): Option<int> {
    if log == [] then None
    else
      var e := log[|log| - 1];
      if Touches(e, session) then Some(e.at) else LastTouchAt(log[..|log| - 1], session)
  }

  /** The last start or completion of the session in the log is a start. */
  predicate LastIsStart(log: seq<Event>, session: string) {
    log != []
    && if Touches(log[|log| - 1], session) then log[|log| - 1].Started? else LastIsStart(log[..|log| - 1], session)
  }

  /** The lease is what the task events of its session say. */
  ghost predicate Remembers(log: seq<Event>, session: string, l: Lease) {
    exists t :: LastStart(log, session) == Some(t)
      && session != "" && l.slot == t.slot != "" && l.user == t.user
      && LastTouchAt(log, session) == Some(l.lastActive)
      && (l.inflight.Some? <==> LastIsStart(log, session) && t.id != "")
      && (l.inflight.Some? ==> l.inflight.value == t.id)
  }

  lemma AppendKeeps(log: seq<Event>, e: Event, session: string)
    ensures LastStart(log + [e], session)
      == if e.Started? && e.started.session == session then Some(e.started) else LastStart(log, session)
    ensures LastTouchAt(log + [e], session) == if Touches(e, session) then Some(e.at) else LastTouchAt(log, session)
    ensures LastIsStart(log + [e], session) <==> if Touches(e, session) then e.Started? else LastIsStart(log, session)
  {
    assert (log + [e])[..|log|] == log;
  }

  lemma RememberStep(s: State, a: Action, session: string)
    requires Enabled(s, a) && !a.Recover?
    requires session in s.leases ==> Remembers(s.log, session, s.leases[session])
    requires session in Step(s, a).leases
    ensures Remembers(Step(s, a).log, session, Step(s, a).leases[session])
  {
    var more := LogGrows(s, a);
    if more == [] {
      assert s.log + more == s.log;
    } else {
      assert more == [more[0]] && more[0] == Step(s, a).log[|s.log|];
      AppendKeeps(s.log, more[0], session);
      if a.Start? && a.task.session == session {
        assert LastStart(Step(s, a).log, session) == Some(a.task);
      }
    }
  }

  /** Main result on the table: in every run a lease holds the slot and user of the last task
      started on its session, the instant of the last start or completion, and that task's id
      exactly when nothing completed since. */
  lemma {:induction false} LeaseIsHistory(states: seq<State>, actions: seq<Action>, n: nat, session: string)
    requires FromEmpty(states, actions) && n < |states| && session in states[n].leases
    ensures Remembers(states[n].log, session, states[n].leases[session])
  {
    if n > 0 {
      assert Follows(states[n - 1], actions[n - 1], states[n]);
      if session in states[n - 1].leases {
        LeaseIsHistory(states, actions, n - 1, session);
      }
      RememberStep(states[n - 1], actions[n - 1], session);
    }
  }

  // ----- idle time in terms of task events -----

  ghost predicate TimesInv(s: State) {
    (forall m :: 0 <= m < |s.log| && (s.log[m].Started? || s.log[m].Completed?) ==> s.log[m].at <= s.clock)
    && (forall m, x :: 0 <= m < |s.log| && x in s.leases && Touches(s.log[m], x) ==>
          s.log[m].at <= s.leases[x].lastActive)
    && (forall k, m :: 0 <= m < k < |s.log| && s.log[k].Dropped? && Touches(s.log[m], s.log[k].dropped) ==>
          s.log[m].at <= s.log[k].lease.lastActive)
  }

  lemma StepKeepsTimes(s: State, a: Action)
    requires TimesInv(s) && Enabled(s, a) && !a.Recover?
    ensures TimesInv(Step(s, a))
  {
    var t := Step(s, a);
    var more := LogGrows(s, a);
    assert forall m :: 0 <= m < |s.log| ==> t.log[m] == s.log[m];
  }

  lemma {:induction false} RunKeepsTimes(states: seq<State>, actions: seq<Action>, n: nat)
    requires FromEmpty(states, actions) && n < |states|
    ensures TimesInv(states[n])
  {
    if n > 0 {
      RunKeepsTimes(states, actions, n - 1);
      assert Follows(states[n - 1], actions[n - 1], states[n]);
      StepKeepsTimes(states[n - 1], actions[n - 1]);
    }
  }

  /** Main result on idleness: when a lease is dropped, every start and completion of its session
      lies at least the timeout before the scan that condemned it. */
  lemma DroppedSessionsWereIdle(states: seq<State>, actions: seq<Action>, n: nat, k: nat) returns (i: nat)
    requires FromEmpty(states, actions) && n < |states| && k < |states[n].log| && states[n].log[k].Dropped?
    ensures i < k && states[n].log[i].Scanned?
    ensures forall m :: 0 <= m < k && Touches(states[n].log[m], states[n].log[k].dropped) ==>
      states[n].log[m].at + states[0].timeout <= states[n].log[i].now
  {
    i := DroppedAfterTimeout(states, actions, n, k);
    RunKeepsTimes(states, actions, n);
  }

  // ----- running handlers -----

  /** One handler per session until it ends, with an id, and a recovery that keeps their markers. */
  ghost predicate Disciplined(s: State, a: Action) {
    match a
    case Start(_, t) =>
      t.id != "" && forall h :: h in s.outstanding && t.session != "" ==> s.outstanding[h].session != t.session
    case Recover(r) =>
      forall h :: Running(s, h) && s.outstanding[h].session in r ==> Marked(r, s.outstanding[h].session)
    case _ => true
  }

  predicate Marked(leases: Leases, session: string) { session in leases && leases[session].inflight.Some? }

  /** A handler between its start mark and its first completion mark, with a lease to keep. */
  predicate Running(s: State, h: nat) { h in s.outstanding && h !in s.marked && OpensLease(s.outstanding[h]) }

  ghost predicate OneHandlerEach(s: State) {
    s.marked <= s.outstanding.Keys
    && forall h, g :: h in s.outstanding && g in s.outstanding && h != g && s.outstanding[h].session != "" ==>
      s.outstanding[h].session != s.outstanding[g].session
  }

  ghost predicate Guarded(s: State) {
    OneHandlerEach(s) && forall h :: Running(s, h) ==> Marked(s.leases, s.outstanding[h].session)
  }

  lemma StepKeepsHandlers(s: State, a: Action)
    requires OneHandlerEach(s) && Enabled(s, a) && Disciplined(s, a)
    ensures OneHandlerEach(Step(s, a))
  {
    if a.End? {
      assert forall g :: g in Step(s, a).outstanding ==> g in s.outstanding && g != a.handle;
    }
  }

  lemma StepKeepsGuarded(s: State, a: Action)
    requires Guarded(s) && Enabled(s, a) && Disciplined(s, a)
    ensures Guarded(Step(s, a))
  {
    var t := Step(s, a);
    StepKeepsHandlers(s, a);
    forall h | Running(t, h) ensures Marked(t.leases, t.outstanding[h].session) {
      if !(a.Start? && a.handle == h) {
        assert Running(s, h) && t.outstanding[h] == s.outstanding[h];
      }
    }
  }

  /** With one handler per session at a time, no step drops the lease of a running handler. */
  lemma {:induction false} RunningLeaseKept(states: seq<State>, actions: seq<Action>, n: nat)
    requires IsRun(states, actions) && n < |actions|
    requires forall i :: 0 <= i <= n ==> Disciplined(states[i], actions[i])
    ensures Guarded(states[n])
    ensures forall h :: Running(states[n], h) && Running(states[n + 1], h) ==>
      states[n].outstanding[h].session in states[n + 1].leases
  {
    if n > 0 {
      RunningLeaseKept(states, actions, n - 1);
      assert Follows(states[n - 1], actions[n - 1], states[n]);
      StepKeepsGuarded(states[n - 1], actions[n - 1]);
    }
    assert Follows(states[n], actions[n], states[n + 1]);
    StepKeepsGuarded(states[n], actions[n]);
    forall h | Running(states[n], h) && Running(states[n + 1], h)
      ensures states[n + 1].outstanding[h] == states[n].outstanding[h]
    {
    }
  }

  // ----- exactly when a lease is protected -----

  /** A run without recovery, from a table without markers, whose tasks all have ids. */
  ghost predicate Unrecovered(states: seq<State>, actions: seq<Action>) {
    IsRun(states, actions) && (forall x :: !Marked(states[0].leases, x))
    && forall i :: 0 <= i < |actions| ==> !actions[i].Recover? && (actions[i].Start? ==> actions[i].task.id != "")
  }

  /** What a step does to a marker shows in the event it logs. */
  lemma MarkerFollowsEvent(s: State, a: Action, session: string, more: seq<Event>)
    requires Enabled(s, a) && !a.Recover? && (a.Start? ==> a.task.id != "")
    requires Step(s, a).log == s.log + more && |more| <= 1
    ensures Marked(Step(s, a).leases, session) <==>
      if more != [] && Touches(more[0], session) then more[0].Started? else Marked(s.leases, session)
  {
    assert more == Step(s, a).log[|s.log|..];
  }

  lemma MarkedStep(s: State, a: Action, session: string)
    requires Enabled(s, a) && !a.Recover? && (a.Start? ==> a.task.id != "")
    requires Marked(s.leases, session) <==> LastIsStart(s.log, session)
    ensures Marked(Step(s, a).leases, session) <==> LastIsStart(Step(s, a).log, session)
  {
    var more := LogGrows(s, a);
    MarkerFollowsEvent(s, a, session, more);
    if more == [] {
      assert s.log + more == s.log;
    } else {
      assert more == [more[0]];
      AppendKeeps(s.log, more[0], session);
    }
  }

  /** A lease bears a marker exactly when the last task event of its session is a start: one
      completion clears the marker however many tasks were started before it. */
  lemma {:induction false} MarkedIffLastStart(states: seq<State>, actions: seq<Action>, n: nat, session: string)
    requires Unrecovered(states, actions) && n < |states|
    ensures Marked(states[n].leases, session) <==> LastIsStart(states[n].log, session)
  {
    if n > 0 {
      MarkedIffLastStart(states, actions, n - 1, session);
      assert Follows(states[n - 1], actions[n - 1], states[n]);
      MarkedStep(states[n - 1], actions[n - 1], session);
    }
  }

  /** In every run, a step takes a lease away exactly when it re-checks that lease and nothing
      touched the session since the scan; in a run without recovery the last task event of the
      session is then no start. */
  lemma LeaseGoesIff(states: seq<State>, actions: seq<Action>, n: nat, session: string)
    requires IsRun(states, actions) && n < |actions| && session in states[n].leases
    ensures session !in states[n + 1].leases <==>
      actions[n].Recheck? && states[n].phase.todo[0].session == session
      && !TouchedSince(states[n].log, states[n].phase.scan, session)
    ensures Unrecovered(states, actions) && session !in states[n + 1].leases ==> !LastIsStart(states[n].log, session)
  {
    RunKeepsInv(states, actions, n);
    assert Follows(states[n], actions[n], states[n + 1]);
    if actions[n].Recheck? {
      RecheckIffUntouched(states[n]);
    }
    if Unrecovered(states, actions) {
      MarkedIffLastStart(states, actions, n, session);
    }
  }

  /** The step is no task event of the session. */
  predicate Spares(s: State, a: Action, session: string) {
    match a
    case Start(_, t) => t.session != session
    case Complete(h) => h in s.outstanding ==> s.outstanding[h].session != session
    case Recover(_) => false
    case _ => true
  }

  ghost predicate SparingPath(s: State, session: string, states: seq<State>, actions: seq<Action>) {
    IsPath(states, actions) && states[0] == s
    && forall i :: 0 <= i < |actions| ==> Spares(states[i], actions[i], session)
  }

  lemma {:induction false} MarkedStays(s: State, session: string, states: seq<State>, actions: seq<Action>, n: nat)
    requires SparingPath(s, session, states, actions) && Marked(s.leases, session) && n < |states|
    ensures Marked(states[n].leases, session)
  {
    if n > 0 {
      MarkedStays(s, session, states, actions, n - 1);
      assert Follows(states[n - 1], actions[n - 1], states[n]);
      assert Spares(states[n - 1], actions[n - 1], session);
    }
  }

  /** The scan of a part of the table. */
  lemma {:induction false} ScanOfKeys(leases: Leases, keys: set<string>, now: int, timeout: int)
    returns (found: seq<Candidate>)
    requires keys <= leases.Keys
    ensures forall i :: 0 <= i < |found| ==>
      found[i].session in keys && found[i].lease == leases[found[i].session] && Releasable(found[i].lease, now, timeout)
    ensures forall i, j :: 0 <= i < j < |found| ==> found[i].session != found[j].session
    ensures forall x :: x in keys && Releasable(leases[x], now, timeout) ==> Candidate(x, leases[x]) in found
  {
    found := [];
    if keys != {} {
      var x :| x in keys;
      var rest := ScanOfKeys(leases, keys - {x}, now, timeout);
      found := if Releasable(leases[x], now, timeout) then [Candidate(x, leases[x])] + rest else rest;
    }
  }

  lemma ScanStartingWith(leases: Leases, session: string, now: int, timeout: int) returns (found: seq<Candidate>)
    requires session in leases && Releasable(leases[session], now, timeout)
    ensures IsScan(leases, now, timeout, found) && found != [] && found[0] == Candidate(session, leases[session])
  {
    var rest := ScanOfKeys(leases, leases.Keys - {session}, now, timeout);
    found := [Candidate(session, leases[session])] + rest;
  }

  lemma HeadDropped(s: State, session: string)
    requires session in s.leases && !Marked(s.leases, session)
    requires s.phase.Releasing? && s.phase.todo != [] && s.phase.todo[0] == Candidate(session, s.leases[session])
    ensures var t := Step(s, SubmitSucceeds);
      Enabled(t, Recheck)
      && Step(t, Recheck).leases == s.leases - {session}
      && Step(t, Recheck).outstanding == s.outstanding && Step(t, Recheck).marked == s.marked
  {
  }

  /** Six steps of the collector make a path. */
  lemma SixSteps(s: seq<State>, a: seq<Action>, session: string)
    requires |s| == 7 && |a| == 6
    requires forall i :: 0 <= i < 6 ==> !a[i].Start? && !a[i].Complete? && !a[i].Recover?
    requires Follows(s[0], a[0], s[1]) && Follows(s[1], a[1], s[2]) && Follows(s[2], a[2], s[3])
    requires Follows(s[3], a[3], s[4]) && Follows(s[4], a[4], s[5]) && Follows(s[5], a[5], s[6])
    ensures SparingPath(s[0], session, s, a)
  {
  }

  /** From any state the collector alone can drop an unmarked lease. */
  lemma CollectorDrops(s: State, session: string) returns (states: seq<State>, actions: seq<Action>)
    requires session in s.leases && !Marked(s.leases, session)
    ensures SparingPath(s, session, states, actions) && states[|actions|].leases == s.leases - {session}
    ensures states[|actions|].outstanding == s.outstanding && states[|actions|].marked == s.marked
    ensures forall i :: 0 <= i < |actions| ==> !actions[i].Start?
  {
    var l := s.leases[session];
    var now := if s.clock >= l.lastActive + s.timeout then s.clock else l.lastActive + s.timeout;
    var found := ScanStartingWith(s.leases, session, now, s.timeout);
    var s1 := Step(s, CancelCollector);
    var s2 := Step(s1, Tick(now));
    var s3 := Step(s2, ReadClock);
    assert s3.leases == s.leases && s3.phase == Clocked(now);
    var s4 := Step(s3, Scan(found));
    assert s4.leases == s.leases && s4.phase == Releasing(found, |s.log|);
    HeadDropped(s4, session);
    var s5 := Step(s4, SubmitSucceeds);
    var s6 := Step(s5, Recheck);
    states := [s, s1, s2, s3, s4, s5, s6];
    actions := [CancelCollector, Tick(now), ReadClock, Scan(found), SubmitSucceeds, Recheck];
    SixSteps(states, actions, session);
  }

  /** Main result, for every reachable state of a run without recovery: a lease outlasts
      everything that can happen short of another task event of its session exactly when the
      last such event was a start. */
  lemma LeaseSurvivesIff(states: seq<State>, actions: seq<Action>, n: nat, session: string)
    requires Unrecovered(states, actions) && n < |states| && session in states[n].leases
    ensures LastIsStart(states[n].log, session) <==>
      forall ss: seq<State>, aa: seq<Action> :: SparingPath(states[n], session, ss, aa) ==> session in ss[|aa|].leases
  {
    MarkedIffLastStart(states, actions, n, session);
    if LastIsStart(states[n].log, session) {
      forall ss: seq<State>, aa: seq<Action> | SparingPath(states[n], session, ss, aa)
        ensures session in ss[|aa|].leases
      {
        MarkedStays(states[n], session, ss, aa, |aa|);
      }
    } else {
      var ss, aa := CollectorDrops(states[n], session);
      assert SparingPath(states[n], session, ss, aa);
    }
  }

  // ----- the discipline is needed -----

  const ONE := Task("s", "slot", "u", "1")
  const TWO := Task("s", "slot", "u", "2")
  const NOTHING := State(60, 0, map[], Idle, map[], {}, [])

  lemma JoinPaths(states: seq<State>, actions: seq<Action>, ss: seq<State>, aa: seq<Action>)
    requires IsPath(states, actions) && IsPath(ss, aa) && ss[0] == states[|actions|]
    ensures IsPath(states + ss[1..], actions + aa)
    ensures (states + ss[1..])[0] == states[0] && (states + ss[1..])[|actions + aa|] == ss[|aa|]
  {
    var xs, xa := states + ss[1..], actions + aa;
    forall i | 0 <= i < |xa| ensures Follows(xs[i], xa[i], xs[i + 1]) {
      if i < |actions| {
        assert Follows(states[i], actions[i], states[i + 1]);
      } else {
        assert Follows(ss[i - |actions|], aa[i - |actions|], ss[i - |actions| + 1]);
      }
    }
  }

  /** Without that discipline the guarantee fails: with two tasks on one session, the first
      completion clears the marker, and the lease is dropped while the second still runs. */
  lemma SecondTaskLosesLease() returns (states: seq<State>, actions: seq<Action>)
    ensures IsRun(states, actions)
    ensures Running(states[|actions|], 2) && states[|actions|].outstanding[2].session !in states[|actions|].leases
  {
    var s1 := Step(NOTHING, Start(1, ONE));
    var s2 := Step(s1, Start(2, TWO));
    var s3 := Step(s2, Complete(1));
    states, actions := [NOTHING, s1, s2, s3], [Start(1, ONE), Start(2, TWO), Complete(1)];
    var ss, aa := CollectorDrops(s3, "s");
    JoinPaths(states, actions, ss, aa);
    states, actions := states + ss[1..], actions + aa;
  }

  /** It is not enough that the first task has marked its completion: while its handler winds
      down it can mark again, behind the start of the second task. Every start of this run finds
      no running handler, and the second task still loses its lease. */
  lemma SecondMarkLosesLease() returns (states: seq<State>, actions: seq<Action>)
    ensures IsRun(states, actions)
    ensures forall i, h :: 0 <= i < |actions| && actions[i].Start? ==> !Running(states[i], h)
    ensures Running(states[|actions|], 2) && states[|actions|].outstanding[2].session !in states[|actions|].leases
  {
    var s1 := Step(NOTHING, Start(1, ONE));
    var s2 := Step(s1, Complete(1));
    var s3 := Step(s2, Start(2, TWO));
    var s4 := Step(s3, Complete(1));
    var before, steps := [NOTHING, s1, s2, s3, s4], [Start(1, ONE), Complete(1), Start(2, TWO), Complete(1)];
    var ss, aa := CollectorDrops(s4, "s");
    JoinPaths(before, steps, ss, aa);
    states, actions := before + ss[1..], steps + aa;
    forall i, h | 0 <= i < |actions| && actions[i].Start? ensures !Running(states[i], h) {
      assert i < 4 && actions[i] == steps[i] && states[i] == before[i];
    }
  }
}
