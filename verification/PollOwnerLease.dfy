/** The console's multi-tab polling lease: a record with an expiry time in storage shared by all
    tabs of a browser decides which tab polls a session over HTTP. */
module PollOwnerLease {
  import opened OrderedDict

  const TTL_MS := 15000
  const REFRESH_MS := 5000

  datatype Record = Record(tab: nat, expiresAt: int)

  /** `claimPollingOwnership`, for a visible tab. */
  predicate Claimable(owner: Option<Record>, tab: nat, now: int) {
    !(owner.Some? && owner.value.tab != tab && owner.value.expiresAt > now)
  }

  function Claimed(owner: Option<Record>, tab: nat, now: int): Option<Record> {
    if Claimable(owner, tab, now) then Some(Record(tab, now + TTL_MS)) else owner
  }

  /** `clearSessionPollOwner` */
  function Cleared(owner: Option<Record>, tab: nat): Option<Record> {
    if owner.Some? && owner.value.tab == tab then None else owner
  }

  /** The slot in `localStorage` for one session. */
  class SharedStorage {
    var owner: Option<Record>
  }

  /** The closure variables of one effect. A timer is the instant it fires at, or None. */
  datatype Tab = Tab(
    cancelled: bool,
    hidden: bool,
    socketReady: bool,
    requestInFlight: bool,
    pollTimer: Option<int>,
    heartbeatTimer: Option<int>)

  /** `scheduleOwnerHeartbeat` */
  function Heartbeat(tab: Tab, owner: Option<Record>, id: nat, now: int): (Tab, Option<Record>) {
    var stopped := tab.(heartbeatTimer := None);
    if tab.cancelled || tab.hidden || !Claimable(owner, id, now) then (stopped, owner)
    else (stopped.(heartbeatTimer := Some(now + REFRESH_MS)), Claimed(owner, id, now))
  }

  /** `canRunTimerPolling`: claim, and on success claim again through the heartbeat. */
  function CanPoll(tab: Tab, owner: Option<Record>, id: nat, now: int): (bool, Tab, Option<Record>) {
    if tab.hidden || !Claimable(owner, id, now) then (false, tab, owner)
    else
      var (t, o) := Heartbeat(tab, Claimed(owner, id, now), id, now);
      (true, t, o)
  }

  /** `scheduleHttpPolling` */
  function Schedule(tab: Tab, owner: Option<Record>, id: nat, now: int, delay: nat): (Tab, Option<Record>) {
    var stopped := tab.(pollTimer := None);
    if tab.cancelled then (stopped, owner)
    else
      var (ok, t, o) := CanPoll(stopped, owner, id, now);
      (if ok then t.(pollTimer := Some(now + delay)) else t, o)
  }

  class PollingTab {
    const id: nat
    const storage: SharedStorage
    var cancelled: bool
    var hidden: bool
    var socketReady: bool
    var requestInFlight: bool
    var httpTimer: Option<int>
    var ownerHeartbeatTimer: Option<int>

    constructor (id: nat, storage: SharedStorage, hidden: bool)
      ensures this.id == id && this.storage == storage && View() == Tab(false, hidden, false, false, None, None)
    {
      this.id, this.storage := id, storage;
      cancelled, this.hidden, socketReady, requestInFlight := false, hidden, false, false;
      httpTimer, ownerHeartbeatTimer := None, None;
    }

    function View(): Tab
      reads this
    {
      Tab(cancelled, hidden, socketReady, requestInFlight, httpTimer, ownerHeartbeatTimer)
    }

    method ClaimPollingOwnership(now: int) returns (claimed: bool)
      modifies storage
      ensures claimed == (!hidden && Claimable(old(storage.owner), id, now))
      ensures storage.owner == if hidden then old(storage.owner) else Claimed(old(storage.owner), id, now)
    {
      if hidden {
        return false;
      }
      var current := storage.owner;
      if current.Some? && current.value.tab != id && current.value.expiresAt > now {
        return false;
      }
      storage.owner := Some(Record(id, now + TTL_MS));
      return true;
    }

    method ScheduleOwnerHeartbeat(now: int)
      modifies this, storage
      ensures (View(), storage.owner) == Heartbeat(old(View()), old(storage.owner), id, now)
    {
      ownerHeartbeatTimer := None;
      if cancelled || hidden {
        return;
      }
      var claimed := ClaimPollingOwnership(now);
      if !claimed {
        return;
      }
      ownerHeartbeatTimer := Some(now + REFRESH_MS);
    }

    method CanRunTimerPolling(now: int) returns (ok: bool)
      modifies this, storage
      ensures (ok, View(), storage.owner) == CanPoll(old(View()), old(storage.owner), id, now)
    {
      if hidden {
        return false;
      }
      var claimed := ClaimPollingOwnership(now);
      if claimed {
        ScheduleOwnerHeartbeat(now);
        return true;
      }
      return false;
    }

    method ScheduleHttpPolling(now: int, delay: nat)
      modifies this, storage
      ensures (View(), storage.owner) == Schedule(old(View()), old(storage.owner), id, now, delay)
    {
      httpTimer := None;
      if cancelled {
        return;
      }
      var ok := CanRunTimerPolling(now);
      if !ok {
        return;
      }
      httpTimer := Some(now + delay);
    }

    /** The effect's cleanup. */
    method Cleanup()
      modifies this, storage
      ensures View() == old(View()).(cancelled := true, pollTimer := None, heartbeatTimer := None)
      ensures storage.owner == Cleared(old(storage.owner), id)
    {
      cancelled := true;
      httpTimer := None;
      ownerHeartbeatTimer := None;
      var current := storage.owner;
      if current == None || current.value.tab != id {
        return;
      }
      storage.owner := None;
    }
  }

  // ----- any number of tabs -----

  datatype Event = Claims(tab: nat, at: int) | Releases(tab: nat) | Polls(tab: nat, at: int)

  datatype World = World(clock: int, owner: Option<Record>, tabs: map<nat, Tab>, log: seq<Event>)

  datatype Action =
    | Tick(clock: int)
    | Mount(tab: nat, hidden: bool)         // a new effect of a tab, ending with its first heartbeat
    | PollTimerFires(tab: nat)
    | HeartbeatFires(tab: nat)
    | OtherLoad(tab: nat)                   // bootstrap, reconnect and visibility loads need no claim
    | RequestEnds(tab: nat, failed: bool, delay: nat)
    | SocketOpens(tab: nat)
    | SocketCloses(tab: nat, delay: nat)
    | Hide(tab: nat)
    | Show(tab: nat)
    | Unmount(tab: nat)

  predicate Live(w: World, tab: nat) { tab in w.tabs && !w.tabs[tab].cancelled }

  predicate Due(timer: Option<int>, clock: int) { timer.Some? && timer.value <= clock }

  predicate Enabled(w: World, a: Action) {
    match a
    case Tick(clock) => w.clock <= clock
    case Mount(tab, _) => !Live(w, tab)
    case OtherLoad(tab) => Live(w, tab) && !w.tabs[tab].requestInFlight
    case PollTimerFires(tab) => tab in w.tabs && Due(w.tabs[tab].pollTimer, w.clock)
    case HeartbeatFires(tab) => tab in w.tabs && Due(w.tabs[tab].heartbeatTimer, w.clock)
    case RequestEnds(tab, _, _) => tab in w.tabs && w.tabs[tab].requestInFlight
    case SocketOpens(tab) => Live(w, tab)
    case SocketCloses(tab, _) => Live(w, tab)
    case Hide(tab) => Live(w, tab)
    case Show(tab) => Live(w, tab)
    case Unmount(tab) => Live(w, tab)
  }

  /** The log gains a claim whenever storage was written by a claim. */
  function WithTab(w: World, tab: nat, t: Tab, owner: Option<Record>, claimed: bool): World {
    World(w.clock, owner, w.tabs[tab := t], if claimed then w.log + [Claims(tab, w.clock)] else w.log)
  }

  function Beat(w: World, tab: nat, t: Tab): World {
    var (t', o) := Heartbeat(t, w.owner, tab, w.clock);
    WithTab(w, tab, t', o, t'.heartbeatTimer.Some?)
  }

  function Replan(w: World, tab: nat, t: Tab, delay: nat): World {
    var (t', o) := Schedule(t, w.owner, tab, w.clock, delay);
    WithTab(w, tab, t', o, t'.pollTimer.Some?)
  }

  /** A poll timer callback: claim, then `loadMessages(…, "timer")` with its own guards. */
  function Fire(w: World, tab: nat): World
    requires tab in w.tabs
  {
    var t := w.tabs[tab].(pollTimer := None);
    var (ok, t', o) := CanPoll(t, w.owner, tab, w.clock);
    var v := WithTab(w, tab, t', o, ok);
    if ok && !t'.cancelled && !t'.requestInFlight && !t'.socketReady
    then v.(tabs := v.tabs[tab := t'.(requestInFlight := true)], log := v.log + [Polls(tab, w.clock)])
    else v
  }

  function Step(w: World, a: Action): World
    requires Enabled(w, a)
  {
    match a
    case Tick(clock) => w.(clock := clock)
    case Mount(tab, hidden) => Beat(w, tab, Tab(false, hidden, false, false, None, None))
    case PollTimerFires(tab) => Fire(w, tab)
    case HeartbeatFires(tab) => Beat(w, tab, w.tabs[tab])
    case OtherLoad(tab) => w.(tabs := w.tabs[tab := w.tabs[tab].(requestInFlight := true)])
    // a failure schedules the next poll even under an open socket; the timer callback re-checks
    case RequestEnds(tab, failed, delay) =>
      var t := w.tabs[tab].(requestInFlight := false);
      if t.cancelled || (t.socketReady && !failed) then w.(tabs := w.tabs[tab := t]) else Replan(w, tab, t, delay)
    case SocketOpens(tab) => w.(tabs := w.tabs[tab := w.tabs[tab].(pollTimer := None, socketReady := true)])
    case SocketCloses(tab, delay) =>
      var t := w.tabs[tab].(socketReady := false);
      if t.hidden then w.(tabs := w.tabs[tab := t]) else Replan(w, tab, t, delay)
    case Hide(tab) => w.(tabs := w.tabs[tab := w.tabs[tab].(hidden := true, pollTimer := None, heartbeatTimer := None)])
    case Show(tab) => Beat(w, tab, w.tabs[tab].(hidden := false))
    case Unmount(tab) =>
      var cleared := Cleared(w.owner, tab);
      World(w.clock, cleared,
            w.tabs[tab := w.tabs[tab].(cancelled := true, pollTimer := None, heartbeatTimer := None)],
            if cleared != w.owner then w.log + [Releases(tab)] else w.log)
  }

  ghost predicate IsRun(worlds: seq<World>, actions: seq<Action>) {
    |worlds| == |actions| + 1 && worlds[0].tabs == map[] && worlds[0].log == []
    && forall i :: 0 <= i < |actions| ==> Enabled(worlds[i], actions[i]) && worlds[i + 1] == Step(worlds[i], actions[i])
  }

  // ----- safety -----

  predicate ReleasedAfter(log: seq<Event>, i: nat, tab: nat) {
    exists k :: i < k < |log| && log[k] == Releases(tab)
  }

  /** Every claim still binds: it is old, it was released, or the record is still its tab's. */
  ghost predicate ClaimsHold(w: World) {
    forall i :: 0 <= i < |w.log| && w.log[i].Claims? ==>
      w.log[i].at <= w.clock
      && (w.clock >= w.log[i].at + TTL_MS
          || ReleasedAfter(w.log, i, w.log[i].tab)
          || (w.owner.Some? && w.owner.value.tab == w.log[i].tab && w.owner.value.expiresAt >= w.log[i].at + TTL_MS))
  }

  /** Two claims by different tabs are a full lease apart, or the first tab released in between. */
  ghost predicate ClaimsSeparated(log: seq<Event>) {
    forall i, j :: 0 <= i < j < |log| && log[i].Claims? && log[j].Claims? && log[i].tab != log[j].tab ==>
      log[j].at >= log[i].at + TTL_MS || exists k :: i < k < j && log[k] == Releases(log[i].tab)
  }

  /** Each poll stands right behind a claim by the same tab at the same instant. */
  ghost predicate PollsClaimed(log: seq<Event>) {
    forall i :: 0 <= i < |log| && log[i].Polls? ==> i > 0 && log[i - 1] == Claims(log[i].tab, log[i].at)
  }

  ghost predicate TimersStopped(w: World) {
    forall t :: t in w.tabs && (w.tabs[t].cancelled || w.tabs[t].hidden) ==>
      w.tabs[t].pollTimer == None && w.tabs[t].heartbeatTimer == None
  }

  /** An unmounted tab never holds the record again. */
  ghost predicate OwnersLive(w: World) {
    forall t :: t in w.tabs && w.tabs[t].cancelled ==> !(w.owner.Some? && w.owner.value.tab == t)
  }

  ghost predicate Inv(w: World) {
    ClaimsHold(w) && ClaimsSeparated(w.log) && PollsClaimed(w.log) && TimersStopped(w) && OwnersLive(w)
  }

  lemma ReleasedStays(log: seq<Event>, more: seq<Event>, i: nat, tab: nat)
    requires ReleasedAfter(log, i, tab)
    ensures ReleasedAfter(log + more, i, tab)
  {
    var k :| i < k < |log| && log[k] == Releases(tab);
    assert (log + more)[k] == Releases(tab);
  }

  /** One successful claim. */
  lemma ClaimStep(w: World, tab: nat, tabs: map<nat, Tab>)
    requires ClaimsHold(w) && ClaimsSeparated(w.log) && PollsClaimed(w.log) && Claimable(w.owner, tab, w.clock)
    ensures var v := World(w.clock, Claimed(w.owner, tab, w.clock), tabs, w.log + [Claims(tab, w.clock)]);
      ClaimsHold(v) && ClaimsSeparated(v.log) && PollsClaimed(v.log)
  {
    var log := w.log + [Claims(tab, w.clock)];
    forall i | 0 <= i < |w.log| && w.log[i].Claims? && w.log[i].tab != tab
      ensures w.clock >= w.log[i].at + TTL_MS || exists k :: i < k < |w.log| && log[k] == Releases(w.log[i].tab)
    {
      if ReleasedAfter(w.log, i, w.log[i].tab) {
        var k :| i < k < |w.log| && w.log[k] == Releases(w.log[i].tab);
        assert log[k] == w.log[k];
      }
    }
    forall i | 0 <= i < |w.log| && ReleasedAfter(w.log, i, w.log[i].tab) ensures ReleasedAfter(log, i, w.log[i].tab) {
      ReleasedStays(w.log, [Claims(tab, w.clock)], i, w.log[i].tab);
    }
    SeparatedAppend(w.log, Claims(tab, w.clock));
  }

  lemma SeparatedAppend(log: seq<Event>, e: Event)
    requires ClaimsSeparated(log)
    requires e.Claims? ==> forall i :: 0 <= i < |log| && log[i].Claims? && log[i].tab != e.tab ==>
      e.at >= log[i].at + TTL_MS || exists k :: i < k < |log| && (log + [e])[k] == Releases(log[i].tab)
    ensures ClaimsSeparated(log + [e])
  {
    var l := log + [e];
    forall i, j | 0 <= i < j < |l| && l[i].Claims? && l[j].Claims? && l[i].tab != l[j].tab
      ensures l[j].at >= l[i].at + TTL_MS || exists k :: i < k < j && l[k] == Releases(l[i].tab)
    {
      if j < |log| {
        assert l[i] == log[i] && l[j] == log[j];
        if !(l[j].at >= l[i].at + TTL_MS) {
          var k :| i < k < j && log[k] == Releases(log[i].tab);
          assert l[k] == log[k];
        }
      }
    }
  }

  lemma PollStep(w: World, tab: nat)
    requires ClaimsHold(w) && ClaimsSeparated(w.log) && PollsClaimed(w.log)
    requires w.log != [] && w.log[|w.log| - 1] == Claims(tab, w.clock)
    ensures var v := w.(log := w.log + [Polls(tab, w.clock)]);
      ClaimsHold(v) && ClaimsSeparated(v.log) && PollsClaimed(v.log)
  {
    forall i | 0 <= i < |w.log| && ReleasedAfter(w.log, i, w.log[i].tab)
      ensures ReleasedAfter(w.log + [Polls(tab, w.clock)], i, w.log[i].tab)
    {
      ReleasedStays(w.log, [Polls(tab, w.clock)], i, w.log[i].tab);
    }
    SeparatedAppend(w.log, Polls(tab, w.clock));
  }

  lemma ReleaseStep(w: World, tab: nat)
    requires ClaimsHold(w) && ClaimsSeparated(w.log) && PollsClaimed(w.log)
    requires w.owner.Some? && w.owner.value.tab == tab
    ensures var v := w.(owner := None, log := w.log + [Releases(tab)]);
      ClaimsHold(v) && ClaimsSeparated(v.log) && PollsClaimed(v.log)
  {
    var log := w.log + [Releases(tab)];
    forall i | 0 <= i < |w.log| && ReleasedAfter(w.log, i, w.log[i].tab) ensures ReleasedAfter(log, i, w.log[i].tab) {
      ReleasedStays(w.log, [Releases(tab)], i, w.log[i].tab);
    }
    assert log[|w.log|] == Releases(tab);
    SeparatedAppend(w.log, Releases(tab));
  }

  /** A heartbeat of a live tab, or of one being scheduled. */
  lemma ClaimedWorld(w: World, tab: nat, t: Tab, owner: Option<Record>, claimed: bool)
    requires Inv(w) && !t.cancelled
    requires owner == Claimed(w.owner, tab, w.clock) || owner == w.owner
    requires claimed ==> Claimable(w.owner, tab, w.clock) && owner == Claimed(w.owner, tab, w.clock)
    requires !claimed ==> owner == w.owner
    requires t.hidden ==> t.pollTimer == None && t.heartbeatTimer == None
    ensures Inv(WithTab(w, tab, t, owner, claimed))
  {
    if claimed {
      ClaimStep(w, tab, w.tabs[tab := t]);
    }
  }

  lemma StepKeepsInv(w: World, a: Action)
    requires Inv(w) && Enabled(w, a)
    ensures Inv(Step(w, a))
  {
    match a
    case Tick(_) =>
    case Mount(tab, hidden) => BeatKeepsInv(w, tab, Tab(false, hidden, false, false, None, None));
    case PollTimerFires(tab) => FireKeepsInv(w, tab);
    case HeartbeatFires(tab) => BeatKeepsInv(w, tab, w.tabs[tab]);
    case OtherLoad(tab) =>
    case RequestEnds(tab, failed, delay) =>
      var t := w.tabs[tab].(requestInFlight := false);
      if !(t.cancelled || (t.socketReady && !failed)) {
        ReplanKeepsInv(w, tab, t, delay);
      }
    case SocketOpens(tab) =>
    case SocketCloses(tab, delay) =>
      var t := w.tabs[tab].(socketReady := false);
      if !t.hidden {
        ReplanKeepsInv(w, tab, t, delay);
      }
    case Hide(tab) =>
    case Show(tab) => BeatKeepsInv(w, tab, w.tabs[tab].(hidden := false));
    case Unmount(tab) =>
      if w.owner.Some? && w.owner.value.tab == tab {
        ReleaseStep(w, tab);
      }
  }

  lemma BeatKeepsInv(w: World, tab: nat, t: Tab)
    requires Inv(w) && !t.cancelled && (t.hidden ==> t.pollTimer == None)
    ensures Inv(Beat(w, tab, t))
  {
    var (t', o) := Heartbeat(t, w.owner, tab, w.clock);
    ClaimedWorld(w, tab, t', o, t'.heartbeatTimer.Some?);
  }

  lemma ReplanKeepsInv(w: World, tab: nat, t: Tab, delay: nat)
    requires Inv(w) && !t.cancelled && tab in w.tabs && !w.tabs[tab].cancelled
    requires t.hidden ==> t.pollTimer == None && t.heartbeatTimer == None
    ensures Inv(Replan(w, tab, t, delay))
  {
    var (t', o) := Schedule(t, w.owner, tab, w.clock, delay);
    ClaimedWorld(w, tab, t', o, t'.pollTimer.Some?);
  }

  lemma FireKeepsInv(w: World, tab: nat)
    requires Inv(w) && tab in w.tabs && w.tabs[tab].pollTimer.Some?
    ensures Inv(Fire(w, tab))
  {
    var t := w.tabs[tab].(pollTimer := None);
    var (ok, t', o) := CanPoll(t, w.owner, tab, w.clock);
    var v := WithTab(w, tab, t', o, ok);
    ClaimedWorld(w, tab, t', o, ok);
    if ok && !t'.requestInFlight && !t'.socketReady {
      var u := v.(tabs := v.tabs[tab := t'.(requestInFlight := true)]);
      PollStep(u, tab);
    }
  }

  lemma {:induction false} RunKeepsInv(worlds: seq<World>, actions: seq<Action>, n: nat)
    requires IsRun(worlds, actions) && n < |worlds|
    ensures Inv(worlds[n])
  {
    if n > 0 {
      RunKeepsInv(worlds, actions, n - 1);
      StepKeepsInv(worlds[n - 1], actions[n - 1]);
    }
  }

  /** Main result, over any number of tabs and any interleaving: two timer polls by different
      tabs are at least the lease time apart unless the earlier tab released in between. */
  lemma PollsAreExclusive(worlds: seq<World>, actions: seq<Action>, n: nat, i: nat, j: nat)
    requires IsRun(worlds, actions) && n < |worlds| && i < j < |worlds[n].log|
    requires worlds[n].log[i].Polls? && worlds[n].log[j].Polls? && worlds[n].log[i].tab != worlds[n].log[j].tab
    ensures worlds[n].log[j].at >= worlds[n].log[i].at + 15000
      || exists k :: i < k < j && worlds[n].log[k] == Releases(worlds[n].log[i].tab)
  {
    RunKeepsInv(worlds, actions, n);
    var log := worlds[n].log;
    assert log[i - 1] == Claims(log[i].tab, log[i].at) && log[j - 1] == Claims(log[j].tab, log[j].at);
    if !(log[j].at >= log[i].at + TTL_MS) {
      var k :| i - 1 < k < j - 1 && log[k] == Releases(log[i].tab);
      assert k != i;
    }
  }

  /** Every successful claim keeps the same distance to every earlier claim of another tab, and
      every timer poll happens at the instant of a successful claim. */
  lemma ClaimsAreExclusive(worlds: seq<World>, actions: seq<Action>, n: nat)
    requires IsRun(worlds, actions) && n < |worlds|
    ensures ClaimsSeparated(worlds[n].log) && PollsClaimed(worlds[n].log)
  {
    RunKeepsInv(worlds, actions, n);
  }

  /** No tab's cleanup removes another tab's record, and a tab that has gone never owns it. */
  lemma CleanupIsOwn(worlds: seq<World>, actions: seq<Action>, n: nat)
    requires IsRun(worlds, actions) && n < |actions| && actions[n].Unmount?
    ensures worlds[n].owner.Some? && worlds[n].owner.value.tab != actions[n].tab ==>
      worlds[n + 1].owner == worlds[n].owner
    ensures !(worlds[n + 1].owner.Some? && worlds[n + 1].owner.value.tab == actions[n].tab)
    ensures OwnersLive(worlds[n + 1])
  {
    RunKeepsInv(worlds, actions, n + 1);
  }

  /** An owner whose heartbeat fires within the lease keeps it: no other tab can claim before
      its record expires, a full lease after the last claim. */
  lemma OwnerKeepsLease(owner: Option<Record>, id: nat, other: nat, claimedAt: int, now: int)
    requires Claimable(owner, id, claimedAt) && other != id && claimedAt <= now
    ensures Claimable(Claimed(owner, id, claimedAt), other, now) <==> now >= claimedAt + 15000
    ensures Claimable(Claimed(owner, id, claimedAt), id, now)
  {
  }

  // ----- progress -----

  /** A tab whose next heartbeat is due at `x` holds the record until 10000 ms after that. */
  ghost predicate HeartbeatHolds(w: World) {
    forall t :: Timely(w, t) ==>
      w.owner.Some? && w.owner.value.tab == t && w.owner.value.expiresAt >= w.tabs[t].heartbeatTimer.value + 10000
  }

  /** The tab's next heartbeat is not 10000 ms late. */
  predicate Timely(w: World, tab: nat) {
    tab in w.tabs && w.tabs[tab].heartbeatTimer.Some? && w.clock < w.tabs[tab].heartbeatTimer.value + 10000
  }

  lemma BeatHolds(w: World, tab: nat, t: Tab)
    requires HeartbeatHolds(w)
    ensures HeartbeatHolds(Beat(w, tab, t))
  {
  }

  lemma ReplanHolds(w: World, tab: nat, t: Tab, delay: nat)
    requires HeartbeatHolds(w) && tab in w.tabs && t.heartbeatTimer == w.tabs[tab].heartbeatTimer
    ensures HeartbeatHolds(Replan(w, tab, t, delay))
  {
  }

  lemma FireHolds(w: World, tab: nat)
    requires HeartbeatHolds(w) && tab in w.tabs
    ensures HeartbeatHolds(Fire(w, tab))
  {
  }

  lemma StepKeepsHolds(w: World, a: Action)
    requires HeartbeatHolds(w) && Enabled(w, a)
    ensures HeartbeatHolds(Step(w, a))
  {
    match a
    case Mount(tab, hidden) => BeatHolds(w, tab, Tab(false, hidden, false, false, None, None));
    case PollTimerFires(tab) => FireHolds(w, tab);
    case HeartbeatFires(tab) => BeatHolds(w, tab, w.tabs[tab]);
    case RequestEnds(tab, failed, delay) =>
      ReplanHolds(w, tab, w.tabs[tab].(requestInFlight := false), delay);
    case SocketCloses(tab, delay) =>
      ReplanHolds(w, tab, w.tabs[tab].(socketReady := false), delay);
    case Show(tab) => BeatHolds(w, tab, w.tabs[tab].(hidden := false));
    case _ =>
  }

  /** Main result on progress: in every run a tab whose heartbeat is not 10000 ms late still owns
      an unexpired record, so a heartbeat on time always renews it. */
  lemma {:induction false} TimelyOwnerStays(worlds: seq<World>, actions: seq<Action>, n: nat, tab: nat)
    requires IsRun(worlds, actions) && n < |worlds|
    ensures HeartbeatHolds(worlds[n])
    ensures Timely(worlds[n], tab) ==>
      worlds[n].owner.Some? && worlds[n].owner.value.tab == tab && worlds[n].owner.value.expiresAt > worlds[n].clock
  {
    if n > 0 {
      TimelyOwnerStays(worlds, actions, n - 1, tab);
      StepKeepsHolds(worlds[n - 1], actions[n - 1]);
    }
  }

  /** Another tab's unexpired record, the only thing that keeps a visible tab from claiming. */
  predicate HeldByOther(w: World, tab: nat) {
    w.owner.Some? && w.owner.value.tab != tab && w.owner.value.expiresAt > w.clock
  }

  /** A tab that becomes visible, is mounted visible or beats owns the record afterwards, for 15000
      ms and with the next beat 5000 ms away, exactly when no other tab holds it. */
  lemma VisibleTabClaims(worlds: seq<World>, actions: seq<Action>, n: nat, tab: nat)
    requires IsRun(worlds, actions) && n < |actions|
    requires actions[n] in {Mount(tab, false), Show(tab), HeartbeatFires(tab)}
    ensures var w, v := worlds[n], worlds[n + 1];
      v.owner == (if HeldByOther(w, tab) then w.owner else Some(Record(tab, w.clock + 15000)))
      && v.tabs[tab].heartbeatTimer == (if HeldByOther(w, tab) then None else Some(w.clock + 5000))
  {
    RunKeepsInv(worlds, actions, n);
  }

  /** A response or a closed socket arms the next poll of a mounted visible tab exactly when no
      other tab holds the record. */
  lemma NextPollArmed(worlds: seq<World>, actions: seq<Action>, n: nat, tab: nat, delay: nat)
    requires IsRun(worlds, actions) && n < |actions| && Live(worlds[n], tab) && !worlds[n].tabs[tab].hidden
    requires actions[n] == SocketCloses(tab, delay)
      || (actions[n] == RequestEnds(tab, false, delay) && !worlds[n].tabs[tab].socketReady)
      || actions[n] == RequestEnds(tab, true, delay)
    ensures worlds[n + 1].tabs[tab].pollTimer
      == if HeldByOther(worlds[n], tab) then None else Some(worlds[n].clock + delay)
  {
  }

  /** A poll timer that fires leads to a poll exactly when no other tab holds the record, no
      request is under way and no socket has taken over. */
  lemma FiredTimerPolls(worlds: seq<World>, actions: seq<Action>, n: nat, tab: nat)
    requires IsRun(worlds, actions) && n < |actions| && actions[n] == PollTimerFires(tab)
    ensures var w, v := worlds[n], worlds[n + 1];
      (v.log != [] && |v.log| > |w.log| && v.log[|v.log| - 1] == Polls(tab, w.clock))
      <==> !HeldByOther(w, tab) && !w.tabs[tab].requestInFlight && !w.tabs[tab].socketReady
  {
    RunKeepsInv(worlds, actions, n);
  }
}
