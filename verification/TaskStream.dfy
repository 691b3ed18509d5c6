/** The worker's task-stream loop: websocket connection, reconnect counting, and the HTTP polling
    it falls back to. Control points are the places where the loop awaits. */
module TaskStream {

  const FAILURE_THRESHOLD := 3

  datatype Polling = Absent | Running | Finished

  /** `Flushing` and `Connected` are inside an open connection; `Cleanup` awaits the cancelled
      diagnostics task after a disconnect; `Sleeping` waits before the next attempt. */
  datatype Point = Connecting | StoppingFallback | Flushing | Connected | Cleanup | Sleeping | Exited

  /** The loop's fields; `segments` is history: the disconnects after each successful connect,
      the first entry counting those before any. */
  datatype Stream = Stream(
    failures: nat,
    degraded: bool,
    disconnects: nat,
    fallbacks: nat,
    socket: bool,
    polling: Polling,
    segments: seq<nat>)

  datatype State = State(stream: Stream, point: Point)

  function BumpLast(segments: seq<nat>): seq<nat>
    requires segments != []
  {
    segments[..|segments| - 1] + [segments[|segments| - 1] + 1]
  }

  function Opened(s: Stream): Stream {
    s.(socket := true, failures := 0, degraded := false, segments := s.segments + [0])
  }

  /** `_handle_task_stream_disconnect` */
  function Disconnected(s: Stream): Stream
    requires s.segments != []
  {
    s.(failures := s.failures + 1, disconnects := s.disconnects + 1, segments := BumpLast(s.segments))
  }

  /** `_maybe_run_task_stream_fallback`, with `_ensure_fallback_polling_started` */
  function FellBack(s: Stream): Stream {
    if s.failures < FAILURE_THRESHOLD then s
    else s.(degraded := true, fallbacks := s.fallbacks + 1, polling := Running)
  }

  /** The worker's fields and the methods that change them. */
  class TaskStreamFields {
    var reconnectFailures: nat
    var degraded: bool
    var disconnectCount: nat
    var fallbackCount: nat
    var websocket: bool
    var fallbackPolling: Polling
    ghost var segments: seq<nat>

    ghost function View(): Stream
      reads this
    {
      Stream(reconnectFailures, degraded, disconnectCount, fallbackCount, websocket, fallbackPolling, segments)
    }

    method OnOpened() returns (recovered: bool)
      modifies this
      ensures View() == Opened(old(View())) && recovered == old(degraded)
    {
      websocket := true;
      reconnectFailures := 0;
      recovered := degraded;
      degraded := false;
      segments := segments + [0];
    }

    method HandleTaskStreamDisconnect()
      requires segments != []
      modifies this
      ensures View() == Disconnected(old(View()))
    {
      reconnectFailures := reconnectFailures + 1;
      disconnectCount := disconnectCount + 1;
      segments := BumpLast(segments);
    }

    method EnsureFallbackPollingStarted()
      modifies this
      ensures View() == old(View()).(polling := Running)
    {
      if fallbackPolling == Running {
        return;
      }
      fallbackPolling := Running;
    }

    method MaybeRunTaskStreamFallback()
      modifies this
      ensures View() == FellBack(old(View()))
    {
      if reconnectFailures < FAILURE_THRESHOLD {
        return;
      }
      degraded := true;
      fallbackCount := fallbackCount + 1;
      EnsureFallbackPollingStarted();
    }
  }

  // ----- runs -----

  datatype Action =
    | Connect              // the handshake succeeds
    | FallbackStopped      // the cancelled polling task has ended
    | FlushDone            // the queued diagnostics went out
    | PollingEnds          // the polling loop returned by itself
    | Disconnect           // the connection closes or an await raises
    | Unauthorized         // close code 4401 ends the loop
    | CleanedUp
    | Wake
    | Stop                 // `_stop_gateway_loops` cancels the loop
    | Restart              // a new loop after pairing

  predicate Enabled(s: State, a: Action) {
    match a
    case Connect => s.point == Connecting
    case FallbackStopped => s.point == StoppingFallback
    case FlushDone => s.point == Flushing
    case PollingEnds => s.stream.polling == Running
    // awaiting the cancelled polling task raises only when that task itself ended with an error
    case Disconnect =>
      s.point in {Connecting, Flushing, Connected} || (s.point == StoppingFallback && s.stream.polling != Running)
    case Unauthorized => s.point in {Connecting, Connected}
    case CleanedUp => s.point == Cleanup
    case Wake => s.point == Sleeping
    case Stop => true
    case Restart => s.point == Exited
  }

  /** Awaits inside `suppress(CancelledError)`. */
  predicate Swallows(p: Point) { p == StoppingFallback || p == Cleanup }

  function Step(s: State, a: Action): State
    requires Enabled(s, a) && s.stream.segments != []
  {
    var m := s.stream;
    match a
    case Connect =>
      var o := Opened(m);
      if m.polling == Running then State(o, StoppingFallback) else State(o.(polling := Absent), Flushing)
    case FallbackStopped => State(m.(polling := Absent), Flushing)
    case FlushDone => State(m, Connected)
    case PollingEnds => s.(stream := m.(polling := Finished))
    case Disconnect =>
      var d := FellBack(Disconnected(m));
      if s.point == Connected then State(d, Cleanup) else State(d.(socket := false), Sleeping)
    case Unauthorized => State(m.(socket := false), Exited)
    case CleanedUp => State(m.(socket := false), Sleeping)
    case Wake => State(m, Connecting)
    // a cancel that lands in an await with suppressed cancellation is swallowed: the loop runs on
    case Stop => if Swallows(s.point) then s else State(m.(socket := false, polling := Absent), Exited)
    case Restart => State(m, Connecting)
  }

  function Start(): State { State(Stream(0, false, 0, 0, false, Absent, [0]), Connecting) }

  function AtMostTwo(n: nat): nat { if n <= 2 then n else 2 }

  function Reconnects(segments: seq<nat>): nat {
    if segments == [] then 0 else Reconnects(segments[..|segments| - 1]) + AtMostTwo(segments[|segments| - 1])
  }

  ghost predicate Inv(s: State) {
    var m := s.stream;
    && m.segments != []
    && m.failures == m.segments[|m.segments| - 1]
    && m.disconnects == m.fallbacks + Reconnects(m.segments)
    && (m.degraded <==> m.failures >= FAILURE_THRESHOLD)
    && (m.socket <==> s.point in {StoppingFallback, Flushing, Connected, Cleanup})
    && (m.polling == Running && s.point != StoppingFallback ==> m.degraded)
    && (m.polling == Running ==> s.point !in {Flushing, Connected, Cleanup})
    && (s.point in {StoppingFallback, Flushing, Connected} ==> m.failures == 0)
    && (s.point == Cleanup ==> m.failures == 1)
  }

  lemma StepKeepsInv(s: State, a: Action)
    requires Inv(s) && Enabled(s, a)
    ensures Inv(Step(s, a))
  {
    var m := s.stream;
    var t := Step(s, a).stream;
    match a
    case Connect =>
      assert (m.segments + [0])[..|m.segments|] == m.segments;
    case Disconnect =>
      var k := |m.segments| - 1;
      assert BumpLast(m.segments)[..k] == m.segments[..k];
    case _ =>
  }

  predicate Possible(s: State, actions: seq<Action>)
    requires s.stream.segments != []
    decreases |actions|
  {
    actions == []
    || (Enabled(s, actions[0]) && Step(s, actions[0]).stream.segments != []
        && Possible(Step(s, actions[0]), actions[1..]))
  }

  function Run(s: State, actions: seq<Action>): (t: State)
    requires s.stream.segments != [] && Possible(s, actions)
    ensures t.stream.segments != []
    decreases |actions|
  {
    if actions == [] then s else Run(Step(s, actions[0]), actions[1..])
  }

  lemma {:induction false} RunKeepsInv(s: State, actions: seq<Action>)
    requires Inv(s) && Possible(s, actions)
    ensures Inv(Run(s, actions))
    decreases |actions|
  {
    if actions != [] {
      StepKeepsInv(s, actions[0]);
      RunKeepsInv(Step(s, actions[0]), actions[1..]);
    }
  }

  /** Main result, in every run: degraded mode holds exactly from the third failure in a row, and
      wherever the loop waits, running fallback polling means degraded with no socket, except
      while a fresh connection waits for the cancelled polling task to end. */
  lemma FallbackOnlyWhenDegraded(actions: seq<Action>)
    requires Possible(Start(), actions)
    ensures var s := Run(Start(), actions);
      (s.stream.degraded <==> s.stream.failures >= FAILURE_THRESHOLD)
      && (s.stream.polling == Running ==>
           (s.stream.degraded && !s.stream.socket && s.point in {Connecting, Sleeping, Exited})
           || (!s.stream.degraded && s.stream.socket && s.point == StoppingFallback))
  {
    RunKeepsInv(Start(), actions);
  }

  lemma {:induction false} ReconnectsBound(segments: seq<nat>)
    ensures Reconnects(segments) <= 2 * |segments|
  {
    if segments != [] {
      ReconnectsBound(segments[..|segments| - 1]);
    }
  }

  function Connects(actions: seq<Action>): nat {
    if actions == [] then 0 else (if actions[0].Connect? then 1 else 0) + Connects(actions[1..])
  }

  lemma {:induction false} SegmentsAreConnects(s: State, actions: seq<Action>)
    requires s.stream.segments != [] && Possible(s, actions)
    ensures |Run(s, actions).stream.segments| == |s.stream.segments| + Connects(actions)
    decreases |actions|
  {
    if actions != [] {
      SegmentsAreConnects(Step(s, actions[0]), actions[1..]);
    }
  }

  /** Main result on the counters: disconnects without a fallback are two per connection at most,
      exactly the first two of each segment between connects. */
  lemma CountersAgree(actions: seq<Action>)
    requires Possible(Start(), actions)
    ensures var m := Run(Start(), actions).stream;
      m.disconnects - m.fallbacks == Reconnects(m.segments)
      && |m.segments| == Connects(actions) + 1
      && m.disconnects - m.fallbacks <= 2 * (Connects(actions) + 1)
  {
    RunKeepsInv(Start(), actions);
    SegmentsAreConnects(Start(), actions);
    ReconnectsBound(Run(Start(), actions).stream.segments);
  }

  /** The one moment outside that rule: connecting while polling runs leaves the old polling task
      winding down beside the new socket, until the stop it awaits has finished. */
  lemma ConnectOverlapsUntilStopped(s: State)
    requires Inv(s) && s.point == Connecting && s.stream.polling == Running
    ensures var t := Step(s, Connect);
      t.point == StoppingFallback && t.stream.polling == Running && t.stream.socket && !t.stream.degraded
      && Inv(Step(t, FallbackStopped)) && Step(t, FallbackStopped).point == Flushing
      && Step(t, FallbackStopped).stream.polling == Absent
  {
    StepKeepsInv(s, Connect);
    StepKeepsInv(Step(s, Connect), FallbackStopped);
  }

  // ----- in terms of what happened -----

  /** Disconnects since the last connect, when there were `k` before. */
  function FailuresIn(k: nat, actions: seq<Action>): nat
    decreases |actions|
  {
    if actions == [] then k
    else FailuresIn(if actions[0].Connect? then 0 else if actions[0].Disconnect? then k + 1 else k, actions[1..])
  }

  /** All disconnects, and those that were at least the third since a connect. */
  function DisconnectsIn(actions: seq<Action>): nat {
    if actions == [] then 0 else (if actions[0].Disconnect? then 1 else 0) + DisconnectsIn(actions[1..])
  }

  function LateDisconnectsIn(k: nat, actions: seq<Action>): nat
    decreases |actions|
  {
    if actions == [] then 0
    else if actions[0].Connect? then LateDisconnectsIn(0, actions[1..])
    else if actions[0].Disconnect? then (if k + 1 >= 3 then 1 else 0) + LateDisconnectsIn(k + 1, actions[1..])
    else LateDisconnectsIn(k, actions[1..])
  }

  lemma {:induction false} CountersFollow(s: State, actions: seq<Action>)
    requires s.stream.segments != [] && Possible(s, actions)
    ensures var m, t := s.stream, Run(s, actions).stream;
      t.failures == FailuresIn(m.failures, actions)
      && t.disconnects == m.disconnects + DisconnectsIn(actions)
      && t.fallbacks == m.fallbacks + LateDisconnectsIn(m.failures, actions)
    decreases |actions|
  {
    if actions != [] {
      CountersFollow(Step(s, actions[0]), actions[1..]);
    }
  }

  /** The fields in terms of the run alone: failures are the disconnects since the last connect,
      degraded means three of them, and a fallback is counted for each disconnect from the third. */
  lemma FieldsAreHistory(actions: seq<Action>)
    requires Possible(Start(), actions)
    ensures var m := Run(Start(), actions).stream;
      m.failures == FailuresIn(0, actions) && (m.degraded <==> FailuresIn(0, actions) >= 3)
      && m.disconnects == DisconnectsIn(actions) && m.fallbacks == LateDisconnectsIn(0, actions)
  {
    CountersFollow(Start(), actions);
    RunKeepsInv(Start(), actions);
  }

  lemma {:induction false} PollingContinues(s: State, actions: seq<Action>)
    requires s.stream.segments != [] && Possible(s, actions)
    requires s.stream.polling == Running && s.point != StoppingFallback
    requires forall i :: 0 <= i < |actions| ==> actions[i] !in {Connect, PollingEnds, Stop}
    ensures Run(s, actions).stream.polling == Running && Run(s, actions).point != StoppingFallback
    decreases |actions|
  {
    if actions != [] {
      PollingContinues(Step(s, actions[0]), actions[1..]);
    }
  }

  /** A disconnect leaves the node polling over HTTP exactly when it is at least the third since a
      connect, and the polling goes on until it ends by itself, a connect or a stop. */
  lemma ThirdFailurePolls(before: seq<Action>, after: seq<Action>)
    requires Possible(Start(), before) && Enabled(Run(Start(), before), Disconnect)
    requires Possible(Step(Run(Start(), before), Disconnect), after)
    requires forall i :: 0 <= i < |after| ==> after[i] !in {Connect, PollingEnds, Stop}
    ensures Step(Run(Start(), before), Disconnect).stream.polling == Running <==> FailuresIn(0, before) >= 2
    ensures FailuresIn(0, before) >= 2 ==>
      Run(Step(Run(Start(), before), Disconnect), after).stream.polling == Running
  {
    var s := Run(Start(), before);
    FieldsAreHistory(before);
    RunKeepsInv(Start(), before);
    StepKeepsInv(s, Disconnect);
    if FailuresIn(0, before) >= 2 {
      PollingContinues(Step(s, Disconnect), after);
    }
  }

  // ----- stopping -----

  /** No further cancel, no rejection by the gateway, no new loop. */
  predicate Undisturbed(actions: seq<Action>) {
    forall i :: 0 <= i < |actions| ==> actions[i] !in {Stop, Unauthorized, Restart}
  }

  lemma {:induction false} LoopRunsOn(s: State, actions: seq<Action>)
    requires s.stream.segments != [] && Possible(s, actions) && Undisturbed(actions)
    ensures Run(s, actions).point == Exited <==> s.point == Exited
    decreases |actions|
  {
    if actions != [] {
      LoopRunsOn(Step(s, actions[0]), actions[1..]);
    }
  }

  /** Wherever a stop finds the loop and whatever happens then, it has ended the loop exactly when
      it did not land in one of the two awaits that swallow the cancel; there the stop, which
      waits for the loop, does not return. */
  lemma StopEndsLoopIff(before: seq<Action>, after: seq<Action>)
    requires Possible(Start(), before) && Possible(Step(Run(Start(), before), Stop), after) && Undisturbed(after)
    ensures Run(Step(Run(Start(), before), Stop), after).point == Exited
      <==> Run(Start(), before).point !in {StoppingFallback, Cleanup}
  {
    LoopRunsOn(Step(Run(Start(), before), Stop), after);
  }

  /** Both awaits can be reached, the second by a plain disconnect. */
  lemma StopCanMiss()
    ensures Possible(Start(), [Connect, FlushDone, Disconnect, Stop])
    ensures Run(Start(), [Connect, FlushDone, Disconnect, Stop]).point == Cleanup
  {
  }
}
