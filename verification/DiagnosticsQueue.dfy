/** The worker's bounded queue of unsent diagnostics and its flush, which awaits the socket while
    producers keep appending. */
module DiagnosticsQueue {
  import opened BoundedDeque

  const MAX_PENDING := 100

  /** What the queue is after the first `count` entries were popped from the left. */
  function PopLeft<T>(queue: seq<T>, count: nat): seq<T> { queue[if count <= |queue| then count else |queue|..] }

  /** `_enqueue_diagnostics_event` and the two halves of `_flush_pending_diagnostics_events`. */
  class PendingDiagnostics<Payload> {
    var pending: seq<Payload>

    method Enqueue(x: Payload)
      modifies this
      ensures pending == Append(old(pending), x, MAX_PENDING)
    {
      pending := pending + [x];
      if |pending| > MAX_PENDING {
        pending := pending[|pending| - MAX_PENDING..];
      }
    }

    /** Before the send: a copy of the queue. */
    method BeginFlush() returns (payloads: seq<Payload>)
      ensures payloads == pending
    {
      payloads := pending;
    }

    /** After a send that succeeded. */
    method FinishFlush(count: nat)
      modifies this
      ensures pending == PopLeft(old(pending), count)
    {
      var pops := if count <= |pending| then count else |pending|;
      for n := 0 to pops
        invariant pops <= |old(pending)| && pending == old(pending)[n..]
      {
        pending := pending[1..];
      }
    }
  }

  // ----- runs -----

  /** `Sending` holds the batch and, as history, what arrived since the flush began. */
  datatype Flush<T> = Quiet | Sending(batch: seq<T>, arrived: seq<T>)

  /** `enqueued`, `sent` and `evicted` are history. */
  datatype State<T> = State(queue: seq<T>, flush: Flush<T>, enqueued: seq<T>, sent: seq<T>, evicted: nat)

  datatype Action<T> = Enqueue(x: T) | Begin | Succeed | Fail

  predicate Enabled<T>(s: State<T>, a: Action<T>) {
    match a
    case Enqueue(_) => true
    case Begin => s.flush.Quiet? && s.queue != []
    case Succeed => s.flush.Sending?
    case Fail => s.flush.Sending?
  }

  function Step<T>(s: State<T>, a: Action<T>): State<T>
    requires Enabled(s, a)
  {
    match a
    case Enqueue(x) =>
      State(Append(s.queue, x, MAX_PENDING),
            if s.flush.Sending? then Sending(s.flush.batch, s.flush.arrived + [x]) else Quiet,
            s.enqueued + [x], s.sent, s.evicted + if |s.queue| == MAX_PENDING then 1 else 0)
    case Begin => s.(flush := Sending(s.queue, []))
    case Succeed => s.(queue := PopLeft(s.queue, |s.flush.batch|), flush := Quiet, sent := s.sent + s.flush.batch)
    case Fail => s.(flush := Quiet)
  }

  predicate Possible<T>(s: State<T>, actions: seq<Action<T>>)
    decreases |actions|
  {
    actions == [] || (Enabled(s, actions[0]) && Possible(Step(s, actions[0]), actions[1..]))
  }

  function Run<T>(s: State<T>, actions: seq<Action<T>>): State<T>
    requires Possible(s, actions)
    decreases |actions|
  {
    if actions == [] then s else Run(Step(s, actions[0]), actions[1..])
  }

  function Empty<T>(): State<T> { State([], Quiet, [], [], 0) }

  ghost predicate Inv<T>(s: State<T>) {
    && |s.queue| <= MAX_PENDING
    && s.queue == Last(s.enqueued, |s.queue|)
    && |s.sent| + |s.queue| + s.evicted == |s.enqueued|
    && (s.evicted == 0 ==> s.sent + s.queue == s.enqueued)
    && (s.flush.Sending? ==>
          && s.queue == Last(s.flush.batch + s.flush.arrived, MAX_PENDING)
          && 0 < |s.flush.batch| <= MAX_PENDING
          && (|s.flush.batch| + |s.flush.arrived| > MAX_PENDING ==> s.evicted > 0))
  }

  lemma EnqueueKeepsInv<T>(s: State<T>, x: T)
    requires Inv(s)
    ensures Inv(Step(s, Enqueue(x)))
  {
    var t := Step(s, Action<T>.Enqueue(x));
    if s.evicted == 0 && |s.queue| < MAX_PENDING {
      assert s.sent + (s.queue + [x]) == s.enqueued + [x];
    }
    if s.flush.Sending? {
      LastOfLast(s.flush.batch + s.flush.arrived, [x], MAX_PENDING);
      assert s.flush.batch + s.flush.arrived + [x] == s.flush.batch + (s.flush.arrived + [x]);
    }
  }

  /** Main result for one flush: if the send succeeds, the queue holds exactly the newest
      arrivals that fit beside the batch, in order. */
  lemma FlushLeavesArrivals<T>(s: State<T>)
    requires Inv(s) && s.flush.Sending?
    ensures |s.flush.batch| <= 100 && Step(s, Succeed).queue == Last(s.flush.arrived, 100 - |s.flush.batch|)
  {
    LastDrop(s.flush.batch, s.flush.arrived, MAX_PENDING);
  }

  lemma SucceedKeepsInv<T>(s: State<T>)
    requires Inv(s) && s.flush.Sending?
    ensures Inv(Step(s, Succeed))
  {
    var t := Step(s, Action<T>.Succeed);
    FlushLeavesArrivals(s);
    if s.evicted == 0 {
      assert s.queue == s.flush.batch + s.flush.arrived;
      assert t.sent + t.queue == s.sent + s.queue;
    }
  }

  lemma {:induction false} RunKeepsInv<T>(s: State<T>, actions: seq<Action<T>>)
    requires Inv(s) && Possible(s, actions)
    ensures Inv(Run(s, actions))
    decreases |actions|
  {
    if actions != [] {
      match actions[0]
      case Enqueue(x) => EnqueueKeepsInv(s, x);
        RunKeepsInv(Step(s, actions[0]), actions[1..]);
      case Succeed => SucceedKeepsInv(s);
        RunKeepsInv(Step(s, actions[0]), actions[1..]);
      case Begin =>
        assert s.queue + [] == s.queue;
        RunKeepsInv(Step(s, actions[0]), actions[1..]);
      case Fail =>
        RunKeepsInv(Step(s, actions[0]), actions[1..]);
    }
  }

  /** Main result for whole runs: what was sent, followed by what is queued, is everything ever
      enqueued, if and only if no append ever hit a full queue. */
  lemma RunLosslessIffNoEviction<T>(actions: seq<Action<T>>)
    requires Possible(Empty<T>(), actions)
    ensures var s := Run(Empty<T>(), actions);
      (s.sent + s.queue == s.enqueued <==> s.evicted == 0)
      && |s.enqueued| - |s.sent + s.queue| == s.evicted
      && s.queue == Last(s.enqueued, |s.queue|) && |s.queue| <= 100
  {
    RunKeepsInv(Empty<T>(), actions);
  }

  /** A failed or interrupted send loses nothing: the batch is still there, cut only by evictions. */
  lemma FailedFlushKeepsBatch<T>(s: State<T>)
    requires Inv(s) && s.flush.Sending?
    ensures Step(s, Fail).queue == Last(s.flush.batch + s.flush.arrived, 100)
    ensures Step(s, Fail).sent == s.sent && Inv(Step(s, Fail))
  {
  }
}
