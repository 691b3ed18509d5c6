/** The node's diagnostics window: the last 200 events in memory, an append-only event log and a
    snapshot file, and what a restart restores from them. */
module DiagnosticsWindow {
  import opened BoundedDeque

  const WINDOW := 200

  /** A line of the log or an item of the snapshot: an event, or something that does not decode. */
  datatype Line<T> = Valid(event: T) | Junk

  function Decode<T>(lines: seq<Line<T>>): seq<T> {
    if lines == [] then []
    else Decode(lines[..|lines| - 1]) + match lines[|lines| - 1] { case Valid(e) => [e] case Junk => [] }
  }

  function Encode<T>(events: seq<T>): seq<Line<T>> { seq(|events|, i requires 0 <= i < |events| => Valid(events[i])) }

  /** Memory and the two files; a missing file has no lines. */
  datatype Node<T> = Node(events: seq<T>, log: seq<Line<T>>, snapshot: seq<Line<T>>)

  /** `_load_recent_events` */
  function Loaded<T>(log: seq<Line<T>>, snapshot: seq<Line<T>>): seq<T> {
    var fromLog := Last(Decode(log), WINDOW);
    if fromLog != [] then fromLog else Decode(Last(snapshot, WINDOW))
  }

  /** The constructor loads, then flushes the snapshot. */
  function Restarted<T>(n: Node<T>): Node<T> {
    var events := Loaded(n.log, n.snapshot);
    Node(events, n.log, Encode(events))
  }

  /** `record_event` */
  function Recorded<T>(n: Node<T>, e: T): Node<T> {
    var events := Append(n.events, e, WINDOW);
    Node(events, n.log + [Valid(e)], Encode(events))
  }

  /** `NodeDiagnostics`, with its files as fields. */
  class NodeDiagnostics<T> {
    var events: seq<T>
    var log: seq<Line<T>>
    var snapshot: seq<Line<T>>

    function View(): Node<T>
      reads this
    {
      Node(events, log, snapshot)
    }

    constructor (log: seq<Line<T>>, snapshot: seq<Line<T>>)
      ensures View() == Restarted(Node([], log, snapshot))
    {
      var recent := LoadRecentEvents(log, snapshot);
      events := recent;
      this.log := log;
      this.snapshot := Encode(recent);
    }

    method RecordEvent(e: T)
      modifies this
      ensures View() == Recorded(old(View()), e)
    {
      events := events + [e];
      if |events| > WINDOW {
        events := events[|events| - WINDOW..];
      }
      log := log + [Valid(e)];
      Flush();
    }

    method Flush()
      modifies this`snapshot
      ensures snapshot == Encode(events)
    {
      snapshot := Encode(events);
    }
  }

  /** Reading the log keeps a bounded deque, so only its last valid entries remain. */
  method LoadRecentEvents<T>(log: seq<Line<T>>, snapshot: seq<Line<T>>) returns (loaded: seq<T>)
    ensures loaded == Loaded(log, snapshot)
  {
    loaded := [];
    for n := 0 to |log|
      invariant loaded == Last(Decode(log[..n]), WINDOW)
    {
      assert log[..n + 1][..n] == log[..n];
      if log[n].Valid? {
        LastOfLast(Decode(log[..n]), [log[n].event], WINDOW);
        loaded := Append(loaded, log[n].event, WINDOW);
      } else {
        assert Decode(log[..n + 1]) == Decode(log[..n]);
      }
    }
    assert log[..|log|] == log;
    if |loaded| > 0 {
      return;
    }
    var recent := Last(snapshot, WINDOW);
    loaded := [];
    for n := 0 to |recent|
      invariant loaded == Decode(recent[..n])
    {
      assert recent[..n + 1][..n] == recent[..n];
      if recent[n].Valid? {
        loaded := loaded + [recent[n].event];
      }
    }
    assert recent[..|recent|] == recent;
  }

  // ----- runs -----

  datatype Action<T> = Record(e: T) | Restart

  function Step<T>(n: Node<T>, a: Action<T>): Node<T> {
    match a
    case Record(e) => Recorded(n, e)
    case Restart => Restarted(n)
  }

  function Run<T>(n: Node<T>, actions: seq<Action<T>>): Node<T>
    decreases |actions|
  {
    if actions == [] then n else Run(Step(n, actions[0]), actions[1..])
  }

  /** Memory, log and snapshot hold the same window. */
  ghost predicate InStep<T>(n: Node<T>) {
    n.events == Last(Decode(n.log), WINDOW) && n.snapshot == Encode(n.events)
  }

  lemma {:induction false} DecodeEncode<T>(events: seq<T>)
    ensures Decode(Encode(events)) == events
    decreases |events|
  {
    if events != [] {
      var init := events[..|events| - 1];
      DecodeEncode(init);
      assert Encode(events)[..|events| - 1] == Encode(init);
      assert events == init + [events[|events| - 1]];
    }
  }

  lemma LogGrows<T>(log: seq<Line<T>>, e: T)
    ensures Decode(log + [Valid(e)]) == Decode(log) + [e]
  {
    assert (log + [Line<T>.Valid(e)])[..|log|] == log;
  }

  lemma RecordKeepsStep<T>(n: Node<T>, e: T)
    requires InStep(n)
    ensures InStep(Recorded(n, e))
  {
    LogGrows(n.log, e);
    LastOfLast(Decode(n.log), [e], WINDOW);
  }

  lemma RestartKeepsStep<T>(n: Node<T>)
    requires InStep(n)
    ensures Restarted(n) == n
  {
    DecodeEncode(n.events);
  }

  /** The starting files: a log with a valid entry, or nothing valid in either file. */
  predicate GoodStart<T>(log: seq<Line<T>>, snapshot: seq<Line<T>>) {
    Decode(log) != [] || Decode(Last(snapshot, WINDOW)) == []
  }

  lemma {:induction false} RunKeepsStep<T>(n: Node<T>, actions: seq<Action<T>>)
    requires InStep(n)
    ensures InStep(Run(n, actions))
    decreases |actions|
  {
    if actions != [] {
      match actions[0]
      case Record(e) => RecordKeepsStep(n, e);
        RunKeepsStep(Step(n, actions[0]), actions[1..]);
      case Restart => RestartKeepsStep(n);
        RunKeepsStep(Step(n, actions[0]), actions[1..]);
    }
  }

  /** Main result: from a good start, after any sequence of events and restarts, the window in
      memory is the last 200 valid log entries and the snapshot's events, so a restart from
      either file restores it. */
  lemma WindowSurvives<T>(log: seq<Line<T>>, snapshot: seq<Line<T>>, actions: seq<Action<T>>)
    requires GoodStart(log, snapshot)
    ensures var n := Run(Restarted(Node([], log, snapshot)), actions);
      n.events == Last(Decode(n.log), 200)
      && n.events == Decode(n.snapshot)
      && Restarted(n) == n
      && Loaded([], n.snapshot) == n.events
  {
    var n := Run(Restarted(Node([], log, snapshot)), actions);
    RunKeepsStep(Restarted(Node([], log, snapshot)), actions);
    RestartKeepsStep(n);
    DecodeEncode(n.events);
    assert Decode<T>([]) == [];
  }

  // ----- exactly when a restart loses events -----

  function Records<T>(events: seq<T>): seq<Action<T>> {
    seq(|events|, i requires 0 <= i < |events| => Record(events[i]))
  }

  lemma {:induction false} RunRecords<T>(n: Node<T>, events: seq<T>)
    ensures var m := Run(n, Records(events));
      |n.events| <= WINDOW ==> m.events == Last(n.events + events, WINDOW)
    ensures Decode(Run(n, Records(events)).log) == Decode(n.log) + events
    ensures events != [] ==> Run(n, Records(events)).snapshot == Encode(Run(n, Records(events)).events)
    ensures events == [] ==> Run(n, Records(events)) == n
    decreases |events|
  {
    if events == [] {
      assert n.events + events == n.events;
      assert Decode(n.log) + events == Decode(n.log);
    } else {
      var m := Recorded(n, events[0]);
      assert Records(events)[1..] == Records(events[1..]);
      assert events == [events[0]] + events[1..];
      LogGrows(n.log, events[0]);
      RunRecords(m, events[1..]);
      LastOfLast(n.events + [events[0]], events[1..], WINDOW);
      assert n.events + [events[0]] + events[1..] == n.events + events;
      assert Decode(n.log) + [events[0]] + events[1..] == Decode(n.log) + events;
    }
  }

  lemma {:induction false} DecodeLength<T>(lines: seq<Line<T>>)
    ensures |Decode(lines)| <= |lines|
  {
    if lines != [] {
      DecodeLength(lines[..|lines| - 1]);
    }
  }

  /** For every pair of files and every run of events: a restart afterwards restores the window
      unless the log held nothing valid, the snapshot did, and fewer than 200 but some events
      have been recorded since; then the snapshot's events are lost. */
  lemma RestartRestoresIff<T>(log: seq<Line<T>>, snapshot: seq<Line<T>>, events: seq<T>)
    ensures var n := Run(Restarted(Node([], log, snapshot)), Records(events));
      Restarted(n).events == n.events <==> GoodStart(log, snapshot) || events == [] || |events| >= 200
  {
    var start := Restarted(Node<T>.Node([], log, snapshot));
    var n := Run(start, Records(events));
    var w := Decode(Last(snapshot, WINDOW));
    DecodeLength(Last(snapshot, WINDOW));
    RunRecords(start, events);
    if GoodStart(log, snapshot) {
      RunKeepsStep(start, Records(events));
      RestartKeepsStep(n);
    } else {
      assert start.events == w && Decode(log) + events == events;
      if events == [] {
        DecodeEncode(w);
      } else {
        assert Restarted(n).events == Last(events, WINDOW);
        assert n.events == Last(w + events, WINDOW);
      }
    }
  }

  /** An instance of the failing side: the snapshot alone survived, one event is recorded, and the
      next restart knows only that one. */
  lemma SnapshotOnlyIsLost<T>(old': T, new': T)
    ensures var n := Recorded(Restarted(Node([], [], [Valid(old')])), new');
      n.events == [old', new'] && Restarted(n).events == [new']
  {
    var snapshot := [Line<T>.Valid(old')];
    assert snapshot[..0] == [] && Decode<T>([]) == [];
    assert Decode(snapshot) == [old'];
    LogGrows([], new');
  }
}
