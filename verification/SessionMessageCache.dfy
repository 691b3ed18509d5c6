/** The console's per-session message cache (`syncSessionMessageCache`): replace, append and
    prepend responses are merged into one window of the server's transcript. */
module SessionMessageCache {
  import opened OrderedDict
  import opened MessageMerge

  datatype Response = Response(
    messages: seq<Message>,
    nextCursor: int,
    replaceMessages: bool,
    historyStart: Option<int>,
    hasMoreBefore: Option<bool>)

  datatype Entry = Entry(messages: seq<Message>, cursor: int, historyStart: int, hasMoreBefore: bool, loaded: bool)

  datatype Mode = Replace | Append | Prepend

  function ResolveHistoryStart(detail: Response, fallbackCursor: Option<int>): int {
    if detail.historyStart.Some? then Max(0, detail.historyStart.value)
    else Max(0, (if fallbackCursor.Some? then fallbackCursor.value else detail.nextCursor) - |detail.messages|)
  }

  function CursorOf(current: Option<Entry>): Option<int> {
    if current.Some? then Some(current.value.cursor) else None
  }

  function MessagesOf(current: Option<Entry>): seq<Message> {
    if current.Some? then current.value.messages else []
  }

  predicate ShouldPreserveHistory(current: Option<Entry>, detail: Response) {
    current.Some? && current.value.loaded
    && detail.replaceMessages
    && !(detail.nextCursor < current.value.cursor)
    && (current.value.historyStart < ResolveHistoryStart(detail, Some(current.value.cursor))
        || |current.value.messages| > |detail.messages|)
  }

  function EffectiveMode(detail: Response, mode: Option<Mode>): Mode {
    if mode.Some? then mode.value else if detail.replaceMessages then Replace else Append
  }

  function NextMessages(current: Option<Entry>, detail: Response, preserveExisting: bool, mode: Mode): seq<Message> {
    if ShouldPreserveHistory(current, detail) then Merge(MessagesOf(current), detail.messages)
    else if mode == Prepend then Merge(detail.messages, MessagesOf(current))
    else if preserveExisting && current.Some? && current.value.loaded && !detail.replaceMessages
    then Merge(current.value.messages, detail.messages)
    else if detail.replaceMessages then detail.messages
    else Merge(MessagesOf(current), detail.messages)
  }

  /** The cached start and the "more before" flag follow the same rule. */
  predicate KeepsStart(current: Option<Entry>, detail: Response, mode: Mode) {
    current.Some? && (ShouldPreserveHistory(current, detail) || mode == Append)
  }

  function Sync(current: Option<Entry>, detail: Response, preserveExisting: bool, mode: Option<Mode>): Entry {
    var m := EffectiveMode(detail, mode);
    var start := ResolveHistoryStart(detail, CursorOf(current));
    var more := if detail.hasMoreBefore.Some? then detail.hasMoreBefore.value else start > 0;
    Entry(NextMessages(current, detail, preserveExisting, m),
          detail.nextCursor,
          if KeepsStart(current, detail, m) then current.value.historyStart else start,
          if KeepsStart(current, detail, m) then current.value.hasMoreBefore else more,
          true)
  }

  function Cached(entries: map<string, Entry>, sessionId: string): Option<Entry> {
    if sessionId in entries then Some(entries[sessionId]) else None
  }

  class MessageCache {
    var entries: map<string, Entry>

    method SyncSessionMessageCache(sessionId: string, detail: Response, preserveExisting: bool, mode: Option<Mode>)
      returns (entry: Entry)
      modifies this
      ensures entry == Sync(Cached(old(entries), sessionId), detail, preserveExisting, mode)
      ensures entries == old(entries)[sessionId := entry]
    {
      var current := Cached(entries, sessionId);
      var preserve := ShouldPreserveHistory(current, detail);
      var m := EffectiveMode(detail, mode);
      var messages;
      if preserve {
        messages := MergeMessages(MessagesOf(current), detail.messages);
      } else if m == Prepend {
        messages := MergeMessages(detail.messages, MessagesOf(current));
      } else if preserveExisting && current.Some? && current.value.loaded && !detail.replaceMessages {
        messages := MergeMessages(current.value.messages, detail.messages);
      } else if detail.replaceMessages {
        messages := detail.messages;
      } else {
        messages := MergeMessages(MessagesOf(current), detail.messages);
      }
      var start := ResolveHistoryStart(detail, CursorOf(current));
      var more := if detail.hasMoreBefore.Some? then detail.hasMoreBefore.value else start > 0;
      if current.Some? && (preserve || m == Append) {
        start := current.value.historyStart;
        more := current.value.hasMoreBefore;
      }
      entry := Entry(messages, detail.nextCursor, start, more, true);
      entries := entries[sessionId := entry];
    }
  }

  // ----- windows of a transcript -----

  /** Where the cached messages begin in the transcript. */
  function Start(e: Entry): int { e.cursor - |e.messages| }

  /** The entry is a gap-free slice of the transcript that ends at its cursor and begins at or
      before its recorded start. */
  ghost predicate Window(t: seq<Message>, e: Entry) {
    e.loaded && 0 <= Start(e) <= e.historyStart <= e.cursor <= |t| && e.messages == t[Start(e)..e.cursor]
  }

  /** A response to the console, with the place its messages have in the transcript. */
  datatype Arrival = Arrival(detail: Response, preserveExisting: bool, mode: Option<Mode>, from: nat, to: nat)

  /** An increment: nothing asks for a replacement or for older messages. */
  predicate Incremental(a: Arrival) {
    !a.detail.replaceMessages && (a.mode == None || a.mode == Some(Append))
  }

  /** The response carries the transcript slice `from..to`. */
  ghost predicate CarriesSlice(t: seq<Message>, a: Arrival) {
    a.from <= a.to <= |t| && a.detail.messages == t[a.from..a.to]
  }

  /** An older page, asked for with the cached start as its end. */
  ghost predicate BeforePage(t: seq<Message>, current: Option<Entry>, a: Arrival) {
    CarriesSlice(t, a) && a.mode == Some(Prepend) && !a.detail.replaceMessages
    && current.Some? && a.to == current.value.historyStart && a.detail.historyStart == Some(a.from)
  }

  /** A snapshot or increment up to the server's count. Only an increment onto a cached window
      may leave its start unstated, since the code does not look at it. */
  ghost predicate Forward(t: seq<Message>, current: Option<Entry>, a: Arrival) {
    CarriesSlice(t, a) && a.mode != Some(Prepend) && a.detail.nextCursor == a.to
    && (a.detail.historyStart == Some(a.from) || (current.Some? && Incremental(a)))
    && (current.Some? ==> current.value.cursor <= a.to)
  }

  /** The response overlaps or touches the cached window. */
  predicate Touches(current: Option<Entry>, a: Arrival) { current.Some? ==> a.from <= current.value.cursor }

  ghost predicate Honest(t: seq<Message>, current: Option<Entry>, a: Arrival) {
    (Forward(t, current, a) && Touches(current, a))
    || (BeforePage(t, current, a) && a.detail.nextCursor == current.value.cursor)
  }

  function Receive(current: Option<Entry>, a: Arrival): Entry { Sync(current, a.detail, a.preserveExisting, a.mode) }

  lemma ForwardMessages(t: seq<Message>, e: Entry, a: Arrival)
    requires StrictlyOrdered(t) && Window(t, e) && Forward(t, Some(e), a) && a.from <= e.cursor
    requires ShouldPreserveHistory(Some(e), a.detail) || !a.detail.replaceMessages
    ensures Receive(Some(e), a).messages == t[Min(Start(e), a.from)..a.to]
  {
    MergeSlices(t, Start(e), e.cursor, a.from, a.to);
  }

  lemma FirstWindow(t: seq<Message>, a: Arrival)
    requires StrictlyOrdered(t) && Forward(t, None, a)
    ensures Receive(None, a).messages == t[a.from..a.to] && Receive(None, a).historyStart == a.from
    ensures Window(t, Receive(None, a))
  {
    MergeSlices(t, a.from, a.from, a.from, a.to);
    assert t[a.from..a.from] == [];
  }

  lemma ForwardWindow(t: seq<Message>, e: Entry, a: Arrival)
    requires StrictlyOrdered(t) && Window(t, e) && Forward(t, Some(e), a) && a.from <= e.cursor
    ensures Window(t, Receive(Some(e), a))
  {
    if ShouldPreserveHistory(Some(e), a.detail) || !a.detail.replaceMessages {
      ForwardMessages(t, e, a);
    }
  }

  lemma BeforeWindow(t: seq<Message>, e: Entry, a: Arrival)
    requires StrictlyOrdered(t) && Window(t, e) && BeforePage(t, Some(e), a)
    ensures Receive(Some(e), a).messages == t[Min(a.from, Start(e))..e.cursor]
    ensures Receive(Some(e), a).historyStart == a.from
    ensures a.detail.nextCursor == e.cursor ==> Window(t, Receive(Some(e), a))
  {
    MergeSlices(t, a.from, a.to, Start(e), e.cursor);
  }

  lemma StepKeepsWindow(t: seq<Message>, current: Option<Entry>, a: Arrival)
    requires StrictlyOrdered(t) && Honest(t, current, a)
    requires current.Some? ==> Window(t, current.value)
    ensures Window(t, Receive(current, a))
  {
    if current == None {
      FirstWindow(t, a);
    } else if Forward(t, current, a) {
      ForwardWindow(t, current.value, a);
    } else {
      BeforeWindow(t, current.value, a);
    }
  }

  function Play(current: Option<Entry>, arrivals: seq<Arrival>): Option<Entry>
    decreases |arrivals|
  {
    if arrivals == [] then current else Play(Some(Receive(current, arrivals[0])), arrivals[1..])
  }

  ghost predicate AllHonest(t: seq<Message>, current: Option<Entry>, arrivals: seq<Arrival>)
    decreases |arrivals|
  {
    arrivals == []
    || (Honest(t, current, arrivals[0]) && AllHonest(t, Some(Receive(current, arrivals[0])), arrivals[1..]))
  }

  /** Main result: after any sequence of honest responses that do not move the cursor back and
      overlap or touch the window, the cache is a gap-free slice of the transcript ending at its
      cursor. */
  lemma {:induction false} CacheIsWindow(t: seq<Message>, current: Option<Entry>, arrivals: seq<Arrival>)
    requires StrictlyOrdered(t) && AllHonest(t, current, arrivals)
    requires current.Some? ==> Window(t, current.value)
    ensures Play(current, arrivals).Some? ==> Window(t, Play(current, arrivals).value)
    ensures current.Some? ==>
      Play(current, arrivals).Some? && Play(current, arrivals).value.cursor >= current.value.cursor
    decreases |arrivals|
  {
    if arrivals != [] {
      StepKeepsWindow(t, current, arrivals[0]);
      CacheIsWindow(t, Some(Receive(current, arrivals[0])), arrivals[1..]);
    }
  }

  // ----- exact starts -----

  /** Merge mode and replace flag agree, and an increment does not reach back before the window. */
  predicate Agrees(current: Option<Entry>, a: Arrival) {
    (a.mode == None || (a.detail.replaceMessages <==> a.mode == Some(Replace)))
    && (Incremental(a) && current.Some? ==> current.value.historyStart <= a.from)
  }

  /** Then a window that begins at its recorded start keeps doing so, and in the preserve check
      the length test adds nothing to the start test. */
  lemma StepKeepsStart(t: seq<Message>, current: Option<Entry>, a: Arrival)
    requires StrictlyOrdered(t) && Honest(t, current, a) && Agrees(current, a)
    requires current.Some? ==> Window(t, current.value) && Start(current.value) == current.value.historyStart
    ensures Start(Receive(current, a)) == Receive(current, a).historyStart
    ensures ShouldPreserveHistory(current, a.detail) <==>
      current.Some? && a.detail.replaceMessages && current.value.cursor <= a.detail.nextCursor
      && current.value.historyStart < ResolveHistoryStart(a.detail, CursorOf(current))
  {
    if current == None {
      FirstWindow(t, a);
    } else if Forward(t, current, a) {
      if ShouldPreserveHistory(current, a.detail) || !a.detail.replaceMessages {
        ForwardMessages(t, current.value, a);
      }
    } else {
      BeforeWindow(t, current.value, a);
    }
  }

  ghost predicate AllAgree(current: Option<Entry>, arrivals: seq<Arrival>)
    decreases |arrivals|
  {
    arrivals == [] || (Agrees(current, arrivals[0]) && AllAgree(Some(Receive(current, arrivals[0])), arrivals[1..]))
  }

  /** Over whole runs of agreeing responses the window begins exactly at `historyStart`. */
  lemma {:induction false} StartIsExact(t: seq<Message>, current: Option<Entry>, arrivals: seq<Arrival>)
    requires StrictlyOrdered(t) && AllHonest(t, current, arrivals) && AllAgree(current, arrivals)
    requires current.Some? ==> Window(t, current.value) && Start(current.value) == current.value.historyStart
    ensures Play(current, arrivals).Some? ==>
      Start(Play(current, arrivals).value) == Play(current, arrivals).value.historyStart
    decreases |arrivals|
  {
    if arrivals != [] {
      StepKeepsWindow(t, current, arrivals[0]);
      StepKeepsStart(t, current, arrivals[0]);
      StartIsExact(t, Some(Receive(current, arrivals[0])), arrivals[1..]);
    }
  }

  /** On exact windows no response makes the cache forget: its start only moves back, and its end
      only forward. */
  lemma {:induction false} HistoryNeverLost(t: seq<Message>, e: Entry, arrivals: seq<Arrival>)
    requires StrictlyOrdered(t) && AllHonest(t, Some(e), arrivals) && AllAgree(Some(e), arrivals)
    requires Window(t, e) && Start(e) == e.historyStart
    ensures Play(Some(e), arrivals).Some?
    ensures var last := Play(Some(e), arrivals).value;
      Start(last) <= Start(e) && e.cursor <= last.cursor && forall m :: m in e.messages ==> m in last.messages
    decreases |arrivals|
  {
    CacheIsWindow(t, Some(e), arrivals);
    if arrivals != [] {
      var next := Receive(Some(e), arrivals[0]);
      StepKeepsWindow(t, Some(e), arrivals[0]);
      StepKeepsStart(t, Some(e), arrivals[0]);
      HistoryNeverLost(t, next, arrivals[1..]);
    }
    var last := Play(Some(e), arrivals).value;
    forall m | m in e.messages ensures m in last.messages {
      SliceMember(t, Start(e), e.cursor, m);
      SliceMember(t, Start(last), last.cursor, m);
    }
  }

  // ----- messages that change -----

  /** When messages can change, a response that is not an older page wins over the cache on shared
      ids, and an increment keeps the rest of the cache. */
  lemma ResponseWins(e: Entry, a: Arrival, x: Message)
    requires Ordered(e.messages) && Ordered(a.detail.messages) && a.mode != Some(Prepend)
    ensures x in a.detail.messages ==> x in Receive(Some(e), a).messages
    ensures !a.detail.replaceMessages ==>
      (x in Receive(Some(e), a).messages
       <==> x in a.detail.messages || (x in e.messages && !HasId(a.detail.messages, x.id)))
  {
    MergeContents(e.messages, a.detail.messages, x);
  }

  /** An older page adds what is missing and leaves every cached message as it is. */
  lemma CacheWinsOverOlder(e: Entry, a: Arrival, x: Message)
    requires Ordered(e.messages) && Ordered(a.detail.messages)
    requires a.mode == Some(Prepend) && !a.detail.replaceMessages
    ensures x in Receive(Some(e), a).messages
      <==> x in e.messages || (x in a.detail.messages && !HasId(e.messages, x.id))
  {
    MergeContents(a.detail.messages, e.messages, x);
  }

  // ----- whether there is more to load -----

  /** The flag, where it is given and looked at, says whether anything stands before the response. */
  predicate TruthfulFlag(current: Option<Entry>, a: Arrival) {
    (current.Some? && Incremental(a)) || a.detail.hasMoreBefore == None || a.detail.hasMoreBefore == Some(a.from > 0)
  }

  predicate FlagFits(e: Entry) { e.hasMoreBefore <==> e.historyStart > 0 }

  lemma StepKeepsFlag(t: seq<Message>, current: Option<Entry>, a: Arrival)
    requires Honest(t, current, a) && TruthfulFlag(current, a) && (current.Some? ==> FlagFits(current.value))
    ensures FlagFits(Receive(current, a))
  {
  }

  /** A flag that is given is taken, truthful or not: by a first response, by an older page, and by
      a replacement unless that leaves start and flag as they were. */
  lemma GivenFlagIsTaken(current: Option<Entry>, a: Arrival, flag: bool)
    requires a.detail.hasMoreBefore == Some(flag)
    ensures current == None || (a.mode == Some(Prepend) && !a.detail.replaceMessages) ==>
      Receive(current, a).hasMoreBefore == flag
    ensures Receive(current, a).hasMoreBefore == flag
      || (current.Some? && Receive(current, a).hasMoreBefore == current.value.hasMoreBefore
          && Receive(current, a).historyStart == current.value.historyStart)
  {
  }

  ghost predicate AllTruthful(current: Option<Entry>, arrivals: seq<Arrival>)
    decreases |arrivals|
  {
    arrivals == []
    || (TruthfulFlag(current, arrivals[0]) && AllTruthful(Some(Receive(current, arrivals[0])), arrivals[1..]))
  }

  /** Over whole runs the console offers older messages exactly while the recorded start is not
      the beginning of the transcript. */
  lemma {:induction false} MoreBeforeIff(t: seq<Message>, current: Option<Entry>, arrivals: seq<Arrival>)
    requires AllHonest(t, current, arrivals) && AllTruthful(current, arrivals)
    requires current.Some? ==> (current.value.hasMoreBefore <==> current.value.historyStart > 0)
    ensures var last := Play(current, arrivals);
      last.Some? ==> (last.value.hasMoreBefore <==> last.value.historyStart > 0)
    decreases |arrivals|
  {
    if arrivals != [] {
      StepKeepsFlag(t, current, arrivals[0]);
      MoreBeforeIff(t, Some(Receive(current, arrivals[0])), arrivals[1..]);
    }
  }

  /** With agreeing responses, too, the flag says exactly whether the transcript has messages
      before the cached ones. */
  lemma MoreBeforeIsTrue(t: seq<Message>, arrivals: seq<Arrival>)
    requires StrictlyOrdered(t) && AllHonest(t, None, arrivals)
    requires AllAgree(None, arrivals) && AllTruthful(None, arrivals)
    ensures var last := Play(None, arrivals);
      last.Some? ==> (last.value.hasMoreBefore <==> last.value.cursor > |last.value.messages|)
  {
    MoreBeforeIff(t, None, arrivals);
    StartIsExact(t, None, arrivals);
  }

  // ----- responses that do not state their start -----

  /** The start resolved for a slice `from..to` without a stated start is right exactly when
      nothing is cached, the cached cursor is the new one, or both lie at the beginning. */
  lemma UnstatedStartIff(t: seq<Message>, current: Option<Entry>, a: Arrival)
    requires CarriesSlice(t, a) && a.detail.nextCursor == a.to && a.detail.historyStart == None
    ensures ResolveHistoryStart(a.detail, CursorOf(current)) == a.from
      <==> current == None || current.value.cursor == a.to || (a.from == 0 && current.value.cursor <= a.to)
  {
  }

  // ----- the assumptions are needed -----

  lemma {:induction false} MergeLength(a: seq<Message>, b: seq<Message>)
    requires StrictlyOrdered(a + b)
    ensures Merge(a, b) == a + b
  {
    assert forall i, j :: 0 <= i < j < |a| ==> (a + b)[i] == a[i] && (a + b)[j] == a[j];
    assert forall i, j :: 0 <= i < j < |b| ==> (a + b)[|a| + i] == b[i] && (a + b)[|a| + j] == b[j];
    if b == [] {
      assert a + b == a;
    } else {
      CollectFixed(a + b);
      StableSort.SortFixesSorted(a + b, Earlier);
    }
  }

  /** An increment that skips messages breaks the window: the result is a slice again exactly
      when the response touches what is cached. */
  lemma GapBreaksWindow(t: seq<Message>, e: Entry, a: Arrival)
    requires StrictlyOrdered(t) && Window(t, e) && Forward(t, Some(e), a) && Incremental(a)
    ensures Window(t, Receive(Some(e), a)) <==> a.from <= e.cursor
  {
    if a.from <= e.cursor {
      StepKeepsWindow(t, Some(e), a);
    } else {
      var x, y := t[Start(e)..e.cursor], t[a.from..a.to];
      SkippingConcat(t, Start(e), e.cursor, a.from, a.to);
      MergeLength(x, y);
      var r := Receive(Some(e), a);
      assert r.messages == x + y && Start(r) == a.from - |x|;
      if |x| > 0 {
        assert r.messages[0] == t[Start(e)] && t[Start(r)..r.cursor][0] == t[Start(r)];
      }
    }
  }

  lemma SkippingConcat(t: seq<Message>, lo: nat, hi: nat, from: nat, to: nat)
    requires StrictlyOrdered(t) && lo <= hi <= from <= to <= |t|
    ensures StrictlyOrdered(t[lo..hi] + t[from..to])
  {
    var xy := t[lo..hi] + t[from..to];
    forall i, j | 0 <= i < j < |xy| ensures xy[i].createdAt < xy[j].createdAt && xy[i].id != xy[j].id {
      var p := if i < hi - lo then lo + i else from + i - (hi - lo);
      var q := if j < hi - lo then lo + j else from + j - (hi - lo);
      assert xy[i] == t[p] && xy[j] == t[q];
    }
  }

  /** An older page breaks the window exactly when its `next_cursor` is not the cached one, as
      when messages arrived since: the cursor then runs ahead of the messages. */
  lemma BeforePageNeedsCursor(t: seq<Message>, e: Entry, a: Arrival)
    requires StrictlyOrdered(t) && Window(t, e) && BeforePage(t, Some(e), a)
    ensures Window(t, Receive(Some(e), a)) <==> a.detail.nextCursor == e.cursor
  {
    BeforeWindow(t, e, a);
    if a.detail.nextCursor != e.cursor {
      var r := Receive(Some(e), a);
      var lo := Min(a.from, Start(e));
      assert r.messages == t[lo..e.cursor];
      if r.messages != [] && 0 <= Start(r) && r.cursor <= |t| {
        assert r.messages[0] == t[lo] && t[Start(r)..r.cursor][0] == t[Start(r)];
      }
    }
  }

  // ----- older pages as the gateway serves them -----

  const PAGE_LIMIT := 50

  /** The gateway's answer to `before_count`: the messages before it and, as `next_cursor`, the
      message count of the moment. */
  function OlderPage(t: seq<Message>, beforeCount: nat, limit: nat): Response
    requires beforeCount <= |t|
  {
    if beforeCount == 0 || limit == 0 then Response([], |t|, false, Some(0), Some(false))
    else
      var from := Max(0, beforeCount - limit);
      Response(t[from..beforeCount], |t|, false, Some(from), Some(from > 0))
  }

  /** `loadOlderSessionMessages` asks for at most 50 messages before the cached start. */
  function OlderArrival(t: seq<Message>, e: Entry): Arrival
    requires 0 < e.historyStart <= |t|
  {
    Arrival(OlderPage(t, e.historyStart, Min(PAGE_LIMIT, e.historyStart)), false, Some(Prepend),
            Max(0, e.historyStart - PAGE_LIMIT), e.historyStart)
  }

  /** Loading older messages keeps the cache a window exactly when no message arrived since the
      cached cursor was set. */
  lemma OlderPageKeepsWindowIff(t: seq<Message>, e: Entry)
    requires StrictlyOrdered(t) && Window(t, e) && e.historyStart > 0
    ensures Window(t, Receive(Some(e), OlderArrival(t, e))) <==> e.cursor == |t|
  {
    BeforePageNeedsCursor(t, e, OlderArrival(t, e));
  }

  /** An increment that the console asked for from its cursor. */
  ghost predicate FromCursor(t: seq<Message>, e: Entry, a: Arrival) {
    Incremental(a) && CarriesSlice(t, a) && a.from == e.cursor && a.detail.nextCursor == a.to
  }

  ghost predicate AllFromCursor(t: seq<Message>, e: Entry, arrivals: seq<Arrival>)
    decreases |arrivals|
  {
    arrivals == []
    || (FromCursor(t, e, arrivals[0]) && AllFromCursor(t, Receive(Some(e), arrivals[0]), arrivals[1..]))
  }

  /** The cache holds the transcript without a stretch in the middle. */
  ghost predicate Gapped(t: seq<Message>, e: Entry, lo: nat, hi: nat, next: nat) {
    lo <= hi <= next <= e.cursor <= |t| && e.messages == t[lo..hi] + t[next..e.cursor]
  }

  lemma {:induction false} GapStays(
      t: seq<Message>, e: Entry, arrivals: seq<Arrival>, lo: nat, hi: nat, next: nat)
    requires StrictlyOrdered(t) && Gapped(t, e, lo, hi, next) && AllFromCursor(t, e, arrivals)
    ensures Play(Some(e), arrivals).Some? && Gapped(t, Play(Some(e), arrivals).value, lo, hi, next)
    decreases |arrivals|
  {
    if arrivals != [] {
      var a := arrivals[0];
      SkippingConcat(t, lo, hi, next, a.to);
      assert t[lo..hi] + t[next..e.cursor] + t[a.from..a.to] == t[lo..hi] + t[next..a.to];
      MergeLength(e.messages, a.detail.messages);
      GapStays(t, Receive(Some(e), a), arrivals[1..], lo, hi, next);
    }
  }

  lemma OutsideGap(t: seq<Message>, lo: nat, hi: nat, next: nat, end: nat, k: nat)
    requires StrictlyOrdered(t) && lo <= hi <= k < next <= end <= |t|
    ensures t[k] !in t[lo..hi] + t[next..end]
  {
    if t[k] in t[lo..hi] {
      SliceMember(t, lo, hi, t[k]);
    }
    if t[k] in t[next..end] {
      SliceMember(t, next, end, t[k]);
    }
  }

  /** Main result on older pages: the messages that arrived before the page and were not cached
      are skipped for good. Whatever increments follow, the cache is the transcript without the
      stretch from the old cursor to the count the page reported. */
  lemma SkippedForGood(t: seq<Message>, count: nat, e: Entry, arrivals: seq<Arrival>, k: nat)
    requires StrictlyOrdered(t) && Window(t, e) && 0 < e.historyStart && e.cursor <= k < count <= |t|
    requires AllFromCursor(t, Receive(Some(e), OlderArrival(t[..count], e)), arrivals)
    ensures var last := Play(Some(Receive(Some(e), OlderArrival(t[..count], e))), arrivals);
      last.Some? && t[k] !in last.value.messages
      && Gapped(t, last.value, Min(Start(e), Max(0, e.historyStart - PAGE_LIMIT)), e.cursor, count)
  {
    var a := OlderArrival(t[..count], e);
    var lo := Min(Start(e), Max(0, e.historyStart - PAGE_LIMIT));
    assert t[..count][a.from..a.to] == t[a.from..a.to];
    BeforeWindow(t, e, a);
    assert t[count..count] == [];
    GapStays(t, Receive(Some(e), a), arrivals, lo, e.cursor, count);
    OutsideGap(t, lo, e.cursor, count, Play(Some(Receive(Some(e), a)), arrivals).value.cursor, k);
  }

  const THREE := [Message("a", 0, "x"), Message("b", 1, "y"), Message("c", 2, "z")]
  const MIDDLE := Entry(THREE[1..2], 2, 1, true, true)

  /** An instance: one of three messages is cached, the third arrived since; the older page brings
      the first and moves the cursor behind the third. */
  lemma OlderPageSkipsThird()
    ensures StrictlyOrdered(THREE) && Window(THREE, MIDDLE)
    ensures Receive(Some(MIDDLE), OlderArrival(THREE, MIDDLE)) == Entry(THREE[..2], 3, 0, false, true)
    ensures !Window(THREE, Receive(Some(MIDDLE), OlderArrival(THREE, MIDDLE)))
  {
    BeforeWindow(THREE, MIDDLE, OlderArrival(THREE, MIDDLE));
    OlderPageKeepsWindowIff(THREE, MIDDLE);
  }
}
