/** The comment-preserving merge that persists pairing data (`_persist_runtime_pairing`), checked
    against the line readers of the env file. */
module PairingFile {
  import opened PythonText
  import opened OrderedDict
  import opened EnvFile
  import EnvCodec

  /** The merger's own test for a line it may rewrite. */
  predicate IsAssignment(raw: string) {
    raw != "" && !(LStrip(raw) != "" && LStrip(raw)[0] == '#') && '=' in raw
  }

  function RawKey(raw: string): string { Strip(raw[..IndexOf(raw, '=')]) }

  function Rendered(pending: Entries): seq<string> {
    if pending == [] then [] else [Assignment(pending[0].0, pending[0].1)] + Rendered(pending[1..])
  }

  predicate Rewrites(raw: string, pending: Entries) { IsAssignment(raw) && Has(pending, RawKey(raw)) }

  /** The lines kept: the first line of a pending key is rewritten, the rest stay, and keys
      that met no line are appended in order. */
  function Merge(lines: seq<string>, pending: Entries): seq<string> {
    if lines == [] then Rendered(pending)
    else if Rewrites(lines[0], pending) then
      var key := RawKey(lines[0]);
      [Assignment(key, Lookup(pending, key).value)] + Merge(lines[1..], Remove(pending, key))
    else
      [lines[0]] + Merge(lines[1..], pending)
  }

  function ExistingLines(content: Option<string>): seq<string> {
    match content case None => [] case Some(text) => SplitLines(text)
  }

  function Persisted(content: Option<string>, updates: Entries): string {
    FileText(Merge(ExistingLines(content), updates))
  }

  lemma MergeStep(kept: seq<string>, lines: seq<string>, n: nat, pending: Entries)
    requires n < |lines|
    ensures var raw := lines[n];
      kept + Merge(lines[n..], pending) ==
        if Rewrites(raw, pending)
        then kept + [Assignment(RawKey(raw), Lookup(pending, RawKey(raw)).value)]
             + Merge(lines[n + 1..], Remove(pending, RawKey(raw)))
        else kept + [raw] + Merge(lines[n + 1..], pending)
  {
    assert lines[n..][1..] == lines[n + 1..];
  }

  lemma RenderedStep(kept: seq<string>, pending: Entries, n: nat)
    requires n < |pending|
    ensures kept + Rendered(pending[n..])
      == kept + [Assignment(pending[n].0, pending[n].1)] + Rendered(pending[n + 1..])
  {
    assert pending[n..][1..] == pending[n + 1..];
  }

  /** `_persist_runtime_pairing`: one pass over the lines, popping the pending updates. */
  method PersistRuntimePairing(content: Option<string>, updates: Entries) returns (text: string)
    ensures text == Persisted(content, updates)
  {
    var lines := ExistingLines(content);
    var pending := updates;
    var kept: seq<string> := [];
    assert lines[0..] == lines;
    for n := 0 to |lines|
      invariant kept + Merge(lines[n..], pending) == Merge(lines, updates)
    {
      var raw := lines[n];
      MergeStep(kept, lines, n, pending);
      if raw == "" || (LStrip(raw) != "" && LStrip(raw)[0] == '#') || '=' !in raw {
        kept := kept + [raw];
        continue;
      }
      var key := RawKey(raw);
      var found := Lookup(pending, key);
      if found.Some? {
        kept := kept + [Assignment(key, found.value)];
        pending := Remove(pending, key);
      } else {
        kept := kept + [raw];
      }
    }
    assert lines[|lines|..] == [] && pending[0..] == pending;
    for n := 0 to |pending|
      invariant kept + Rendered(pending[n..]) == Merge(lines, updates)
    {
      RenderedStep(kept, pending, n);
      kept := kept + [Assignment(pending[n].0, pending[n].1)];
    }
    assert pending[|pending|..] == [] && Rendered([]) == [] && kept + [] == kept;
    text := FileText(kept);
  }

  // ----- the merger and the readers agree on what a line is -----

  lemma StripAfterSpace(a: string, s: string)
    requires AllSpace(a)
    ensures Strip(a + s) == Strip(s)
  {
    var x, y := StripShape(s);
    assert a + s == (a + x) + Strip(s) + y;
    StripUnique(a + x, Strip(s), y);
  }

  lemma {:induction false} IndexOfAround(a: string, s: string, b: string, c: char)
    requires c !in a && c in s
    ensures IndexOf(a + s + b, c) == |a| + IndexOf(s, c)
  {
    var i := IndexOf(s, c);
    assert s == s[..i] + [c] + s[i + 1..];
    assert a + s + b == (a + s[..i]) + [c] + (s[i + 1..] + b);
    IndexOfFirst(a + s[..i], c, s[i + 1..] + b);
  }

  lemma KeyBehindSpace(a: string, line: string, b: string)
    requires AllSpace(a) && AllSpace(b) && '=' in line
    ensures RawKey(a + line + b) == Strip(line[..IndexOf(line, '=')])
  {
    NoSpaceInSyntax();
    IndexOfAround(a, line, b, '=');
    PrefixAround(a, line, b, IndexOf(line, '='));
    StripAfterSpace(a, line[..IndexOf(line, '=')]);
  }

  lemma PrefixAround(a: string, line: string, b: string, j: nat)
    requires j <= |line|
    ensures (a + line + b)[..|a| + j] == a + line[..j]
  {
  }

  lemma EqualsSignSurvives(raw: string)
    ensures '=' in raw <==> '=' in Strip(raw)
  {
    NoSpaceInSyntax();
    var a, b := StripShape(raw);
  }

  lemma KeyAgrees(raw: string)
    requires '=' in Strip(raw)
    ensures RawKey(raw) == Strip(Strip(raw)[..IndexOf(Strip(raw), '=')])
  {
    var a, b := StripShape(raw);
    KeyBehindSpace(a, Strip(raw), b);
  }

  lemma FirstAgrees(raw: string)
    requires Strip(raw) != ""
    ensures LStrip(raw) != "" && LStrip(raw)[0] == Strip(raw)[0]
  {
    var b := RStripShape(LStrip(raw));
  }

  lemma ViewsAgree(raw: string)
    ensures IsAssignment(raw) <==> ParseLine(raw).Some?
    ensures IsAssignment(raw) ==> ParseLine(raw).value.0 == RawKey(raw)
  {
    EqualsSignSurvives(raw);
    if '=' in raw {
      KeyAgrees(raw);
      FirstAgrees(raw);
    }
  }

  /** The key of a line, as the readers see it. */
  predicate HoldsKey(raw: string, key: string) { ParseLine(raw).Some? && ParseLine(raw).value.0 == key }

  function Occurrences(lines: seq<string>, key: string): nat {
    if lines == [] then 0 else (if HoldsKey(lines[0], key) then 1 else 0) + Occurrences(lines[1..], key)
  }

  /** The text of the last line that holds the key: what any of the readers decodes. */
  function LastText(lines: seq<string>, key: string): Option<string> {
    if lines == [] then None
    else
      match LastText(lines[1..], key)
      case Some(text) => Some(text)
      case None => if HoldsKey(lines[0], key) then Some(ParseLine(lines[0]).value.1) else None
  }

  function Decoded(text: Option<string>, decode: string -> string): Option<string> {
    match text case None => None case Some(t) => Some(decode(t))
  }

  lemma {:induction false} LastTextAppend(lines: seq<string>, raw: string, key: string)
    ensures LastText(lines + [raw], key)
      == if HoldsKey(raw, key) then Some(ParseLine(raw).value.1) else LastText(lines, key)
  {
    if lines == [] {
      assert [] + [raw] == [raw] && [raw][1..] == [];
    } else {
      assert (lines + [raw])[1..] == lines[1..] + [raw];
      LastTextAppend(lines[1..], raw, key);
    }
  }

  lemma {:induction false} ReadIsLast(lines: seq<string>, decode: string -> string, key: string)
    ensures Lookup(ReadLines(lines, decode), key) == Decoded(LastText(lines, key), decode)
  {
    if lines != [] {
      var n := |lines| - 1;
      ReadIsLast(lines[..n], decode, key);
      assert lines == lines[..n] + [lines[n]];
      LastTextAppend(lines[..n], lines[n], key);
      if ParseLine(lines[n]).Some? {
        var (k, text) := ParseLine(lines[n]).value;
        PutLookup(ReadLines(lines[..n], decode), k, decode(text), key);
      }
    }
  }

  lemma {:induction false} OccursIffLast(lines: seq<string>, key: string)
    ensures Occurrences(lines, key) > 0 <==> LastText(lines, key).Some?
  {
    if lines != [] {
      OccursIffLast(lines[1..], key);
    }
  }

  // ----- reading back -----

  ghost predicate Writable(u: Entries) { Distinct(u) && forall i :: 0 <= i < |u| ==> SafeKey(u[i].0) }

  lemma {:induction false} RemoveWritable(u: Entries, key: string)
    requires Writable(u)
    ensures Writable(Remove(u, key))
    ensures forall e :: e in Remove(u, key) ==> e in u
    decreases |u|
  {
    if u != [] {
      assert Writable(u[1..]) by {
        assert forall i :: 0 <= i < |u[1..]| ==> u[1..][i] == u[i + 1];
      }
      assert u == [u[0]] + u[1..];
      if u[0].0 != key {
        RemoveWritable(u[1..], key);
        RemoveLookup(u, key, key);
      }
    }
  }

  lemma WritableKey(u: Entries, key: string)
    requires Writable(u) && Has(u, key)
    ensures SafeKey(key)
  {
    HasIndex(u, key);
  }

  lemma AssignmentView(key: string, text: string)
    requires SafeKey(key)
    ensures ParseLine(Assignment(key, text)) == Some((key, RStrip(text)))
    ensures IsAssignment(Assignment(key, text)) && RawKey(Assignment(key, text)) == key
  {
    ParseAssignment(key, text);
    ViewsAgree(Assignment(key, text));
  }

  lemma {:induction false} LastOfRendered(u: Entries, key: string)
    requires Writable(u)
    ensures LastText(Rendered(u), key) == if Has(u, key) then Some(RStrip(Lookup(u, key).value)) else None
    decreases |u|
  {
    if u != [] {
      assert Writable(u[1..]) by {
        assert forall i :: 0 <= i < |u[1..]| ==> u[1..][i] == u[i + 1];
      }
      LastOfRendered(u[1..], key);
      AssignmentView(u[0].0, u[0].1);
      assert Rendered(u)[1..] == Rendered(u[1..]);
    }
  }

  /** What the merged lines hold for any key: the update, unless the key occurred twice. */
  lemma {:induction false} MergedText(lines: seq<string>, u: Entries, key: string)
    requires Writable(u)
    ensures LastText(Merge(lines, u), key)
      == if Has(u, key) && Occurrences(lines, key) <= 1 then Some(RStrip(Lookup(u, key).value))
         else LastText(lines, key)
    decreases |lines|
  {
    if lines == [] {
      LastOfRendered(u, key);
    } else {
      ViewsAgree(lines[0]);
      OccursIffLast(lines[1..], key);
      assert Merge(lines, u)[1..] ==
        if Rewrites(lines[0], u) then Merge(lines[1..], Remove(u, RawKey(lines[0]))) else Merge(lines[1..], u);
      if Rewrites(lines[0], u) {
        var k := RawKey(lines[0]);
        RemoveWritable(u, k);
        RemoveLookup(u, k, key);
        MergedText(lines[1..], Remove(u, k), key);
        WritableKey(u, k);
        AssignmentView(k, Lookup(u, k).value);
      } else {
        MergedText(lines[1..], u, key);
      }
    }
  }

  /** Every update text stands on one line. */
  predicate OnOneLine(u: Entries) { forall e :: e in u ==> NoBreak(e.1) }

  lemma {:induction false} LookupMember(u: Entries, key: string)
    requires Has(u, key)
    ensures (key, Lookup(u, key).value) in u
    decreases |u|
  {
    assert u == [u[0]] + u[1..];
    if u[0].0 != key {
      LookupMember(u[1..], key);
    }
  }

  lemma {:induction false} RenderedOnOneLine(u: Entries)
    requires Writable(u) && OnOneLine(u)
    ensures forall i :: 0 <= i < |Rendered(u)| ==> NoBreak(Rendered(u)[i])
    ensures |Rendered(u)| == |u|
    decreases |u|
  {
    if u != [] {
      assert forall i :: 0 <= i < |u[1..]| ==> u[1..][i] == u[i + 1];
      assert u[0] in u;
      RenderedOnOneLine(u[1..]);
    }
  }

  lemma {:induction false} MergedOnOneLine(lines: seq<string>, u: Entries)
    requires Writable(u) && OnOneLine(u)
    requires forall i :: 0 <= i < |lines| ==> NoBreak(lines[i])
    ensures forall i :: 0 <= i < |Merge(lines, u)| ==> NoBreak(Merge(lines, u)[i])
    ensures lines != [] || u != [] ==> Merge(lines, u) != []
    decreases |lines|
  {
    if lines == [] {
      RenderedOnOneLine(u);
    } else if Rewrites(lines[0], u) {
      var k := RawKey(lines[0]);
      RemoveWritable(u, k);
      WritableKey(u, k);
      LookupMember(u, k);
      MergedOnOneLine(lines[1..], Remove(u, k));
    } else {
      MergedOnOneLine(lines[1..], u);
    }
  }

  lemma PersistedLines(content: Option<string>, u: Entries)
    requires Writable(u) && OnOneLine(u) && u != []
    ensures SplitLines(Persisted(content, u)) == Merge(ExistingLines(content), u)
  {
    MergedOnOneLine(ExistingLines(content), u);
    SplitFileText(Merge(ExistingLines(content), u));
  }

  /** A reader that does not see the right edge of a text; both env readers are of this kind. */
  ghost predicate Trimming(decode: string -> string) { forall t :: decode(RStrip(t)) == decode(t) }

  lemma ReadersTrim()
    ensures Trimming(Strip) && Trimming(EnvCodec.Unescape)
  {
    forall t ensures Strip(RStrip(t)) == Strip(t) {
      StripAfterRStrip(t);
    }
    forall t ensures EnvCodec.Unescape(RStrip(t)) == EnvCodec.Unescape(t) {
      UnescapeRStrip(t);
    }
  }

  /** Main result, for every existing file: reading back, an updated key holds its new value,
      except that a key standing on two or more lines keeps the value of its last line; any
      other key reads as before. */
  lemma PersistReadsBack(content: Option<string>, u: Entries, decode: string -> string, key: string)
    requires Writable(u) && OnOneLine(u) && u != [] && Trimming(decode)
    ensures Lookup(ReadLines(SplitLines(Persisted(content, u)), decode), key)
      == if Has(u, key) && Occurrences(ExistingLines(content), key) <= 1 then Some(decode(Lookup(u, key).value))
         else Lookup(ReadLines(ExistingLines(content), decode), key)
  {
    var lines := ExistingLines(content);
    PersistedLines(content, u);
    MergedText(lines, u, key);
    ReadIsLast(lines, decode, key);
    ReadIsLast(Merge(lines, u), decode, key);
    if Has(u, key) {
      assert decode(RStrip(Lookup(u, key).value)) == decode(Lookup(u, key).value);
    }
  }

  /** An update takes effect exactly when its key occurs at most once or its last line already
      reads as the new value. */
  lemma UpdateTakesEffect(content: Option<string>, u: Entries, decode: string -> string, key: string)
    requires Writable(u) && OnOneLine(u) && Trimming(decode) && Has(u, key)
    ensures Lookup(ReadLines(SplitLines(Persisted(content, u)), decode), key) == Some(decode(Lookup(u, key).value))
      <==> Occurrences(ExistingLines(content), key) <= 1
           || Lookup(ReadLines(ExistingLines(content), decode), key) == Some(decode(Lookup(u, key).value))
  {
    PersistReadsBack(content, u, decode, key);
  }

  lemma TwoLinesMerged(key: string, first: string, second: string, value: string)
    requires SafeKey(key)
    ensures Merge([Assignment(key, first), Assignment(key, second)], [(key, value)])
      == [Assignment(key, value), Assignment(key, second)]
  {
    var lines := [Assignment(key, first), Assignment(key, second)];
    var u := [(key, value)];
    AssignmentView(key, first);
    assert Remove(u, key) == [];
    assert lines[1..] == [lines[1]] && [lines[1]][1..] == [];
    assert Merge([lines[1]], []) == [lines[1]];
  }

  lemma TwoLinesRead(key: string, first: string, second: string)
    requires SafeKey(key)
    ensures Lookup(ReadLines([Assignment(key, first), Assignment(key, second)], Strip), key) == Some(Strip(second))
  {
    var line := Assignment(key, second);
    AssignmentView(key, second);
    ReadIsLast([Assignment(key, first)] + [line], Strip, key);
    LastTextAppend([Assignment(key, first)], line, key);
    StripAfterRStrip(second);
  }

  lemma OneLineEach(key: string, first: string, second: string)
    requires SafeKey(key) && NoBreak(first) && NoBreak(second)
    ensures var lines := [Assignment(key, first), Assignment(key, second)]; SplitLines(FileText(lines)) == lines
  {
    SplitFileText([Assignment(key, first), Assignment(key, second)]);
  }

  /** The failing side: a key on two lines still reads as its second value after the update has
      rewritten the first line. */
  lemma DuplicateKeepsOldValue(key: string, first: string, second: string, value: string)
    requires SafeKey(key) && NoBreak(first) && NoBreak(second) && NoBreak(value)
    ensures var file := Some(FileText([Assignment(key, first), Assignment(key, second)]));
      Lookup(ReadLines(SplitLines(Persisted(file, [(key, value)])), Strip), key) == Some(Strip(second))
  {
    OneLineEach(key, first, second);
    OneLineEach(key, value, second);
    TwoLinesMerged(key, first, second, value);
    TwoLinesRead(key, value, second);
  }

  /** An instance: `K=a`, `K=b` updated with `c` still reads `b`. */
  lemma DuplicateInstance()
    ensures Lookup(ReadLines(SplitLines(Persisted(Some(FileText(["K=a", "K=b"])), [("K", "c")])), Strip), "K")
      == Some("b")
  {
    assert "K=a" == Assignment("K", "a") && "K=b" == Assignment("K", "b");
    DuplicateKeepsOldValue("K", "a", "b", "c");
    StripTrimmed("b");
  }

  // ----- what survives -----

  /** Line `i` is the first to hold an updated key. */
  predicate RewrittenAt(lines: seq<string>, u: Entries, i: nat)
    requires i < |lines|
  {
    Rewrites(lines[i], u) && forall j :: 0 <= j < i ==> !HoldsKey(lines[j], RawKey(lines[i]))
  }

  /** The updates whose key met no line, in order. */
  function Unmet(u: Entries, lines: seq<string>): Entries {
    if u == [] then []
    else (if Occurrences(lines, u[0].0) == 0 then [u[0]] else []) + Unmet(u[1..], lines)
  }

  lemma {:induction false} UnmetCons(u: Entries, lines: seq<string>)
    requires Distinct(u) && lines != []
    ensures Unmet(u, lines) ==
      if Rewrites(lines[0], u) then Unmet(Remove(u, RawKey(lines[0])), lines[1..]) else Unmet(u, lines[1..])
    decreases |u|
  {
    ViewsAgree(lines[0]);
    if u != [] {
      UnmetCons(u[1..], lines);
      if Rewrites(lines[0], u) && u[0].0 == RawKey(lines[0]) {
        assert !Rewrites(lines[0], u[1..]);
      }
    }
  }

  /** What the merge makes of line `i`. */
  function KeptLine(lines: seq<string>, u: Entries, i: nat): string
    requires i < |lines|
  {
    if RewrittenAt(lines, u, i) then Assignment(RawKey(lines[i]), Lookup(u, RawKey(lines[i])).value) else lines[i]
  }

  /** The updates still pending behind the first line. */
  function Pending(lines: seq<string>, u: Entries): Entries
    requires lines != []
  {
    if Rewrites(lines[0], u) then Remove(u, RawKey(lines[0])) else u
  }

  lemma EarlierLines(lines: seq<string>, key: string, i: nat)
    requires 0 < i < |lines|
    ensures (forall j :: 0 <= j < i ==> !HoldsKey(lines[j], key))
      <==> !HoldsKey(lines[0], key) && forall j :: 0 <= j < i - 1 ==> !HoldsKey(lines[1..][j], key)
  {
    assert forall j :: 0 <= j < i - 1 ==> lines[1..][j] == lines[j + 1];
    assert forall j :: 0 < j < i ==> lines[j] == lines[1..][j - 1];
  }

  lemma KeptLineShift(lines: seq<string>, u: Entries, i: nat)
    requires Distinct(u) && 0 < i < |lines|
    ensures KeptLine(lines, u, i) == KeptLine(lines[1..], Pending(lines, u), i - 1)
  {
    assert lines[1..][i - 1] == lines[i];
    ViewsAgree(lines[0]);
    RemoveLookup(u, RawKey(lines[0]), RawKey(lines[i]));
    EarlierLines(lines, RawKey(lines[i]), i);
  }

  lemma MergeHead(lines: seq<string>, u: Entries)
    requires lines != []
    ensures Merge(lines, u) == [KeptLine(lines, u, 0)] + Merge(lines[1..], Pending(lines, u))
  {
  }

  /** For every file: the merge keeps every line in place, rewriting only the first line of an
      updated key, and appends exactly the updates that met no line. */
  lemma {:induction false} MergeKeepsLines(lines: seq<string>, u: Entries)
    requires Distinct(u)
    ensures |Merge(lines, u)| == |lines| + |Unmet(u, lines)|
    ensures Merge(lines, u)[|lines|..] == Rendered(Unmet(u, lines))
    ensures forall i :: 0 <= i < |lines| ==> Merge(lines, u)[i] == KeptLine(lines, u, i)
    decreases |lines|
  {
    if lines == [] {
      AllUnmet(u);
      RenderedLength(u);
    } else {
      var rest, pending := lines[1..], Pending(lines, u);
      var m, tail := Merge(lines, u), Merge(rest, pending);
      UnmetCons(u, lines);
      RemoveLookup(u, RawKey(lines[0]), RawKey(lines[0]));
      MergeKeepsLines(rest, pending);
      MergeHead(lines, u);
      assert m[|lines|..] == tail[|rest|..];
      forall i | 0 <= i < |lines| ensures m[i] == KeptLine(lines, u, i) {
        if i > 0 {
          KeptLineShift(lines, u, i);
        }
      }
    }
  }

  lemma {:induction false} AllUnmet(u: Entries)
    ensures Unmet(u, []) == u
  {
    if u != [] {
      AllUnmet(u[1..]);
      assert u == [u[0]] + u[1..];
    }
  }

  lemma {:induction false} RenderedLength(u: Entries)
    ensures |Rendered(u)| == |u|
  {
    if u != [] {
      RenderedLength(u[1..]);
    }
  }

  // ----- persisting twice -----

  lemma {:induction false} RenderedFixed(u: Entries)
    requires Writable(u)
    ensures Merge(Rendered(u), u) == Rendered(u)
    decreases |u|
  {
    if u != [] {
      assert Writable(u[1..]) by {
        assert forall i :: 0 <= i < |u[1..]| ==> u[1..][i] == u[i + 1];
      }
      RenderedFixed(u[1..]);
      AssignmentView(u[0].0, u[0].1);
      assert Rendered(u)[1..] == Rendered(u[1..]);
    }
  }

  /** For every file, merging the same updates again changes no line. */
  lemma {:induction false} MergeTwice(lines: seq<string>, u: Entries)
    requires Writable(u)
    ensures Merge(Merge(lines, u), u) == Merge(lines, u)
    decreases |lines|
  {
    if lines == [] {
      RenderedFixed(u);
    } else {
      var m := Merge(lines, u);
      if Rewrites(lines[0], u) {
        var k := RawKey(lines[0]);
        RemoveWritable(u, k);
        WritableKey(u, k);
        AssignmentView(k, Lookup(u, k).value);
        MergeTwice(lines[1..], Remove(u, k));
        assert m[1..] == Merge(lines[1..], Remove(u, k));
      } else {
        MergeTwice(lines[1..], u);
        assert m[1..] == Merge(lines[1..], u);
      }
    }
  }

  /** Persisting the same updates twice writes the same file as persisting once. */
  lemma PersistTwice(content: Option<string>, u: Entries)
    requires Writable(u) && OnOneLine(u) && u != []
    ensures Persisted(Some(Persisted(content, u)), u) == Persisted(content, u)
  {
    PersistedLines(content, u);
    MergeTwice(ExistingLines(content), u);
  }
}
