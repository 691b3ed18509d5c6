/** The launcher's env files: whole-file readers and writer, and the read-modify-write updates
    of the node's capacity and model configuration. */
module EnvFile {
  import opened PythonText
  import opened OrderedDict
  import opened EnvCodec

  type Entries = Dict<string>

  /** One line as both readers see it: nothing for a blank line, a comment or a line without
      `=`, else the trimmed key and the raw text behind the first `=`. */
  function ParseLine(raw: string): Option<(string, string)> {
    var line := Strip(raw);
    if line == "" || line[0] == '#' || '=' !in line then None
    else
      var i := IndexOf(line, '=');
      Some((Strip(line[..i]), line[i + 1..]))
  }

  /** The dictionary a reader fills line by line; a later line for a key wins. The launcher
      decodes with `Unescape`, the process manager with `Strip`. */
  function ReadLines(lines: seq<string>, decode: string -> string): Entries {
    if lines == [] then []
    else
      var d := ReadLines(lines[..|lines| - 1], decode);
      match ParseLine(lines[|lines| - 1])
      case None => d
      case Some((key, text)) => Put(d, key, decode(text))
  }

  function ReadEnv(content: string): Entries { ReadLines(SplitLines(content), Unescape) }

  function Assignment(key: string, text: string): string { key + "=" + text }

  function WrittenLines(d: Entries): seq<string> {
    seq(|d|, i requires 0 <= i < |d| => Assignment(d[i].0, Escape(d[i].1)))
  }

  /** How a file spells a boolean setting. */
  function Flag(b: bool): string { if b then "true" else "false" }

  function WriteEnv(d: Entries): string { FileText(WrittenLines(d)) }

  /** `_read_env_file`: the loop over the lines of an existing file. */
  method ReadEnvFile(content: Option<string>, decode: string -> string) returns (values: Entries)
    ensures content == None ==> values == []
    ensures content.Some? ==> values == ReadLines(SplitLines(content.value), decode)
  {
    values := [];
    if content == None {
      return;
    }
    var lines := SplitLines(content.value);
    for n := 0 to |lines|
      invariant values == ReadLines(lines[..n], decode)
    {
      assert lines[..n + 1][..n] == lines[..n];
      var line := Strip(lines[n]);
      if line == "" || line[0] == '#' || '=' !in line {
        continue;
      }
      var i := IndexOf(line, '=');
      values := Put(values, Strip(line[..i]), decode(line[i + 1..]));
    }
    assert lines[..|lines|] == lines;
  }

  // ----- keys and lines -----

  /** Keys a reader can return: trimmed, on one line, without `=`, not a comment. */
  predicate SafeKey(k: string) { Trimmed(k) && NoBreak(k) && '=' !in k && (k == "" || k[0] != '#') }

  lemma NoSpaceInSyntax()
    ensures !IsSpace('=') && !IsSpace('#') && !IsSpace('"') && !IsSpace('\\')
  {
  }

  lemma {:induction false} IndexOfFirst(key: string, c: char, text: string)
    requires c !in key
    ensures IndexOf(key + [c] + text, c) == |key|
  {
    var s := key + [c] + text;
    if key != "" {
      assert s[1..] == key[1..] + [c] + text;
      IndexOfFirst(key[1..], c, text);
    }
  }

  lemma AssignmentStripped(key: string, text: string)
    requires SafeKey(key)
    ensures Strip(Assignment(key, text)) == Assignment(key, RStrip(text))
  {
    NoSpaceInSyntax();
    var b := RStripShape(text);
    var line := Assignment(key, RStrip(text));
    assert line[|line| - 1] == if RStrip(text) == "" then '=' else RStrip(text)[|RStrip(text)| - 1];
    assert Assignment(key, text) == "" + line + b;
    StripUnique("", line, b);
  }

  /** Splitting an assignment at its first `=`. */
  lemma AssignmentSplits(key: string, text: string)
    requires '=' !in key
    ensures var line := Assignment(key, text);
      IndexOf(line, '=') == |key| && line[..|key|] == key && line[|key| + 1..] == text && '=' in line
  {
    var line := Assignment(key, text);
    IndexOfFirst(key, '=', text);
    assert line == key + ['='] + text;
    assert line[|key|] == '=';
  }

  /** A line written for a safe key parses back to that key; the text loses only its right edge. */
  lemma ParseAssignment(key: string, text: string)
    requires SafeKey(key)
    ensures ParseLine(Assignment(key, text)) == Some((key, RStrip(text)))
  {
    var line := Assignment(key, RStrip(text));
    AssignmentStripped(key, text);
    AssignmentSplits(key, RStrip(text));
    assert line[0] == if key == "" then '=' else key[0];
    StripTrimmed(key);
  }

  lemma StripCharacters(s: string)
    ensures NoBreak(s) ==> NoBreak(Strip(s))
    ensures '=' !in s ==> '=' !in Strip(s)
    ensures s != "" && !IsSpace(s[0]) ==> Strip(s) != "" && Strip(s)[0] == s[0]
  {
    var a, b := StripShape(s);
    var m := Strip(s);
    assert forall j :: 0 <= j < |m| ==> m[j] == s[|a| + j];
    assert |a| > 0 ==> s[0] == a[0];
    assert |a| == 0 && m == "" ==> s == b;
  }

  lemma ParseImage(raw: string)
    requires NoBreak(raw) && ParseLine(raw).Some?
    ensures SafeKey(ParseLine(raw).value.0) && NoBreak(ParseLine(raw).value.1)
  {
    StripCharacters(raw);
    StripIdempotent(raw);
    var line := Strip(raw);
    var head := line[..IndexOf(line, '=')];
    StripCharacters(head);
    StripIdempotent(head);
    assert head != "" ==> head[0] == line[0];
  }

  /** Values a reader can return. */
  predicate Readable(v: string) { !HasLiteralEscape(v) && OnlyPlainBreaks(v) }

  ghost predicate AllReadable(d: Entries) { forall i :: 0 <= i < |d| ==> SafeKey(d[i].0) && Readable(d[i].1) }

  lemma {:induction false} PutReadable(d: Entries, k: string, v: string)
    requires AllReadable(d) && SafeKey(k) && Readable(v)
    ensures AllReadable(Put(d, k, v))
  {
    if d != [] && d[0].0 != k {
      assert AllReadable(d[1..]) by {
        assert forall i :: 0 <= i < |d[1..]| ==> d[1..][i] == d[i + 1];
      }
      PutReadable(d[1..], k, v);
    }
  }

  lemma {:induction false} ReadImage(lines: seq<string>)
    requires forall i :: 0 <= i < |lines| ==> NoBreak(lines[i])
    ensures Distinct(ReadLines(lines, Unescape)) && AllReadable(ReadLines(lines, Unescape))
  {
    if lines != [] {
      var n := |lines| - 1;
      ReadImage(lines[..n]);
      var raw := lines[n];
      if ParseLine(raw).Some? {
        ParseImage(raw);
        var (key, text) := ParseLine(raw).value;
        UnescapeImage(text);
        UnescapeBreaks(text);
        PutDistinct(ReadLines(lines[..n], Unescape), key, Unescape(text));
        PutReadable(ReadLines(lines[..n], Unescape), key, Unescape(text));
      }
    }
  }

  // ----- round trip -----

  lemma UnescapeRStrip(text: string)
    ensures Unescape(RStrip(text)) == Unescape(text)
  {
    StripAfterRStrip(text);
  }

  /** What comes back from a written dictionary, entry by entry. */
  function Reread(d: Entries): Entries {
    seq(|d|, i requires 0 <= i < |d| => (d[i].0, Unescape(Escape(d[i].1))))
  }

  /** Reading one more written line adds its entry behind entries with other keys. */
  lemma ReadOneMore(lines: seq<string>, d: Entries, key: string, text: string)
    requires lines != [] && lines[|lines| - 1] == Assignment(key, text) && SafeKey(key)
    requires ReadLines(lines[..|lines| - 1], Unescape) == d && !Has(d, key)
    ensures ReadLines(lines, Unescape) == d + [(key, Unescape(text))]
  {
    ParseAssignment(key, text);
    UnescapeRStrip(text);
    PutFresh(d, key, Unescape(text));
  }

  lemma WrittenInit(d: Entries)
    requires d != [] && Distinct(d)
    ensures var n := |d| - 1; var init := d[..n];
      WrittenLines(d)[..n] == WrittenLines(init) && WrittenLines(d)[n] == Assignment(d[n].0, Escape(d[n].1))
      && Reread(d) == Reread(init) + [(d[n].0, Unescape(Escape(d[n].1)))]
      && Distinct(init) && !Has(Reread(init), d[n].0)
  {
    var n := |d| - 1;
    forall j | 0 <= j <= n ensures forall i :: 0 <= i < j ==> d[i].0 != d[j].0 {
      EarlierKeysDiffer(d, j);
    }
    DistinctByIndex(d[..n]);
    HasIndex(Reread(d[..n]), d[n].0);
  }

  lemma {:induction false} ReadWrittenLines(d: Entries)
    requires Distinct(d) && forall i :: 0 <= i < |d| ==> SafeKey(d[i].0)
    ensures ReadLines(WrittenLines(d), Unescape) == Reread(d)
    decreases |d|
  {
    if d != [] {
      var n := |d| - 1;
      WrittenInit(d);
      ReadWrittenLines(d[..n]);
      ReadOneMore(WrittenLines(d), Reread(d[..n]), d[n].0, Escape(d[n].1));
    }
  }

  lemma ReadBlank()
    ensures ReadLines([""], Unescape) == []
  {
    assert [""][..0] == [];
    assert ReadLines([""][..0], Unescape) == [];
    StripTrimmed("");
  }

  lemma SplitWritten(d: Entries)
    requires forall i :: 0 <= i < |d| ==> SafeKey(d[i].0) && OnlyPlainBreaks(d[i].1)
    ensures SplitLines(WriteEnv(d)) == if d == [] then [""] else WrittenLines(d)
  {
    var lines := WrittenLines(d);
    forall i | 0 <= i < |lines| ensures NoBreak(lines[i]) {
      EscapeStaysOnOneLine(d[i].1);
      var k, t := d[i].0, Escape(d[i].1);
      assert lines[i] == k + "=" + t;
    }
    SplitFileText(lines);
  }

  lemma ReadWritten(d: Entries)
    requires Distinct(d)
    requires forall i :: 0 <= i < |d| ==> SafeKey(d[i].0) && OnlyPlainBreaks(d[i].1)
    ensures ReadEnv(WriteEnv(d)) == Reread(d)
  {
    SplitWritten(d);
    if d == [] {
      ReadBlank();
    } else {
      ReadWrittenLines(d);
    }
  }

  /** Entries a file keeps. */
  ghost predicate Storable(d: Entries) {
    forall i :: 0 <= i < |d| ==> SafeKey(d[i].0) && OnlyPlainBreaks(d[i].1) && Preserved(d[i].1)
  }

  /** Main result: a written dictionary reads back as itself, order included, exactly when
      every key is safe and every value is one the codec preserves on one line. */
  lemma FileRoundTrip(d: Entries)
    requires Distinct(d)
    ensures ReadEnv(WriteEnv(d)) == d <==> Storable(d)
  {
    if ReadEnv(WriteEnv(d)) == d {
      ReadImage(SplitLines(WriteEnv(d)));
      ReadWritten(d);
      forall i | 0 <= i < |d| ensures Preserved(d[i].1) {
        assert d[i] == Reread(d)[i];
        RoundTrip(d[i].1);
      }
    }
    if Storable(d) {
      ReadWritten(d);
      forall i | 0 <= i < |d| ensures Reread(d)[i] == d[i] {
        RoundTrip(d[i].1);
      }
    }
  }

  // ----- read-modify-write -----

  /** Every launcher update: read the file, overwrite some keys, write it back. */
  function Rewrite(content: string, updates: Entries): string { WriteEnv(PutAll(ReadEnv(content), updates)) }

  /** The value keeps its ends when written: a character of it calls for quotes, or it has no
      strippable whitespace there. */
  predicate EdgesKept(v: string) { HasQuoted(v) || EdgesSurvive(v) }

  /** Every entry an update leaves alone keeps its value when the file is rewritten. */
  ghost predicate OthersKept(content: string, updates: Entries) {
    forall e :: e in ReadEnv(content) && !Has(updates, e.0) ==> EdgesKept(e.1)
  }

  lemma {:induction false} PutMembers(d: Entries, k: string, v: string, e: (string, string))
    requires Distinct(d)
    ensures e in Put(d, k, v) <==> e == (k, v) || (e in d && e.0 != k)
  {
    if d != [] {
      HasIndex(d[1..], d[0].0);
      assert d == [d[0]] + d[1..];
      if d[0].0 != k {
        PutMembers(d[1..], k, v, e);
      }
    }
  }

  lemma {:induction false} PutAllMembers(d: Entries, updates: Entries, e: (string, string))
    requires Distinct(d) && Distinct(updates)
    ensures e in PutAll(d, updates) <==> e in updates || (e in d && !Has(updates, e.0))
    decreases |updates|
  {
    if updates != [] {
      var (k, v) := updates[0];
      PutDistinct(d, k, v);
      PutMembers(d, k, v, e);
      PutAllMembers(Put(d, k, v), updates[1..], e);
      assert updates == [updates[0]] + updates[1..];
      HasIndex(updates[1..], k);
    }
  }

  /** Main result: after an update the file re-reads as the old dictionary with exactly the
      targeted keys changed, if and only if the new entries are storable and no untouched value
      has edge whitespace that the writer leaves unquoted. */
  lemma RewriteFrame(content: string, updates: Entries)
    requires Distinct(updates)
    ensures ReadEnv(Rewrite(content, updates)) == PutAll(ReadEnv(content), updates)
      <==> Storable(updates) && OthersKept(content, updates)
  {
    var old' := ReadEnv(content);
    var d := PutAll(old', updates);
    ReadImage(SplitLines(content));
    PutAllDistinct(old', updates);
    FileRoundTrip(d);
    forall e ensures e in d <==> e in updates || (e in old' && !Has(updates, e.0)) {
      PutAllMembers(old', updates, e);
    }
    StorableMembers(d);
    StorableMembers(updates);
    StorableMembers(old');
  }

  lemma StorableMembers(d: Entries)
    ensures Storable(d) <==> forall e :: e in d ==> SafeKey(e.0) && OnlyPlainBreaks(e.1) && Preserved(e.1)
    ensures AllReadable(d) <==> forall e :: e in d ==> SafeKey(e.0) && Readable(e.1)
  {
    assert forall i :: 0 <= i < |d| ==> d[i] in d;
  }

  /** The frame key by key: a targeted key holds its new value, any other its old one. */
  lemma RewriteLookup(content: string, updates: Entries, key: string)
    requires Distinct(updates) && Storable(updates) && OthersKept(content, updates)
    ensures Lookup(ReadEnv(Rewrite(content, updates)), key)
      == if Has(updates, key) then Lookup(updates, key) else Lookup(ReadEnv(content), key)
  {
    RewriteFrame(content, updates);
    PutAllLookup(ReadEnv(content), updates, key);
  }

  lemma {:induction false} RereadLookup(d: Entries, key: string)
    ensures Lookup(Reread(d), key)
      == if Has(d, key) then Some(Unescape(Escape(Lookup(d, key).value))) else None
    decreases |d|
  {
    if d != [] {
      assert Reread(d)[1..] == Reread(d[1..]);
      RereadLookup(d[1..], key);
    }
  }

  /** For every existing file, whatever it holds, a storable update always takes: each targeted key
      reads back as its new value. */
  lemma TargetTakes(content: string, updates: Entries, key: string)
    requires Distinct(updates) && Storable(updates) && Has(updates, key)
    ensures Lookup(ReadEnv(Rewrite(content, updates)), key) == Lookup(updates, key)
  {
    var old' := ReadEnv(content);
    var d := PutAll(old', updates);
    ReadImage(SplitLines(content));
    PutAllDistinct(old', updates);
    forall i | 0 <= i < |d| ensures SafeKey(d[i].0) && OnlyPlainBreaks(d[i].1) {
      PutAllMembers(old', updates, d[i]);
      StorableMembers(updates);
      StorableMembers(old');
    }
    ReadWritten(d);
    RereadLookup(d, key);
    PutAllLookup(old', updates, key);
    StorableLookup(updates, key);
    RoundTrip(Lookup(updates, key).value);
  }

  lemma {:induction false} StorableLookup(d: Entries, key: string)
    requires Storable(d) && Has(d, key)
    ensures Preserved(Lookup(d, key).value)
    decreases |d|
  {
    assert Preserved(d[0].1);
    if d[0].0 != key {
      assert forall i :: 0 <= i < |d[1..]| ==> d[1..][i] == d[i + 1];
      StorableLookup(d[1..], key);
    }
  }
}
