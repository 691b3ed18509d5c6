/** The quoting codec of the launcher's env files (`_escape_env_value`, `_unescape_env_value`). */
module EnvCodec {
  import opened PythonText

  function DecodeReturns(s: string): string { Replace2(s, '\\', 'r', "\r") }

  function EncodeFeeds(s: string): string { Replace1(s, '\n', "\\n") }

  function Normalize(v: string): string { EncodeFeeds(Replace1(v, '\r', "\\r")) }

  function Denormalize(s: string): string { Replace2(DecodeReturns(s), '\\', 'n', "\n") }

  function EscapeQuoted(s: string): string { Replace1(Replace1(s, '\\', "\\\\"), '"', "\\\"") }

  /** Quotes first, backslashes second: the order the source uses. */
  function UnescapeQuoted(s: string): string { Replace2(Replace2(s, '\\', '"', "\""), '\\', '\\', "\\") }

  predicate NeedsQuotes(v: string) {
    var s := Normalize(v);
    '"' in s || '\'' in s || ' ' in s || '#' in s
  }

  function Escape(v: string): string {
    var s := Normalize(v);
    if NeedsQuotes(v) then "\"" + EscapeQuoted(s) + "\"" else s
  }

  function Unescape(value: string): string {
    var s := Strip(value);
    if |s| >= 2 && s[0] == s[|s| - 1] && (s[0] == '"' || s[0] == '\'') then
      var inner := s[1..|s| - 1];
      Denormalize(if s[0] == '"' then UnescapeQuoted(inner) else inner)
    else
      Denormalize(s)
  }

  /** The value holds a literal backslash followed by `r` or `n`. */
  predicate HasLiteralEscape(v: string) { HasPair(v, '\\', 'r') || HasPair(v, '\\', 'n') }

  /** Whitespace that survives normalization, so an unquoted value loses it at its ends. */
  predicate StripsAtEdge(c: char) { IsSpace(c) && c != '\r' && c != '\n' }

  predicate EdgesSurvive(v: string) { v == "" || (!StripsAtEdge(v[0]) && !StripsAtEdge(v[|v| - 1])) }

  /** The value holds one of the four characters that are written in quotes. */
  predicate HasQuoted(v: string) { '"' in v || '\'' in v || ' ' in v || '#' in v }

  /** Exactly the values the codec preserves. */
  predicate Preserved(v: string) { !HasLiteralEscape(v) && (HasQuoted(v) || EdgesSurvive(v)) }

  // ----- quoted part: the parity argument -----

  /** Each added `\"` is undone exactly, whatever run of backslashes stands before the quote. */
  lemma {:induction false} QuotesUndone(w: string)
    ensures Replace2(Replace1(w, '"', "\\\""), '\\', '"', "\"") == w
  {
    if w != "" {
      QuotesUndone(w[1..]);
      var e := Replace1(w[1..], '"', "\\\"");
      assert w == [w[0]] + w[1..];
      assert e == "" || e[0] != '"';
      if w[0] == '"' {
        assert ("\\\"" + e)[2..] == e;
      } else {
        assert ([w[0]] + e)[1..] == e;
        if e == "" {
          assert w[1..] == "";
        }
      }
    }
  }

  lemma {:induction false} BackslashesUndone(w: string)
    ensures Replace2(Replace1(w, '\\', "\\\\"), '\\', '\\', "\\") == w
  {
    if w != "" {
      BackslashesUndone(w[1..]);
      var e := Replace1(w[1..], '\\', "\\\\");
      assert w == [w[0]] + w[1..];
      if w[0] == '\\' {
        assert ("\\\\" + e)[2..] == e;
      } else {
        assert ([w[0]] + e)[1..] == e;
        if e == "" {
          assert w[1..] == "";
        }
      }
    }
  }

  /** The two sequential replaces invert the two sequential replaces, for every string. */
  lemma QuotedRoundTrip(s: string)
    ensures UnescapeQuoted(EscapeQuoted(s)) == s
  {
    QuotesUndone(Replace1(s, '\\', "\\\\"));
    BackslashesUndone(s);
  }

  // ----- line breaks -----

  lemma {:induction false} LineFeedsUndone(w: string)
    ensures Replace2(Replace1(w, '\n', "\\n"), '\\', 'n', "\n") == Replace2(w, '\\', 'n', "\n")
  {
    if w != "" {
      var e := Replace1(w[1..], '\n', "\\n");
      LineFeedsUndone(w[1..]);
      if w[0] == '\n' {
        assert ("\\n" + e)[2..] == e;
        Replace2Prefix("\n", w[1..], '\\', 'n', "\n");
        assert w == "\n" + w[1..];
      } else {
        assert ([w[0]] + e)[1..] == e;
        assert e != "" && e[0] == 'n' ==> w[1] == 'n';
        if |w| >= 2 && w[0] == '\\' && w[1] == 'n' {
          LineFeedsUndone(w[2..]);
          assert ([w[0]] + e)[2..] == Replace1(w[2..], '\n', "\\n");
        }
      }
    }
  }

  lemma Replace1Head(x: char, t: string, c: char, r: string)
    ensures Replace1([x] + t, c, r) == (if x == c then r else [x]) + Replace1(t, c, r)
  {
    assert ([x] + t)[1..] == t;
  }

  lemma Replace2Head(x: char, t: string, p: char, q: char, r: string)
    requires x != p || t == "" || t[0] != q
    ensures Replace2([x] + t, p, q, r) == [x] + Replace2(t, p, q, r)
  {
    assert ([x] + t)[1..] == t;
  }

  lemma Replace2Match(t: string, p: char, q: char, r: string)
    ensures Replace2([p, q] + t, p, q, r) == r + Replace2(t, p, q, r)
  {
    assert ([p, q] + t)[2..] == t;
  }

  lemma ReturnStep(w: string, e: string)
    requires DecodeReturns(e) == EncodeFeeds(DecodeReturns(w))
    ensures DecodeReturns("\\r" + e) == EncodeFeeds(DecodeReturns("\r" + w))
    ensures DecodeReturns("\\r" + e) == EncodeFeeds(DecodeReturns("\\r" + w))
  {
    Replace2Match(e, '\\', 'r', "\r");
    Replace2Match(w, '\\', 'r', "\r");
    Replace2Head('\r', w, '\\', 'r', "\r");
    Replace1Head('\r', DecodeReturns(w), '\n', "\\n");
  }

  lemma FeedStep(w: string, e: string)
    requires DecodeReturns(e) == EncodeFeeds(DecodeReturns(w))
    ensures DecodeReturns("\\n" + e) == EncodeFeeds(DecodeReturns("\n" + w))
  {
    assert "\\n" + e == ['\\'] + (['n'] + e);
    Replace2Head('\\', ['n'] + e, '\\', 'r', "\r");
    Replace2Head('n', e, '\\', 'r', "\r");
    Replace2Head('\n', w, '\\', 'r', "\r");
    Replace1Head('\n', DecodeReturns(w), '\n', "\\n");
    assert "\\n" + DecodeReturns(e) == ['\\'] + (['n'] + DecodeReturns(e));
  }

  lemma OtherStep(c: char, w: string, e: string)
    requires DecodeReturns(e) == EncodeFeeds(DecodeReturns(w))
    requires c != '\r' && c != '\n'
    requires c == '\\' ==> (w == "" || w[0] != 'r') && (e == "" || e[0] != 'r')
    ensures DecodeReturns([c] + e) == EncodeFeeds(DecodeReturns([c] + w))
  {
    Replace2Head(c, e, '\\', 'r', "\r");
    Replace2Head(c, w, '\\', 'r', "\r");
    Replace1Head(c, DecodeReturns(w), '\n', "\\n");
  }

  lemma {:induction false} CarriageReturnsUndone(v: string)
    ensures DecodeReturns(Normalize(v)) == EncodeFeeds(DecodeReturns(v))
  {
    if v != "" {
      var c, w := v[0], v[1..];
      assert v == [c] + w;
      NormalizeHead(v);
      CarriageReturnsUndone(w);
      if w != "" {
        NormalizeHead(w);
      }
      if c == '\r' {
        ReturnStep(w, Normalize(w));
      } else if c == '\n' {
        FeedStep(w, Normalize(w));
      } else if c == '\\' && w != "" && w[0] == 'r' {
        CarriageReturnsUndone(w[1..]);
        ReturnStep(w[1..], Normalize(w[1..]));
        assert v == "\\r" + w[1..] && [c] + Normalize(w) == "\\r" + Normalize(w[1..]);
      } else {
        OtherStep(c, w, Normalize(w));
      }
    }
  }

  lemma NormalizeHead(v: string)
    requires v != ""
    ensures Normalize(v) == (if v[0] == '\r' then "\\r" else if v[0] == '\n' then "\\n" else [v[0]]) + Normalize(v[1..])
  {
    var h := if v[0] == '\r' then "\\r" else [v[0]];
    Replace1Concat(h, Replace1(v[1..], '\r', "\\r"), '\n', "\\n");
    assert [v[0]][1..] == "" && "\\r"[1..] == "r" && "r"[1..] == "";
  }

  /** Normalizing before denormalizing adds nothing: both give the denormalized value. */
  lemma DenormalizeNormalize(v: string)
    ensures Denormalize(Normalize(v)) == Denormalize(v)
  {
    CarriageReturnsUndone(v);
    LineFeedsUndone(Replace2(v, '\\', 'r', "\r"));
  }

  lemma DenormalizeLength(v: string)
    ensures |Denormalize(v)| <= |v|
    ensures Denormalize(v) == v <==> !HasLiteralEscape(v)
  {
    Replace2Length(v, '\\', 'r', '\r');
    Replace2Length(Replace2(v, '\\', 'r', "\r"), '\\', 'n', '\n');
  }

  /** No reader ever returns a literal backslash-r or backslash-n. */
  lemma DenormalizeImage(s: string)
    ensures !HasLiteralEscape(Denormalize(s))
  {
    var t := Replace2(s, '\\', 'r', "\r");
    Replace2Clears(s, '\\', 'r', '\r');
    Replace2Clears(t, '\\', 'n', '\n');
    Replace2Preserves(t, '\\', 'n', '\n', 'r');
  }

  lemma UnescapeImage(value: string)
    ensures !HasLiteralEscape(Unescape(value))
  {
    var s := Strip(value);
    DenormalizeImage(s);
    if |s| >= 2 {
      DenormalizeImage(s[1..|s| - 1]);
      DenormalizeImage(UnescapeQuoted(s[1..|s| - 1]));
    }
  }

  // ----- which values are quoted -----

  lemma {:induction false} NormalizeMember(v: string, c: char)
    requires c !in "\r\n\\rn"
    ensures c in Normalize(v) <==> c in v
  {
    if v != "" {
      NormalizeHead(v);
      NormalizeMember(v[1..], c);
      assert c in v <==> v[0] == c || c in v[1..];
    }
  }

  lemma QuotedIff(v: string)
    ensures NeedsQuotes(v) <==> '"' in v || '\'' in v || ' ' in v || '#' in v
  {
    NormalizeMember(v, '"');
    NormalizeMember(v, '\'');
    NormalizeMember(v, ' ');
    NormalizeMember(v, '#');
  }

  /** The whitespace a bare value loses at its ends, character by character. */
  lemma LostAtEdges(c: char)
    ensures StripsAtEdge(c) <==>
      c in "\t \U{0B}\U{0C}\U{1C}\U{1D}\U{1E}\U{1F}\U{85}\U{A0}\U{1680}\U{2000}\U{2001}\U{2002}\U{2003}\U{2004}"
      || c in "\U{2005}\U{2006}\U{2007}\U{2008}\U{2009}\U{200A}\U{2028}\U{2029}\U{202F}\U{205F}\U{3000}"
  {
  }

  // ----- unquoted part -----

  lemma {:induction false} NormalizeEnds(v: string)
    ensures Trimmed(Normalize(v)) <==> EdgesSurvive(v)
    ensures Normalize(v) == "" <==> v == ""
    ensures v != "" ==> (IsSpace(Normalize(v)[|Normalize(v)| - 1]) <==> StripsAtEdge(v[|v| - 1]))
  {
    if v != "" {
      NormalizeHead(v);
      NormalizeEnds(v[1..]);
    }
  }

  /** Stripping whitespace removes it from the denormalized text too. */
  lemma DenormalizeAround(a: string, m: string, b: string)
    requires AllSpace(a) && AllSpace(b)
    ensures Denormalize(a + m + b) == a + Denormalize(m) + b
  {
    assert !IsSpace('\\') && !IsSpace('r') && !IsSpace('n');
    var r := Replace2(m, '\\', 'r', "\r");
    Replace2Suffix(a + m, b, '\\', 'r', "\r");
    Replace2Prefix(a, m, '\\', 'r', "\r");
    Replace2Suffix(a + r, b, '\\', 'n', "\n");
    Replace2Prefix(a, r, '\\', 'n', "\n");
  }

  lemma UnquotedRoundTrip(v: string)
    requires !NeedsQuotes(v)
    ensures Unescape(Escape(v)) == v <==> !HasLiteralEscape(v) && EdgesSurvive(v)
  {
    var s := Normalize(v);
    var a, b := StripShape(s);
    var m := Strip(s);
    assert forall i :: 0 <= i < |m| ==> m[i] == s[|a| + i];
    DenormalizeNormalize(v);
    DenormalizeLength(v);
    NormalizeEnds(v);
    DenormalizeAround(a, m, b);
    if Trimmed(s) {
      StripTrimmed(s);
    } else {
      assert |a| + |b| > 0;
    }
  }

  /** Main result: the codec returns a value unchanged exactly when the value holds no literal
      escape and is either quoted or free of strippable edges. */
  lemma RoundTrip(v: string)
    ensures Unescape(Escape(v)) == v <==> Preserved(v)
    ensures Unescape(Escape(v)) == v <==>
      !HasLiteralEscape(v) && ('"' in v || '\'' in v || ' ' in v || '#' in v || EdgesSurvive(v))
  {
    QuotedIff(v);
    if NeedsQuotes(v) {
      var e := Escape(v);
      StripTrimmed(e);
      assert e[1..|e| - 1] == EscapeQuoted(Normalize(v));
      QuotedRoundTrip(Normalize(v));
      DenormalizeNormalize(v);
      DenormalizeLength(v);
    } else {
      UnquotedRoundTrip(v);
    }
  }

  /** What comes back in every case: the decoded value, and of a bare one without its edges. */
  lemma ReadBack(v: string)
    ensures HasQuoted(v) || EdgesSurvive(v) ==> Unescape(Escape(v)) == Denormalize(v)
    ensures !HasQuoted(v) ==> Unescape(Escape(v)) == Denormalize(Strip(Normalize(v)))
  {
    QuotedIff(v);
    DenormalizeNormalize(v);
    if NeedsQuotes(v) {
      var e := Escape(v);
      StripTrimmed(e);
      assert e[1..|e| - 1] == EscapeQuoted(Normalize(v));
      QuotedRoundTrip(Normalize(v));
    } else {
      BareRead(v);
      NormalizeEnds(v);
      if Trimmed(Normalize(v)) {
        StripTrimmed(Normalize(v));
      }
    }
  }

  lemma BareRead(v: string)
    requires !NeedsQuotes(v)
    ensures Unescape(Escape(v)) == Denormalize(Strip(Normalize(v)))
  {
    var s := Normalize(v);
    var a, b := StripShape(s);
    assert forall i :: 0 <= i < |Strip(s)| ==> Strip(s)[i] == s[|a| + i];
  }

  /** Text in single quotes, as a hand-written file may hold it, is decoded but not unescaped. */
  lemma SingleQuoted(inner: string)
    ensures Unescape("'" + inner + "'") == Denormalize(inner)
    ensures !HasLiteralEscape(inner) ==> Unescape("'" + inner + "'") == inner
  {
    var s := "'" + inner + "'";
    StripTrimmed(s);
    assert s[1..|s| - 1] == inner;
    DenormalizeLength(inner);
  }

  const BACKSLASH_N := "\\n"

  lemma BackslashNStored()
    ensures Escape(BACKSLASH_N) == BACKSLASH_N
  {
    Replace1Absent(BACKSLASH_N, '\r', "\\r");
    Replace1Absent(BACKSLASH_N, '\n', "\\n");
  }

  lemma BackslashNDecoded()
    ensures Denormalize(BACKSLASH_N) == "\n"
  {
    Replace2Length(BACKSLASH_N, '\\', 'r', '\r');
    assert BACKSLASH_N == ['\\', 'n'] + "";
    Replace2Match("", '\\', 'n', "\n");
  }

  /** An instance of the failing side: a backslash before an `n` comes back as a line feed. */
  lemma BackslashNBecomesFeed()
    ensures Unescape(Escape(BACKSLASH_N)) == "\n" != BACKSLASH_N
  {
    BackslashNStored();
    StripTrimmed(BACKSLASH_N);
    BackslashNDecoded();
  }

  // ----- what an escaped value looks like inside a file -----

  /** Only CR and LF are protected: any other line break cuts the written line in two. */
  predicate OnlyPlainBreaks(v: string) {
    forall i :: 0 <= i < |v| ==> IsLineBreak(v[i]) ==> v[i] == '\r' || v[i] == '\n'
  }

  lemma {:induction false} Replace1Breaks(s: string, c: char, r: string)
    requires NoBreak(r)
    requires forall i :: 0 <= i < |s| ==> IsLineBreak(s[i]) ==> s[i] == c
    ensures NoBreak(Replace1(s, c, r))
  {
    if s != "" {
      Replace1Breaks(s[1..], c, r);
    }
  }

  lemma {:induction false} Replace1Members(s: string, c: char, r: string, x: char)
    requires x in Replace1(s, c, r)
    ensures x in s || x in r
  {
    if s != "" {
      if x in Replace1(s[1..], c, r) {
        Replace1Members(s[1..], c, r, x);
      }
    }
  }

  lemma EscapeStaysOnOneLine(v: string)
    requires OnlyPlainBreaks(v)
    ensures NoBreak(Escape(v))
  {
    var t := Replace1(v, '\r', "\\r");
    forall i | 0 <= i < |t| && IsLineBreak(t[i]) ensures t[i] == '\n' {
      Replace1Members(v, '\r', "\\r", t[i]);
      NoCarriageReturn(v);
    }
    Replace1Breaks(t, '\n', "\\n");
    var s := Normalize(v);
    Replace1Breaks(s, '\\', "\\\\");
    Replace1Breaks(Replace1(s, '\\', "\\\\"), '"', "\\\"");
  }

  lemma {:induction false} NoCarriageReturn(v: string)
    ensures '\r' !in Replace1(v, '\r', "\\r")
  {
    if v != "" {
      NoCarriageReturn(v[1..]);
    }
  }

  lemma {:induction false} Replace2Members(s: string, p: char, q: char, r: string, x: char)
    requires x in Replace2(s, p, q, r)
    ensures x in s || x in r
  {
    if |s| >= 2 {
      if s[0] == p && s[1] == q {
        if x in Replace2(s[2..], p, q, r) {
          Replace2Members(s[2..], p, q, r, x);
        }
      } else if x in Replace2(s[1..], p, q, r) {
        Replace2Members(s[1..], p, q, r, x);
      }
    }
  }

  /** A value read from one line holds no line break but the CR and LF the codec decodes. */
  lemma UnescapeBreaks(value: string)
    requires NoBreak(value)
    ensures OnlyPlainBreaks(Unescape(value))
  {
    var a, b := StripShape(value);
    var s := Strip(value);
    assert forall i :: 0 <= i < |s| ==> s[i] == value[|a| + i];
    DenormalizeBreaks(s);
    if |s| >= 2 {
      var inner := s[1..|s| - 1];
      DenormalizeBreaks(inner);
      var t := Replace2(inner, '\\', '"', "\"");
      forall i | 0 <= i < |UnescapeQuoted(inner)| ensures !IsLineBreak(UnescapeQuoted(inner)[i]) {
        Replace2Members(t, '\\', '\\', "\\", UnescapeQuoted(inner)[i]);
        if UnescapeQuoted(inner)[i] in t {
          Replace2Members(inner, '\\', '"', "\"", UnescapeQuoted(inner)[i]);
        }
      }
      DenormalizeBreaks(UnescapeQuoted(inner));
    }
  }

  lemma DenormalizeBreaks(s: string)
    requires NoBreak(s)
    ensures OnlyPlainBreaks(Denormalize(s))
  {
    var t := Replace2(s, '\\', 'r', "\r");
    forall i | 0 <= i < |Denormalize(s)| && IsLineBreak(Denormalize(s)[i])
      ensures Denormalize(s)[i] == '\r' || Denormalize(s)[i] == '\n'
    {
      Replace2Members(t, '\\', 'n', "\n", Denormalize(s)[i]);
      if Denormalize(s)[i] in t {
        Replace2Members(s, '\\', 'r', "\r", Denormalize(s)[i]);
      }
    }
  }
}
