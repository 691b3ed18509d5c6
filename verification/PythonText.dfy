/** Python string operations the env-file code is built from, on `seq<char>`.
    Whitespace and line breaks are the full sets `str.strip` and `str.splitlines` use. */
module PythonText {

  predicate IsLineBreak(c: char) {
    c == '\n' || c == '\r' || c == '\U{0B}' || c == '\U{0C}' || '\U{1C}' <= c <= '\U{1E}'
    || c == '\U{85}' || c == '\U{2028}' || c == '\U{2029}'
  }

  predicate IsSpace(c: char) {
    IsLineBreak(c) || c == ' ' || c == '\t' || c == '\U{1F}' || c == '\U{A0}' || c == '\U{1680}'
    || '\U{2000}' <= c <= '\U{200A}' || c == '\U{202F}' || c == '\U{205F}' || c == '\U{3000}'
  }

  predicate AllSpace(s: string) { forall i :: 0 <= i < |s| ==> IsSpace(s[i]) }

  predicate NoBreak(s: string) { forall i :: 0 <= i < |s| ==> !IsLineBreak(s[i]) }

  predicate Trimmed(s: string) { s == "" || (!IsSpace(s[0]) && !IsSpace(s[|s| - 1])) }

  function LStrip(s: string): string {
    if s != "" && IsSpace(s[0]) then LStrip(s[1..]) else s
  }

  function RStrip(s: string): string {
    if s != "" && IsSpace(s[|s| - 1]) then RStrip(s[..|s| - 1]) else s
  }

  function Strip(s: string): string { RStrip(LStrip(s)) }

  /** `s.replace(c, replacement)` for a one-character pattern. */
  function Replace1(s: string, c: char, replacement: string): string {
    if s == "" then "" else (if s[0] == c then replacement else [s[0]]) + Replace1(s[1..], c, replacement)
  }

  /** `s.replace(p + q, replacement)`: leftmost matches first, never overlapping. */
  function Replace2(s: string, p: char, q: char, replacement: string): string {
    if |s| < 2 then s
    else if s[0] == p && s[1] == q then replacement + Replace2(s[2..], p, q, replacement)
    else [s[0]] + Replace2(s[1..], p, q, replacement)
  }

  predicate HasPair(s: string, p: char, q: char) { exists i :: 0 <= i < |s| - 1 && s[i] == p && s[i + 1] == q }

  function FirstBreak(s: string): (i: nat)
    ensures i <= |s| && forall k :: 0 <= k < i ==> !IsLineBreak(s[k])
    ensures i < |s| ==> IsLineBreak(s[i])
  {
    if s == "" || IsLineBreak(s[0]) then 0 else FirstBreak(s[1..]) + 1
  }

  /** `s.splitlines()`: CR LF counts as one break, and a final break opens no extra line. */
  function SplitLines(s: string): (lines: seq<string>)
    ensures forall i :: 0 <= i < |lines| ==> NoBreak(lines[i])
    decreases |s|
  {
    if s == "" then []
    else
      var i := FirstBreak(s);
      if i == |s| then [s]
      else
        var j := if s[i] == '\r' && i + 1 < |s| && s[i + 1] == '\n' then i + 2 else i + 1;
        [s[..i]] + SplitLines(s[j..])
  }

  /** `"\n".join(lines) + "\n"`, the text every writer of an env file produces. */
  function FileText(lines: seq<string>): string {
    if |lines| == 0 then "\n"
    else if |lines| == 1 then lines[0] + "\n"
    else lines[0] + "\n" + FileText(lines[1..])
  }

  /** `s.find(c)`, or the length when absent. */
  function IndexOf(s: string, c: char): (i: nat)
    ensures i <= |s| && forall k :: 0 <= k < i ==> s[k] != c
    ensures i < |s| ==> s[i] == c
  {
    if s == "" || s[0] == c then 0 else IndexOf(s[1..], c) + 1
  }

  // ----- stripping -----

  lemma {:induction false} LStripShape(s: string) returns (a: string)
    ensures s == a + LStrip(s) && AllSpace(a)
    ensures LStrip(s) == "" || !IsSpace(LStrip(s)[0])
  {
    if s != "" && IsSpace(s[0]) {
      var a' := LStripShape(s[1..]);
      a := [s[0]] + a';
    } else {
      a := "";
    }
  }

  lemma {:induction false} RStripShape(s: string) returns (b: string)
    ensures s == RStrip(s) + b && AllSpace(b)
    ensures RStrip(s) == "" || !IsSpace(RStrip(s)[|RStrip(s)| - 1])
  {
    if s != "" && IsSpace(s[|s| - 1]) {
      var b' := RStripShape(s[..|s| - 1]);
      b := b' + [s[|s| - 1]];
    } else {
      b := "";
    }
  }

  /** `strip` removes a run of whitespace at each end and leaves a trimmed middle. */
  lemma StripShape(s: string) returns (a: string, b: string)
    ensures s == a + Strip(s) + b && AllSpace(a) && AllSpace(b) && Trimmed(Strip(s))
  {
    a := LStripShape(s);
    b := RStripShape(LStrip(s));
    var m := LStrip(s);
    if Strip(s) != "" {
      assert m[0] == Strip(s)[0];
    }
  }

  lemma {:induction false} LStripPrefix(a: string, s: string)
    requires AllSpace(a)
    requires s == "" || !IsSpace(s[0])
    ensures LStrip(a + s) == s
  {
    if a != "" {
      assert (a + s)[1..] == a[1..] + s;
      LStripPrefix(a[1..], s);
    } else {
      assert a + s == s;
    }
  }

  lemma {:induction false} RStripSuffix(s: string, b: string)
    requires AllSpace(b)
    ensures RStrip(s + b) == RStrip(s)
  {
    if b != "" {
      var n := |s + b|;
      assert (s + b)[n - 1] == b[|b| - 1];
      assert (s + b)[..n - 1] == s + b[..|b| - 1];
      RStripSuffix(s, b[..|b| - 1]);
    } else {
      assert s + b == s;
    }
  }

  /** The trimmed middle between two runs of whitespace is what `strip` returns. */
  lemma StripUnique(a: string, m: string, b: string)
    requires AllSpace(a) && AllSpace(b) && Trimmed(m)
    ensures Strip(a + m + b) == m
  {
    if m == "" {
      assert a + m + b == a + b;
      assert AllSpace(a + b);
      LStripPrefix(a + b, "");
      assert a + b + "" == a + b;
    } else {
      assert a + m + b == a + (m + b);
      LStripPrefix(a, m + b);
      RStripSuffix(m, b);
    }
  }

  lemma StripTrimmed(s: string)
    requires Trimmed(s)
    ensures Strip(s) == s
  {
    StripUnique("", s, "");
    assert "" + s + "" == s;
  }

  lemma StripIdempotent(s: string)
    ensures Trimmed(Strip(s)) && Strip(Strip(s)) == Strip(s)
  {
    var a, b := StripShape(s);
    StripTrimmed(Strip(s));
  }

  /** Stripping the right end first changes nothing. */
  lemma StripAfterRStrip(s: string)
    ensures Strip(RStrip(s)) == Strip(s)
  {
    var b := RStripShape(s);
    var t := RStrip(s);
    var x, y := StripShape(t);
    assert s == x + Strip(t) + (y + b);
    StripUnique(x, Strip(t), y + b);
  }

  // ----- replacing -----

  lemma {:induction false} Replace1Concat(a: string, b: string, c: char, r: string)
    ensures Replace1(a + b, c, r) == Replace1(a, c, r) + Replace1(b, c, r)
  {
    if a == "" {
      assert a + b == b;
    } else {
      assert (a + b)[1..] == a[1..] + b;
      Replace1Concat(a[1..], b, c, r);
    }
  }

  lemma {:induction false} Replace1Absent(s: string, c: char, r: string)
    requires c !in s
    ensures Replace1(s, c, r) == s
  {
    if s != "" {
      Replace1Absent(s[1..], c, r);
      assert s == [s[0]] + s[1..];
    }
  }

  /** A pair is replaced by one character, so any match shortens the string. */
  lemma {:induction false} Replace2Length(s: string, p: char, q: char, x: char)
    ensures |Replace2(s, p, q, [x])| <= |s|
    ensures HasPair(s, p, q) ==> |Replace2(s, p, q, [x])| < |s|
    ensures !HasPair(s, p, q) ==> Replace2(s, p, q, [x]) == s
  {
    if |s| >= 2 {
      if s[0] == p && s[1] == q {
        Replace2Length(s[2..], p, q, x);
        assert HasPair(s, p, q);
      } else {
        Replace2Length(s[1..], p, q, x);
        assert s == [s[0]] + s[1..];
        if HasPair(s, p, q) {
          var i :| 0 <= i < |s| - 1 && s[i] == p && s[i + 1] == q;
          assert s[1..][i - 1] == p && s[1..][i] == q;
        }
      }
    }
  }

  /** Replacing by a fresh character leaves no match behind. */
  lemma {:induction false} Replace2Clears(s: string, p: char, q: char, x: char)
    requires x != p && x != q
    ensures !HasPair(Replace2(s, p, q, [x]), p, q)
    ensures s != "" && Replace2(s, p, q, [x]) != "" && Replace2(s, p, q, [x])[0] == q ==> s[0] == q
  {
    if |s| >= 2 {
      if s[0] == p && s[1] == q {
        Replace2Clears(s[2..], p, q, x);
      } else {
        Replace2Clears(s[1..], p, q, x);
      }
    }
  }

  /** A replacement that writes neither character of another pair creates no such pair. */
  lemma {:induction false} Replace2Preserves(s: string, p: char, q: char, x: char, q': char)
    requires x != p && x != q' && !HasPair(s, p, q')
    ensures !HasPair(Replace2(s, p, q, [x]), p, q')
    ensures s != "" && Replace2(s, p, q, [x]) != "" && Replace2(s, p, q, [x])[0] == q' ==> s[0] == q'
  {
    if |s| >= 2 {
      if s[0] == p && s[1] == q {
        Replace2Preserves(s[2..], p, q, x, q');
      } else {
        Replace2Preserves(s[1..], p, q, x, q');
        assert s[0] == p ==> s[1] != q';
      }
    }
  }

  lemma {:induction false} Replace2Prefix(a: string, s: string, p: char, q: char, r: string)
    requires p !in a
    ensures Replace2(a + s, p, q, r) == a + Replace2(s, p, q, r)
  {
    if a == "" {
      assert a + s == s;
    } else {
      var t := a + s;
      assert t[0] == a[0] && t[1..] == a[1..] + s;
      Replace2Prefix(a[1..], s, p, q, r);
      assert Replace2(t, p, q, r) == [a[0]] + Replace2(t[1..], p, q, r);
      assert a == [a[0]] + a[1..];
    }
  }

  lemma {:induction false} Replace2Suffix(s: string, b: string, p: char, q: char, r: string)
    requires p !in b && q !in b
    ensures Replace2(s + b, p, q, r) == Replace2(s, p, q, r) + b
  {
    if |s| == 0 {
      assert s + b == b;
      Replace2Prefix(b, "", p, q, r);
      assert b + "" == b;
    } else if |s| == 1 {
      assert (s + b)[1..] == b;
      Replace2Prefix(b, "", p, q, r);
      assert b + "" == b;
    } else {
      assert (s + b)[1..] == s[1..] + b;
      assert (s + b)[2..] == s[2..] + b;
      if s[0] == p && s[1] == q {
        Replace2Suffix(s[2..], b, p, q, r);
      } else {
        Replace2Suffix(s[1..], b, p, q, r);
      }
    }
  }

  // ----- lines -----

  lemma SplitFirstLine(line: string, rest: string)
    requires NoBreak(line)
    ensures SplitLines(line + "\n" + rest) == [line] + SplitLines(rest)
  {
    var s := line + "\n" + rest;
    var i := FirstBreak(s);
    assert s[|line|] == '\n';
    assert forall k :: 0 <= k < |line| ==> s[k] == line[k];
    assert s[..i] == line && s[i + 1..] == rest;
  }

  lemma LineBreaks(c: char)
    ensures IsLineBreak(c) <==> c in "\n\r\U{0B}\U{0C}\U{1C}\U{1D}\U{1E}\U{85}\U{2028}\U{2029}"
  {
  }

  /** A line ends at its first break, and CR LF is one. */
  lemma SplitAtBreak(line: string, c: char, rest: string)
    requires NoBreak(line) && IsLineBreak(c) && !(c == '\r' && rest != "" && rest[0] == '\n')
    ensures SplitLines(line + [c] + rest) == [line] + SplitLines(rest)
  {
    var s := line + [c] + rest;
    var i := FirstBreak(s);
    assert s[|line|] == c;
    assert forall k :: 0 <= k < |line| ==> s[k] == line[k];
    assert s[..i] == line && s[i + 1..] == rest;
  }

  lemma SplitAtCrLf(line: string, rest: string)
    requires NoBreak(line)
    ensures SplitLines(line + "\r\n" + rest) == [line] + SplitLines(rest)
  {
    var s := line + "\r\n" + rest;
    var i := FirstBreak(s);
    assert s[|line|] == '\r' && s[|line| + 1] == '\n';
    assert forall k :: 0 <= k < |line| ==> s[k] == line[k];
    assert s[..i] == line && s[i + 2..] == rest;
  }

  /** Reading back a written file gives the lines that were written. */
  lemma {:induction false} SplitFileText(lines: seq<string>)
    requires forall i :: 0 <= i < |lines| ==> NoBreak(lines[i])
    ensures SplitLines(FileText(lines)) == if lines == [] then [""] else lines
  {
    if |lines| == 0 {
      SplitFirstLine("", "");
      assert "" + "\n" + "" == "\n";
    } else if |lines| == 1 {
      SplitFirstLine(lines[0], "");
      assert lines[0] + "\n" + "" == lines[0] + "\n";
    } else {
      SplitFileText(lines[1..]);
      SplitFirstLine(lines[0], FileText(lines[1..]));
      assert lines == [lines[0]] + lines[1..];
    }
  }
}
