/** The two line recognisers of the manifest format: `TRACKINFO_RE`
    (`KEY[N]=value`, tracktagger.py:40) used by the parser, and
    `INPUT_TRACKINFO_RE` (case-insensitive `INPUT[N]=value`, tracktagger.py:41)
    used by the input collector.  Both are full matches, and `.` does not match
    a newline. */
module Lines {
  import opened Wrappers
  import opened Text

  /** A line split the way `TRACKINFO_RE` splits it: the letters of the key,
      the digits between brackets if any, and everything after `=`. */
  datatype Entry = Entry(key: string, index: Option<string>, value: string)

  predicate NoNewline(s: string) {
    '\n' !in s
  }

  predicate AllLetters(s: string) {
    forall i :: 0 <= i < |s| ==> IsAsciiLetter(s[i])
  }

  /** The length of the longest prefix made of ASCII letters. */
  function LetterRun(s: string): (n: nat)
    ensures n <= |s| && AllLetters(s[..n])
    ensures n < |s| ==> !IsAsciiLetter(s[n])
  {
    if s != [] && IsAsciiLetter(s[0]) then
      var n := 1 + LetterRun(s[1..]);
      assert s[..n] == [s[0]] + s[1..][..n - 1];
      n
    else 0
  }

  /** The length of the longest prefix made of ASCII digits. */
  function DigitRun(s: string): (n: nat)
    ensures n <= |s| && AllDigits(s[..n])
    ensures n < |s| ==> !IsAsciiDigit(s[n])
  {
    if s != [] && IsAsciiDigit(s[0]) then
      var n := 1 + DigitRun(s[1..]);
      assert s[..n] == [s[0]] + s[1..][..n - 1];
      n
    else 0
  }

  /** The value part `(.*)` of both regexes: the rest of the line, if it holds
      no newline. */
  function RestOfLine(s: string): (r: Option<string>)
    ensures r.Some? <==> NoNewline(s)
    ensures r.Some? ==> r.value == s
  {
    if NoNewline(s) then Some(s) else None
  }

  /** `TRACKINFO_RE.fullmatch(s)`: a non-empty run of ASCII letters, then the
      rest of the pattern. */
  function MatchEntry(s: string): Option<Entry> {
    var k := LetterRun(s);
    if k == 0 then None else MatchAfterKey(s[..k], s[k..])
  }

  /** The part both regexes share after the key: `(?:\[([0-9]+)\])?=(.*)`. */
  function MatchAfterKey(key: string, t: string): Option<Entry> {
    if t == [] then None
    else if t[0] == '=' then
      match RestOfLine(t[1..])
      case None => None
      case Some(v) => Some(Entry(key, None, v))
    else if t[0] == '[' then MatchIndex(key, t[1..])
    else None
  }

  /** After the opening bracket: digits, `]`, `=` and the value. */
  function MatchIndex(key: string, u: string): Option<Entry> {
    var d := DigitRun(u);
    if d >= 1 && d + 2 <= |u| && u[d] == ']' && u[d + 1] == '=' then
      match RestOfLine(u[d + 2..])
      case None => None
      case Some(v) => Some(Entry(key, Some(u[..d]), v))
    else None
  }

  /** `INPUT_TRACKINFO_RE.fullmatch(s)` (case-insensitive): the value group,
      if the line matches. */
  function MatchInput(s: string): Option<string> {
    if |s| < 5 || Upper(s[..5]) != "INPUT" then None
    else
      match MatchAfterKey(s[..5], s[5..])
      case None => None
      case Some(e) => Some(e.value)
  }

  /** The text of a line that the regex splits into `e`. */
  function Render(e: Entry): string {
    e.key + (match e.index case None => "" case Some(n) => "[" + n + "]") + "=" + e.value
  }

  /** The entries `TRACKINFO_RE` can produce. */
  predicate WellFormed(e: Entry) {
    |e.key| > 0 && AllLetters(e.key) &&
    (e.index.Some? ==> IsDigitString(e.index.value)) &&
    NoNewline(e.value)
  }

  /** A letter run followed by a non-letter is found exactly. */
  lemma LetterRunOf(key: string, rest: string)
    requires AllLetters(key) && rest != [] && !IsAsciiLetter(rest[0])
    ensures LetterRun(key + rest) == |key|
  {
    if key != [] {
      assert (key + rest)[1..] == key[1..] + rest;
      LetterRunOf(key[1..], rest);
    } else {
      assert key + rest == rest;
    }
  }

  lemma DigitRunOf(digits: string, rest: string)
    requires AllDigits(digits) && rest != [] && !IsAsciiDigit(rest[0])
    ensures DigitRun(digits + rest) == |digits|
  {
    if digits != [] {
      assert (digits + rest)[1..] == digits[1..] + rest;
      DigitRunOf(digits[1..], rest);
    } else {
      assert digits + rest == rest;
    }
  }

  /** Rendering a well-formed entry and matching the text gives the entry back. */
  lemma MatchRender(e: Entry)
    requires WellFormed(e)
    ensures MatchEntry(Render(e)) == Some(e)
  {
    match e.index {
      case None => MatchRenderPlain(e.key, e.value);
      case Some(n) => MatchRenderIndexed(e.key, n, e.value);
    }
  }

  /** A key followed by text that does not start with a letter is matched
      as that key. */
  lemma MatchEntryAfterKey(key: string, t: string)
    requires |key| > 0 && AllLetters(key) && t != [] && !IsAsciiLetter(t[0])
    ensures MatchEntry(key + t) == MatchAfterKey(key, t)
  {
    LetterRunOf(key, t);
    assert (key + t)[..|key|] == key && (key + t)[|key|..] == t;
  }

  lemma MatchRenderPlain(key: string, value: string)
    requires |key| > 0 && AllLetters(key) && NoNewline(value)
    ensures MatchEntry(Render(Entry(key, None, value))) == Some(Entry(key, None, value))
  {
    var t := "=" + value;
    assert Render(Entry(key, None, value)) == key + t;
    MatchEntryAfterKey(key, t);
    assert t[1..] == value;
  }

  lemma MatchRenderIndexed(key: string, n: string, value: string)
    requires |key| > 0 && AllLetters(key) && IsDigitString(n) && NoNewline(value)
    ensures MatchEntry(Render(Entry(key, Some(n), value))) == Some(Entry(key, Some(n), value))
  {
    var u := n + ("]=" + value);
    assert Render(Entry(key, Some(n), value)) == key + ("[" + u);
    MatchEntryAfterKey(key, "[" + u);
    assert MatchAfterKey(key, "[" + u) == MatchIndex(key, u) by {
      assert ("[" + u)[0] == '[' && ("[" + u)[1..] == u;
    }
    MatchIndexOf(key, n, value);
  }

  /** The digits, `]`, `=` and the value after the opening bracket. */
  lemma MatchIndexOf(key: string, n: string, value: string)
    requires IsDigitString(n) && NoNewline(value)
    ensures MatchIndex(key, n + ("]=" + value)) == Some(Entry(key, Some(n), value))
  {
    var tail := "]=" + value;
    var u := n + tail;
    DigitRunOf(n, tail);
    assert u[..|n|] == n && u[|n| + 2..] == value by {
      assert u[|n|..] == tail;
    }
    assert u[|n|] == ']' && u[|n| + 1] == '=';
  }

  /** Every matched line is the rendering of a well-formed entry: the
      recogniser accepts exactly the rendered lines. */
  lemma RenderMatch(s: string)
    requires MatchEntry(s).Some?
    ensures WellFormed(MatchEntry(s).value)
    ensures Render(MatchEntry(s).value) == s
  {
    var k := LetterRun(s);
    RenderAfterKey(s[..k], s[k..]);
    assert s == s[..k] + s[k..];
  }

  lemma RenderAfterKey(key: string, t: string)
    requires MatchAfterKey(key, t).Some?
    ensures MatchAfterKey(key, t).value.key == key
    ensures MatchAfterKey(key, t).value.index.Some? ==> IsDigitString(MatchAfterKey(key, t).value.index.value)
    ensures NoNewline(MatchAfterKey(key, t).value.value)
    ensures Render(MatchAfterKey(key, t).value) == key + t
  {
    var e := MatchAfterKey(key, t).value;
    if t[0] == '=' {
      assert t == "=" + t[1..];
      assert Render(e) == key + ("=" + t[1..]);
    } else {
      var u := t[1..];
      var d := DigitRun(u);
      assert u == u[..d] + "]=" + u[d + 2..];
      assert t == "[" + u;
      assert Render(e) == key + ("[" + (u[..d] + "]=" + u[d + 2..]));
    }
  }

  /** The input collector's regex accepts exactly the lines the parser reads as
      an `INPUT` entry (key `INPUT` in any ASCII case, with or without an
      index), and both yield the same unstripped value. */
  lemma InputAgreement(s: string)
    ensures MatchInput(s) ==
      match MatchEntry(s)
      case Some(e) => if Upper(e.key) == "INPUT" then Some(e.value) else None
      case None => None
  {
    var k := LetterRun(s);
    if |s| >= 5 && Upper(s[..5]) == "INPUT" {
      assert AllLetters(s[..5]) by {
        forall i | 0 <= i < 5 ensures IsAsciiLetter(s[..5][i]) {
          assert UpperChar(s[..5][i]) == "INPUT"[i];
        }
      }
      if |s| > 5 && !IsAsciiLetter(s[5]) {
        assert s == s[..5] + s[5..];
        MatchEntryAfterKey(s[..5], s[5..]);
      }
    }
  }
}
