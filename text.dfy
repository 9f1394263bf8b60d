/** The handful of Python `str` operations the tool relies on: whitespace
    stripping, ASCII case mapping, decimal conversion, `zfill`, character
    replacement and `pathlib`'s notion of a file-name suffix. */
module Text {

  // ---------------------------------------------------------------- characters

  /** `str.isspace` for one character: the characters CPython treats as
      whitespace in `strip`, `rstrip` and `split`. */
  predicate IsSpace(c: char) {
    ('\t' <= c <= '\r') || ('\U{1c}' <= c <= '\U{1f}') || c == ' ' ||
    c == '\U{85}' || c == '\U{a0}' || c == '\U{1680}' || ('\U{2000}' <= c <= '\U{200a}') ||
    c == '\U{2028}' || c == '\U{2029}' || c == '\U{202f}' || c == '\U{205f}' || c == '\U{3000}'
  }

  predicate IsAsciiLetter(c: char) {
    ('a' <= c <= 'z') || ('A' <= c <= 'Z')
  }

  predicate IsAsciiDigit(c: char) {
    '0' <= c <= '9'
  }

  predicate AllDigits(s: string) {
    forall i :: 0 <= i < |s| ==> IsAsciiDigit(s[i])
  }

  /** The source's `str.isdigit()` restricted to ASCII: non-empty and all digits. */
  predicate IsDigitString(s: string) {
    |s| > 0 && AllDigits(s)
  }

  function UpperChar(c: char): char {
    if 'a' <= c <= 'z' then (c as int - 32) as char else c
  }

  function LowerChar(c: char): char {
    if 'A' <= c <= 'Z' then (c as int + 32) as char else c
  }

  function Upper(s: string): (r: string)
    ensures |r| == |s| && forall i :: 0 <= i < |s| ==> r[i] == UpperChar(s[i])
  {
    if s == [] then [] else [UpperChar(s[0])] + Upper(s[1..])
  }

  function Lower(s: string): (r: string)
    ensures |r| == |s|
  {
    if s == [] then [] else [LowerChar(s[0])] + Lower(s[1..])
  }

  /** `str.lower()` maps each character on its own. */
  lemma {:induction false} LowerChars(s: string)
    ensures forall i :: 0 <= i < |s| ==> Lower(s)[i] == LowerChar(s[i])
  {
    if s != [] {
      LowerChars(s[1..]);
      assert Lower(s) == [LowerChar(s[0])] + Lower(s[1..]);
    }
  }

  /** Two strings that are equal up to ASCII case. */
  predicate EqualIgnoringAsciiCase(a: string, b: string) {
    Lower(a) == Lower(b)
  }

  // ---------------------------------------------------------------- stripping

  /** `str.rstrip()`: the longest prefix that does not end in whitespace. */
  function RStrip(s: string): (r: string)
    ensures |r| <= |s| && r == s[..|r|]
    ensures r == [] || !IsSpace(r[|r| - 1])
    ensures forall i :: |r| <= i < |s| ==> IsSpace(s[i])
  {
    if s != [] && IsSpace(s[|s| - 1]) then RStrip(s[..|s| - 1]) else s
  }

  /** `str.lstrip()`: the longest suffix that does not start with whitespace. */
  function LStrip(s: string): (r: string)
    ensures |r| <= |s| && r == s[|s| - |r|..]
    ensures r == [] || !IsSpace(r[0])
    ensures forall i :: 0 <= i < |s| - |r| ==> IsSpace(s[i])
  {
    if s != [] && IsSpace(s[0]) then LStrip(s[1..]) else s
  }

  /** `str.strip()`. */
  function Strip(s: string): string {
    LStrip(RStrip(s))
  }

  /** A string that neither starts nor ends with whitespace is its own `strip()`. */
  lemma StripUnchanged(s: string)
    requires s == [] || (!IsSpace(s[0]) && !IsSpace(s[|s| - 1]))
    ensures Strip(s) == s
  {
  }

  // ---------------------------------------------------------------- decimal numbers

  /** `int(s)` for a string of ASCII digits (leading zeros allowed). */
  function DigitsValue(s: string): nat
    requires AllDigits(s)
  {
    if s == [] then 0 else DigitsValue(s[..|s| - 1]) * 10 + (s[|s| - 1] as int - '0' as int)
  }

  function DigitChar(d: nat): (c: char)
    requires d < 10
    ensures IsAsciiDigit(c) && c as int - '0' as int == d
  {
    ('0' as int + d) as char
  }

  /** `str(n)` for a non-negative integer: its decimal digits, without leading zeros. */
  function NatToDecimal(n: nat): (r: string)
    ensures IsDigitString(r)
    ensures r[0] == '0' ==> r == "0"
    ensures DigitsValue(r) == n
  {
    if n < 10 then [DigitChar(n)]
    else
      var p := NatToDecimal(n / 10);
      var r := p + [DigitChar(n % 10)];
      assert r[..|r| - 1] == p;
      r
  }

  function Pow10(k: nat): (r: nat)
    ensures r >= 1
  {
    if k == 0 then 1 else 10 * Pow10(k - 1)
  }

  /** The number of decimal digits of `n` (so 1 for `0`). */
  function NumDigits(n: nat): nat {
    |NatToDecimal(n)|
  }

  /** A positive `n` has `NumDigits(n)` digits exactly when it lies in
      `[10^(k-1), 10^k)`: the integer form of `floor(log10(n)) + 1`. */
  lemma {:induction false} NumDigitsBounds(n: nat)
    requires n >= 1
    ensures NumDigits(n) >= 1
    ensures Pow10(NumDigits(n) - 1) <= n < Pow10(NumDigits(n))
    decreases n
  {
    if n >= 10 {
      NumDigitsBounds(n / 10);
      assert NumDigits(n) == NumDigits(n / 10) + 1;
    }
  }

  /** Conversely, the bounds determine the digit count. */
  lemma {:induction false} NumDigitsFromBounds(n: nat, k: nat)
    requires k >= 1 && Pow10(k - 1) <= n < Pow10(k)
    ensures NumDigits(n) == k
    decreases k
  {
    if k > 1 {
      NumDigitsFromBounds(n / 10, k - 1);
      assert NumDigits(n) == NumDigits(n / 10) + 1;
    }
  }

  /** The largest k-digit number has k digits. */
  lemma NumDigitsOfPow10Minus1(k: nat)
    requires k >= 1
    ensures NumDigits(Pow10(k) - 1) == k
  {
    NumDigitsFromBounds(Pow10(k) - 1, k);
  }

  /** Digit counts grow with the number. */
  lemma NumDigitsMonotone(m: nat, n: nat)
    requires 1 <= m <= n
    ensures NumDigits(m) <= NumDigits(n)
  {
    NumDigitsBounds(m);
    NumDigitsBounds(n);
    if NumDigits(m) > NumDigits(n) {
      PowMonotone(NumDigits(n), NumDigits(m) - 1);
    }
  }

  lemma {:induction false} PowMonotone(i: nat, j: nat)
    requires i <= j
    ensures Pow10(i) <= Pow10(j)
    decreases j
  {
    if i < j { PowMonotone(i, j - 1); }
  }

  function Zeros(k: nat): (r: string)
    ensures |r| == k && forall i :: 0 <= i < k ==> r[i] == '0'
  {
    if k == 0 then [] else Zeros(k - 1) + "0"
  }

  /** Leading zeros do not change the value of a digit string (`int("007") == 7`). */
  lemma {:induction false} DigitsValueLeadingZeros(k: nat, s: string)
    requires AllDigits(s)
    ensures AllDigits(Zeros(k) + s) && DigitsValue(Zeros(k) + s) == DigitsValue(s)
    decreases |s|, k
  {
    var z := Zeros(k) + s;
    if s == [] {
      assert z == Zeros(k);
      if k > 0 {
        assert z[..|z| - 1] == Zeros(k - 1) + [];
        DigitsValueLeadingZeros(k - 1, []);
      }
    } else {
      assert z[..|z| - 1] == Zeros(k) + s[..|s| - 1];
      DigitsValueLeadingZeros(k, s[..|s| - 1]);
    }
  }

  /** `str.zfill(width)`: pad with zeros on the left to `width`, keeping a
      leading sign in front of the padding. */
  function Zfill(s: string, width: int): (r: string)
    ensures |s| >= width ==> r == s
    ensures |s| < width ==> |r| == width
  {
    if |s| >= width then s
    else
      var fill := width - |s|;
      if |s| > 0 && (s[0] == '+' || s[0] == '-') then [s[0]] + Zeros(fill) + s[1..]
      else Zeros(fill) + s
  }

  /** `f"{n:0{width}d}"` and `str(n).zfill(width)` for a non-negative `n`. */
  function ZeroPad(n: nat, width: int): (r: string)
    ensures |r| == if NumDigits(n) >= width then NumDigits(n) else width
    ensures IsDigitString(r) && DigitsValue(r) == n
  {
    var d := NatToDecimal(n);
    if |d| < width then
      DigitsValueLeadingZeros(width - |d|, d);
      Zfill(d, width)
    else
      Zfill(d, width)
  }

  /** Zero padding is undone by reading the digits back: distinct numbers stay
      distinct at any common width. */
  lemma ZeroPadInjective(m: nat, n: nat, width: int)
    requires ZeroPad(m, width) == ZeroPad(n, width)
    ensures m == n
  {
  }

  // ---------------------------------------------------------------- replacing and suffixes

  /** `s.replace(c, d)` for single characters. */
  function ReplaceChar(s: string, c: char, d: char): (r: string)
    ensures |r| == |s|
    ensures forall i :: 0 <= i < |s| ==> r[i] == if s[i] == c then d else s[i]
  {
    if s == [] then [] else [if s[0] == c then d else s[0]] + ReplaceChar(s[1..], c, d)
  }

  /** A replacement that leaves no replacing character behind had nothing to
      replace. */
  lemma ReplaceNothing(s: string, c: char, d: char)
    requires c != d && d !in ReplaceChar(s, c, d)
    ensures c !in s && ReplaceChar(s, c, d) == s
  {
    var r := ReplaceChar(s, c, d);
    forall i | 0 <= i < |s|
      ensures s[i] != c && r[i] == s[i]
    {
      assert r[i] in r;
    }
  }

  /** Replacing a character that does not occur changes nothing. */
  lemma ReplaceAbsent(s: string, c: char, d: char)
    requires c !in s
    ensures ReplaceChar(s, c, d) == s
  {
    var r := ReplaceChar(s, c, d);
    forall i | 0 <= i < |s|
      ensures r[i] == s[i]
    {
      assert s[i] in s;
    }
  }

  /** `s.rfind(c)`: the last index of `c`, or -1. */
  function RFind(s: string, c: char): (i: int)
    ensures -1 <= i < |s|
    ensures i >= 0 ==> s[i] == c
  {
    LastIndexBefore(s, c, |s|)
  }

  /** The last index of `c` below `n`, or -1. */
  function LastIndexBefore(s: string, c: char, n: nat): (i: int)
    requires n <= |s|
    ensures -1 <= i < n
    ensures i >= 0 ==> s[i] == c
  {
    if n == 0 then -1
    else if s[n - 1] == c then n - 1
    else LastIndexBefore(s, c, n - 1)
  }

  /** No occurrence of `c` follows the one `RFind` reports. */
  lemma RFindIsLast(s: string, c: char)
    ensures forall j :: RFind(s, c) < j < |s| ==> s[j] != c
  {
    LastIndexBeforeIsLast(s, c, |s|);
  }

  lemma {:induction false} LastIndexBeforeIsLast(s: string, c: char, n: nat)
    requires n <= |s|
    ensures forall j :: LastIndexBefore(s, c, n) < j < n ==> s[j] != c
  {
    if n > 0 && s[n - 1] != c {
      LastIndexBeforeIsLast(s, c, n - 1);
    }
  }

  /** `PurePath.suffix` of a final path component (Python 3.12): from the
      last dot on, provided that dot is neither the first nor the last
      character; otherwise empty. */
  function Suffix(name: string): (r: string)
    ensures r == [] || (r[0] == '.' && |r| >= 2 && |r| < |name| && r == name[|name| - |r|..])
  {
    var i := RFind(name, '.');
    if 0 < i < |name| - 1 then name[i..] else []
  }

  /** A non-empty suffix holds no dot after its first character. */
  lemma SuffixHasOneDot(name: string)
    requires Suffix(name) != []
    ensures forall j :: |name| - |Suffix(name)| < j < |name| ==> name[j] != '.'
  {
    RFindIsLast(name, '.');
  }

  /** A name built as a non-empty stem plus an extension without further dots
      has that extension as its suffix. */
  lemma SuffixOfStemAndExtension(stem: string, ext: string)
    requires |stem| > 0 && |ext| >= 2 && ext[0] == '.'
    requires forall j :: 0 < j < |ext| ==> ext[j] != '.'
    ensures Suffix(stem + ext) == ext
  {
    var name := stem + ext;
    assert name[|stem|] == '.';
    RFindIsLast(name, '.');
    var i := RFind(name, '.');
    assert i == |stem|;
    assert name[i..] == ext;
  }
}
