/** UTF-8 as defined by section 3 of RFC 3629: the encoding `str.encode('utf-8')`
    produces and the strict decoding `bytes.decode('utf-8')` performs.  The
    facts proved here are the ones file-name truncation depends on: encoding
    distributes over concatenation, decoding inverts encoding, and a prefix of
    an encoding decodes exactly when it ends on a character boundary. */
module Utf8 {
  import opened Wrappers

  type Byte = b: int | 0 <= b < 256

  /** The one to four bytes of one scalar value. */
  function EncodeChar(c: char): (r: seq<Byte>)
    ensures 1 <= |r| <= 4
  {
    var cp := c as int;
    if cp < 0x80 then [cp]
    else if cp < 0x800 then [0xC0 + cp / 64, 0x80 + cp % 64]
    else if cp < 0x10000 then [0xE0 + cp / 4096, 0x80 + (cp / 64) % 64, 0x80 + cp % 64]
    else [0xF0 + cp / 262144, 0x80 + (cp / 4096) % 64, 0x80 + (cp / 64) % 64, 0x80 + cp % 64]
  }

  function Encode(s: string): (r: seq<Byte>)
    ensures |r| >= |s|
  {
    if s == [] then [] else EncodeChar(s[0]) + Encode(s[1..])
  }

  predicate IsContinuation(b: Byte) {
    0x80 <= b < 0xC0
  }

  /** The number of bytes a lead byte announces, or 0 for a byte that cannot
      start a character. */
  function SequenceLength(b: Byte): nat {
    if b < 0x80 then 1
    else if 0xC2 <= b < 0xE0 then 2
    else if 0xE0 <= b < 0xF0 then 3
    else if 0xF0 <= b < 0xF5 then 4
    else 0
  }

  /** Decode the first character of `b`, returning it and the number of bytes
      it used; `None` for a malformed, overlong, surrogate, out-of-range or
      truncated sequence. */
  function DecodeFirst(b: seq<Byte>): (r: Option<(char, nat)>)
    ensures r.Some? ==> 1 <= r.value.1 <= |b|
  {
    if b == [] then None
    else
      var n := SequenceLength(b[0]);
      if n == 0 || |b| < n then None
      else if n == 1 then Some((b[0] as char, 1))
      else if !(forall i :: 1 <= i < n ==> IsContinuation(b[i])) then None
      else
        var cp := CodePoint(b, n);
        var least := if n == 2 then 0x80 else if n == 3 then 0x800 else 0x10000;
        if cp < least || (0xD800 <= cp < 0xE000) || cp >= 0x110000 then None
        else Some((cp as char, n))
  }

  /** The scalar value carried by an `n`-byte sequence: the lead byte's payload
      bits followed by six bits from each continuation byte. */
  function CodePoint(b: seq<Byte>, n: nat): int
    requires 2 <= n <= 4 && n <= |b|
  {
    var lead := b[0] as int - (if n == 2 then 0xC0 else if n == 3 then 0xE0 else 0xF0);
    var c1 := b[1] as int - 0x80;
    if n == 2 then lead * 64 + c1
    else
      var c2 := b[2] as int - 0x80;
      if n == 3 then lead * 4096 + c1 * 64 + c2
      else lead * 262144 + c1 * 4096 + c2 * 64 + (b[3] as int - 0x80)
  }

  /** Strict decoding of a whole byte sequence. */
  function Decode(b: seq<Byte>): Option<string>
    decreases |b|
  {
    if b == [] then Some([])
    else match DecodeFirst(b)
      case None => None
      case Some((c, n)) =>
        match Decode(b[n..])
        case None => None
        case Some(rest) => Some([c] + rest)
  }

  // ---------------------------------------------------------------- encoding lemmas

  lemma {:induction false} EncodeAppend(s: string, t: string)
    ensures Encode(s + t) == Encode(s) + Encode(t)
  {
    if s != [] {
      assert (s + t)[0] == s[0];
      assert (s + t)[1..] == s[1..] + t;
      assert Encode(s + t) == EncodeChar(s[0]) + Encode(s[1..] + t);
      EncodeAppend(s[1..], t);
      assert Encode(s) + Encode(t) == EncodeChar(s[0]) + (Encode(s[1..]) + Encode(t));
    } else {
      assert s + t == t;
    }
  }

  /** An ASCII string encodes to one byte per character. */
  lemma {:induction false} EncodeAscii(s: string)
    requires forall i :: 0 <= i < |s| ==> s[i] as int < 0x80
    ensures |Encode(s)| == |s|
  {
    if s != [] {
      EncodeAscii(s[1..]);
    }
  }

  /** The encoding of a prefix is a prefix of the encoding. */
  lemma EncodePrefix(s: string, j: nat)
    requires j <= |s|
    ensures |Encode(s[..j])| <= |Encode(s)|
    ensures Encode(s)[..|Encode(s[..j])|] == Encode(s[..j])
  {
    assert s == s[..j] + s[j..];
    EncodeAppend(s[..j], s[j..]);
  }

  lemma EncodeSnoc(s: string, j: nat)
    requires j < |s|
    ensures Encode(s[..j + 1]) == Encode(s[..j]) + EncodeChar(s[j])
  {
    assert s[..j + 1] == s[..j] + [s[j]];
    EncodeAppend(s[..j], [s[j]]);
    assert Encode([s[j]]) == EncodeChar(s[j]) + Encode([]);
  }

  /** Longer prefixes have strictly longer encodings. */
  lemma {:induction false} EncodePrefixStrictlyMonotone(s: string, i: nat, j: nat)
    requires i < j <= |s|
    ensures |Encode(s[..i])| < |Encode(s[..j])|
    decreases j
  {
    EncodeSnoc(s, j - 1);
    if i < j - 1 {
      EncodePrefixStrictlyMonotone(s, i, j - 1);
    }
  }

  // ---------------------------------------------------------------- decoding lemmas

  /** A character's encoding, followed by anything, starts with that character. */
  lemma DecodeFirstOfEncodeChar(c: char, rest: seq<Byte>)
    ensures DecodeFirst(EncodeChar(c) + rest) == Some((c, |EncodeChar(c)|))
  {
    var cp := c as int;
    if cp < 0x80 {
    } else if cp < 0x800 {
      DecodeFirstTwoBytes(c, rest);
    } else if cp < 0x10000 {
      DecodeFirstThreeBytes(c, rest);
    } else {
      DecodeFirstFourBytes(c, rest);
    }
  }

  lemma DecodeFirstTwoBytes(c: char, rest: seq<Byte>)
    requires 0x80 <= c as int < 0x800
    ensures DecodeFirst(EncodeChar(c) + rest) == Some((c, 2))
  {
    var cp := c as int;
    var b := EncodeChar(c) + rest;
    assert b[0] == 0xC0 + cp / 64 && b[1] == 0x80 + cp % 64;
    assert CodePoint(b, 2) == cp;
  }

  lemma DecodeFirstThreeBytes(c: char, rest: seq<Byte>)
    requires 0x800 <= c as int < 0x10000
    ensures DecodeFirst(EncodeChar(c) + rest) == Some((c, 3))
  {
    var cp := c as int;
    var b := EncodeChar(c) + rest;
    assert b[0] == 0xE0 + cp / 4096 && b[1] == 0x80 + (cp / 64) % 64 && b[2] == 0x80 + cp % 64;
    assert (cp / 64) % 64 * 64 + cp % 64 == cp % 4096;
    assert CodePoint(b, 3) == cp;
  }

  lemma DecodeFirstFourBytes(c: char, rest: seq<Byte>)
    requires 0x10000 <= c as int
    ensures DecodeFirst(EncodeChar(c) + rest) == Some((c, 4))
  {
    var cp := c as int;
    var b := EncodeChar(c) + rest;
    assert b[0] == 0xF0 + cp / 262144 && b[1] == 0x80 + (cp / 4096) % 64;
    assert b[2] == 0x80 + (cp / 64) % 64 && b[3] == 0x80 + cp % 64;
    FourByteDigits(cp);
    assert CodePoint(b, 4) == cp;
  }

  /** The four base-64 digits of a supplementary code point put back
      together. */
  lemma FourByteDigits(cp: int)
    requires 0x10000 <= cp < 0x110000
    ensures (cp / 262144) * 262144 + ((cp / 4096) % 64) * 4096 + ((cp / 64) % 64) * 64 + cp % 64 == cp
  {
    var q := cp / 64;
    assert cp == q * 64 + cp % 64;
    assert q / 64 == cp / 4096;
    assert q == (cp / 4096) * 64 + q % 64;
    assert (cp / 4096) / 64 == cp / 262144;
    assert cp / 4096 == (cp / 262144) * 64 + (cp / 4096) % 64;
  }

  /** Decoding an encoded character followed by more bytes. */
  lemma DecodeEncodedChar(c: char, tail: seq<Byte>)
    ensures Decode(tail).None? ==> Decode(EncodeChar(c) + tail).None?
    ensures Decode(tail).Some? ==> Decode(EncodeChar(c) + tail) == Some([c] + Decode(tail).value)
  {
    var b := EncodeChar(c) + tail;
    DecodeFirstOfEncodeChar(c, tail);
    assert b[|EncodeChar(c)|..] == tail;
  }

  /** Decoding inverts encoding. */
  lemma {:induction false} DecodeEncode(s: string)
    ensures Decode(Encode(s)) == Some(s)
  {
    if s != [] {
      DecodeEncode(s[1..]);
      DecodeEncodedChar(s[0], Encode(s[1..]));
      assert [s[0]] + s[1..] == s;
    }
  }

  /** The first character of a sequence does not depend on what follows it. */
  lemma DecodeFirstExtended(x: seq<Byte>, y: seq<Byte>)
    requires DecodeFirst(x).Some?
    ensures DecodeFirst(x + y) == DecodeFirst(x)
  {
    var n := DecodeFirst(x).value.1;
    assert (x + y)[0] == x[0];
    assert forall i :: 0 <= i < n ==> (x + y)[i] == x[i];
    if n >= 2 {
      assert CodePoint(x + y, n) == CodePoint(x, n);
    }
  }

  /** One step of decoding: the first character, then the rest. */
  lemma DecodeStep(b: seq<Byte>, c: char, n: nat)
    requires b != [] && DecodeFirst(b) == Some((c, n))
    ensures Decode(b) == if Decode(b[n..]).Some? then Some([c] + Decode(b[n..]).value) else None
  {
  }

  /** Decoding a well-formed sequence followed by more bytes. */
  lemma {:induction false} DecodeConcat(x: seq<Byte>, y: seq<Byte>)
    requires Decode(x).Some?
    ensures Decode(y).None? ==> Decode(x + y).None?
    ensures Decode(y).Some? ==> Decode(x + y) == Some(Decode(x).value + Decode(y).value)
    decreases |x|
  {
    if x == [] {
      assert x + y == y;
      assert Decode(y).Some? ==> Decode(x).value + Decode(y).value == Decode(y).value;
    } else {
      var c := DecodeFirst(x).value.0;
      var n := DecodeFirst(x).value.1;
      var z := x[n..] + y;
      assert Decode(x + y) == if Decode(z).Some? then Some([c] + Decode(z).value) else None by {
        DecodeFirstExtended(x, y);
        assert (x + y)[n..] == z;
        DecodeStep(x + y, c, n);
      }
      assert Decode(x) == Some([c] + Decode(x[n..]).value) by {
        DecodeStep(x, c, n);
      }
      DecodeConcat(x[n..], y);
      if Decode(y).Some? {
        var u, v := Decode(x[n..]).value, Decode(y).value;
        assert [c] + (u + v) == ([c] + u) + v;
      }
    }
  }

  /** Decoding sees through an encoded prefix: it succeeds on `Encode(p) + rest`
      exactly when it succeeds on `rest`, and then yields `p` in front. */
  lemma DecodeAfterEncoded(p: string, rest: seq<Byte>)
    ensures Decode(rest).None? ==> Decode(Encode(p) + rest).None?
    ensures Decode(rest).Some? ==> Decode(Encode(p) + rest) == Some(p + Decode(rest).value)
  {
    DecodeEncode(p);
    DecodeConcat(Encode(p), rest);
  }

  /** A proper, non-empty prefix of one character's encoding is a truncated sequence. */
  lemma DecodeCutCharacter(c: char, m: nat)
    requires 0 < m < |EncodeChar(c)|
    ensures Decode(EncodeChar(c)[..m]) == None
  {
    var b := EncodeChar(c)[..m];
    assert b[0] == EncodeChar(c)[0];
    assert SequenceLength(b[0]) == |EncodeChar(c)|;
  }

  // ---------------------------------------------------------------- character boundaries

  /** How many leading characters of `s` fit, encoded, in `budget` bytes. */
  function FitCount(s: string, budget: int): (j: nat)
    ensures j <= |s|
    ensures |Encode(s[..j])| <= budget || (j == 0 && budget < 0)
    ensures j < |s| ==> |Encode(s[..j + 1])| > budget
  {
    if s == [] || |EncodeChar(s[0])| > budget then
      assert s[..0] == [] && (s != [] ==> Encode(s[..1]) == EncodeChar(s[0]) + Encode([]));
      0
    else
      var k := FitCount(s[1..], budget - |EncodeChar(s[0])|);
      assert s[..k + 1] == [s[0]] + s[1..][..k];
      assert k < |s| - 1 ==> s[..k + 2] == [s[0]] + s[1..][..k + 1];
      k + 1
  }

  /** `k` bytes into the encoding of `s` is a character boundary. */
  predicate IsBoundary(s: string, k: int) {
    |Encode(s[..FitCount(s, k)])| == k
  }

  /** The bytes up to a cut inside character `s[j]`: the encoding of the
      characters before it and part of that character's own bytes. */
  lemma EncodedPrefixInsideCharacter(s: string, j: nat, k: nat)
    requires j < |s| && |Encode(s[..j])| < k < |Encode(s[..j + 1])|
    ensures |Encode(s[..j + 1])| == |Encode(s[..j])| + |EncodeChar(s[j])|
    ensures k <= |Encode(s)|
    ensures Encode(s)[..k] == Encode(s[..j]) + EncodeChar(s[j])[..k - |Encode(s[..j])|]
  {
    EncodeSnoc(s, j);
    EncodePrefix(s, j + 1);
    var e := Encode(s);
    var head := Encode(s[..j]);
    var c := EncodeChar(s[j]);
    assert e[..|head| + |c|] == head + c;
    assert e[..k] == (head + c)[..k];
  }

  /** A prefix of an encoding decodes exactly when it ends on a character
      boundary, and then to the characters that fit. */
  lemma DecodeEncodedPrefix(s: string, k: nat)
    requires k <= |Encode(s)|
    ensures Decode(Encode(s)[..k]) ==
      if IsBoundary(s, k) then Some(s[..FitCount(s, k)]) else None
  {
    var j := FitCount(s, k);
    EncodePrefix(s, j);
    var head := Encode(s[..j]);
    if IsBoundary(s, k) {
      assert Encode(s)[..k] == head + [];
      DecodeAfterEncoded(s[..j], []);
      assert s[..j] + [] == s[..j];
    } else {
      assert s[..|s|] == s;
      EncodedPrefixInsideCharacter(s, j, k);
      var m := k - |head|;
      EncodeSnoc(s, j);
      DecodeCutCharacter(s[j], m);
      DecodeAfterEncoded(s[..j], EncodeChar(s[j])[..m]);
    }
  }

  /** Between the boundary at `FitCount(s, k)` and the budget `k` there is no
      other boundary. */
  lemma NoBoundaryBetween(s: string, k: int, k': int)
    requires |Encode(s[..FitCount(s, k)])| < k' <= k
    ensures !IsBoundary(s, k')
  {
    var j := FitCount(s, k);
    var j' := FitCount(s, k');
    if j' < j {
      EncodePrefixStrictlyMonotone(s, j', j);
    } else if j < j' {
      if j + 1 < j' {
        EncodePrefixStrictlyMonotone(s, j + 1, j');
      }
    }
  }
}
