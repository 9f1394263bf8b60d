/** `truncate_filename` (tracktagger.py:60-88): shorten a file name whose UTF-8
    encoding exceeds the filesystem's byte budget, cutting the base name at a
    character boundary and keeping the suffix. */
module Filename {
  import opened Wrappers
  import opened Text
  import opened Utf8

  /** The default `max_bytes`. */
  const MaxFilenameBytes: int := 255

  datatype TruncateError = CannotTruncate(filename: string)

  /** A single path component that `Path(name).name` returns unchanged. */
  predicate IsPlainName(name: string) {
    name != "" && name != "." && '/' !in name
  }

  /** The length of `b[:stop]` for a byte string of length `len`: Python's
      slice with a possibly negative stop. */
  function SliceStop(len: nat, stop: int): (n: nat)
    ensures n <= len
  {
    if stop >= 0 then (if stop < len then stop else len)
    else if len + stop > 0 then len + stop else 0
  }

  /** `Path(s)` of a single component: the empty string becomes ".". */
  function AsName(s: string): string {
    if s == "" then "." else s
  }

  /** The split `truncate_filename` works with: base and suffix. */
  function Extension(name: string): string {
    Suffix(name)
  }

  function Base(name: string): (b: string)
    ensures b + Extension(name) == name
  {
    name[..|name| - |Extension(name)|]
  }

  /** The bytes left for the base name once the suffix is paid for. */
  function BaseBudget(name: string, maxBytes: int): int {
    maxBytes - |Encode(Extension(name))|
  }

  /** The byte offset where the encoded base is cut. */
  function Cut(name: string, maxBytes: int): nat {
    SliceStop(|Encode(Base(name))|, BaseBudget(name, maxBytes))
  }

  /** What `truncate_filename(name, maxBytes)` returns or raises, stated
      declaratively: if the encoded base fits, the name is returned as it is;
      otherwise the base becomes its longest prefix whose encoding fits in the
      cut, unless the cut falls inside the first character. */
  function Truncated(name: string, maxBytes: int): Result<string, TruncateError>
    requires IsPlainName(name)
  {
    var base := Base(name);
    if |Encode(base)| <= BaseBudget(name, maxBytes) then Ok(name)
    else
      var cut := Cut(name, maxBytes);
      var j := FitCount(base, cut);
      if j == 0 && !IsBoundary(base, cut) then Err(CannotTruncate(name))
      else Ok(AsName(base[..j] + Extension(name)))
  }

  /** The truncation loop of the source: decode the cut bytes; if that fails,
      drop trailing bytes until a decodable prefix remains, and give up when
      nothing is left. */
  method TruncateFilename(filename: string, maxBytes: int) returns (r: Result<string, TruncateError>)
    requires IsPlainName(filename)
    ensures r == Truncated(filename, maxBytes)
  {
    var extension := Suffix(filename);
    var base := filename[..|filename| - |extension|];
    var maxBaseBytes := maxBytes - |Encode(extension)|;
    var encodedBase := Encode(base);
    assert base == Base(filename) && maxBaseBytes == BaseBudget(filename, maxBytes);
    if |encodedBase| > maxBaseBytes {
      ghost var cut := Cut(filename, maxBytes);
      ghost var j := FitCount(base, cut);
      var truncatedBytes := encodedBase[..SliceStop(|encodedBase|, maxBaseBytes)];
      var truncatedBase: string;
      DecodeEncodedPrefix(base, cut);
      var first := Decode(truncatedBytes);
      if first.Some? {
        truncatedBase := first.value;
        assert IsBoundary(base, cut) && truncatedBase == base[..j];
      } else {
        assert !IsBoundary(base, cut);
        var backedOff := BackOff(base, encodedBase, truncatedBytes);
        if backedOff.None? {
          return Err(CannotTruncate(filename));
        }
        truncatedBase := backedOff.value;
      }
      r := Ok(AsName(truncatedBase + extension));
    } else {
      r := Ok(filename);
    }
  }

  /** The retry loop of the source: drop the last byte until what is left
      decodes, which happens at the last character boundary before the cut;
      `None` when that boundary is the start. */
  method BackOff(ghost s: string, encoded: seq<Byte>, cutBytes: seq<Byte>) returns (r: Option<string>)
    requires encoded == Encode(s) && |cutBytes| <= |encoded| && cutBytes == encoded[..|cutBytes|]
    requires !IsBoundary(s, |cutBytes|)
    ensures r == if FitCount(s, |cutBytes|) == 0 then None else Some(s[..FitCount(s, |cutBytes|)])
  {
    ghost var cut := |cutBytes|;
    ghost var j := FitCount(s, cut);
    ghost var boundary := |Encode(s[..j])|;
    BoundaryCount(s, j);
    var truncatedBytes := cutBytes;
    while |truncatedBytes| > 0
      invariant |truncatedBytes| <= cut && truncatedBytes == encoded[..|truncatedBytes|]
      invariant boundary <= |truncatedBytes|
      decreases |truncatedBytes|
    {
      ghost var k := |truncatedBytes|;
      DecodeEncodedPrefix(s, k);
      var d := Decode(truncatedBytes);
      if d.Some? {
        if boundary < k {
          NoBoundaryBetween(s, cut, k);
        }
        assert k == boundary && FitCount(s, k) == j;
        return d;
      }
      assert k != boundary;
      assert encoded[..k][..k - 1] == encoded[..k - 1];
      truncatedBytes := truncatedBytes[..|truncatedBytes| - 1];
    }
    assert boundary == 0 && j == 0;
    return None;
  }

  /** The boundary after `j` characters is found again by `FitCount`. */
  lemma BoundaryCount(s: string, j: nat)
    requires j <= |s|
    ensures FitCount(s, |Encode(s[..j])|) == j
    ensures IsBoundary(s, |Encode(s[..j])|)
  {
    var j' := FitCount(s, |Encode(s[..j])|);
    if j' < j {
      EncodePrefixStrictlyMonotone(s, j', j);
      if j' < |s| && j' + 1 < j { EncodePrefixStrictlyMonotone(s, j' + 1, j); }
    } else if j < j' {
      EncodePrefixStrictlyMonotone(s, j, j');
    }
  }

  // ---------------------------------------------------------------- properties

  /** A name whose encoded base fits is returned unchanged, and only such a name. */
  lemma TruncatedUnchangedIffFits(name: string, maxBytes: int)
    requires IsPlainName(name)
    requires BaseBudget(name, maxBytes) >= 0
    ensures Truncated(name, maxBytes) == Ok(name) <==> |Encode(Base(name))| <= BaseBudget(name, maxBytes)
  {
    var base := Base(name);
    if |Encode(base)| > BaseBudget(name, maxBytes) {
      var j := FitCount(base, Cut(name, maxBytes));
      assert base[..|base|] == base;
      assert Cut(name, maxBytes) < |Encode(base)|;
      assert |base[..j] + Extension(name)| < |name|;
    }
  }

  /** When the base does not fit a non-negative budget, the new base is the
      longest prefix of the old one whose encoding fits, and the suffix is kept. */
  lemma TruncatedIsLongestFittingPrefix(name: string, maxBytes: int)
    requires IsPlainName(name)
    requires BaseBudget(name, maxBytes) >= 0
    requires |Encode(Base(name))| > BaseBudget(name, maxBytes)
    requires Truncated(name, maxBytes).Ok?
    ensures exists j :: (0 <= j <= |Base(name)| &&
      Truncated(name, maxBytes).value == AsName(Base(name)[..j] + Extension(name)) &&
      |Encode(Base(name)[..j])| <= BaseBudget(name, maxBytes) &&
      (j < |Base(name)| ==> |Encode(Base(name)[..j + 1])| > BaseBudget(name, maxBytes)))
  {
    var j := FitCount(Base(name), Cut(name, maxBytes));
    assert Cut(name, maxBytes) == BaseBudget(name, maxBytes);
  }

  /** Truncation fails exactly when the cut falls inside the first character
      of the base, so that no non-empty decodable prefix remains. */
  lemma TruncatedFailsIffCutInsideFirstCharacter(name: string, maxBytes: int)
    requires IsPlainName(name)
    requires |Encode(Base(name))| > BaseBudget(name, maxBytes)
    ensures Truncated(name, maxBytes).Err? <==>
      (0 < Cut(name, maxBytes) < |EncodeChar(Base(name)[0])|)
  {
    var base := Base(name);
    var cut := Cut(name, maxBytes);
    assert base != [];
    assert Encode(base[..1]) == EncodeChar(base[0]) + Encode([]);
    if 0 < cut < |EncodeChar(base[0])| {
      assert FitCount(base, cut) == 0;
      assert base[..0] == [];
    } else if cut == 0 {
      assert FitCount(base, cut) == 0;
      assert base[..0] == [];
    } else {
      assert FitCount(base, cut) >= 1;
    }
  }

  /** The encoded result never exceeds the byte budget, for a name with a
      suffix and a budget that leaves room for at least one byte of base. */
  lemma TruncatedFits(name: string, maxBytes: int)
    requires IsPlainName(name) && Extension(name) != ""
    requires BaseBudget(name, maxBytes) >= 0
    requires Truncated(name, maxBytes).Ok?
    ensures |Encode(Truncated(name, maxBytes).value)| <= maxBytes
  {
    var base := Base(name);
    var ext := Extension(name);
    if |Encode(base)| <= BaseBudget(name, maxBytes) {
      EncodeAppend(base, ext);
    } else {
      var j := FitCount(base, Cut(name, maxBytes));
      EncodeAppend(base[..j], ext);
    }
  }
}
