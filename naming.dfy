/** `track_id_to_string` (tracktagger.py:262-272) and `gen_output_path`
    (tracktagger.py:344-360): how a track is named on screen and on disk. */
module Naming {
  import opened Wrappers
  import opened Text
  import opened Fs
  import opened Utf8
  import opened Meta
  import opened Filename

  const UnknownAlbumName: string := "UnknownAlbum"

  // ---------------------------------------------------------------- track_id_to_string

  /** Whether an album is shown: Python truthiness, so neither `None` nor "". */
  predicate AlbumShown(album: Option<string>) {
    album.Some? && album.value != ""
  }

  /** Whether a disc is shown: neither `None` nor 0. */
  predicate DiscShown(disc: Option<nat>) {
    disc.Some? && disc.value != 0
  }

  /** `"album":#disc.num`, the album and disc parts omitted when not shown,
      the numbers zero-padded to the given widths. */
  function TrackIdToString(album: Option<string>, disc: Option<nat>, num: nat, discPadding: nat, trackPadding: nat)
    : string
  {
    IdHead(album) + (DiscPart(disc, discPadding) + ZeroPad(num, trackPadding))
  }

  /** The shown album part of an id and the `#`. */
  function IdHead(album: Option<string>): string {
    (if AlbumShown(album) then "\"" + album.value + "\":" else "") + "#"
  }

  /** Album `None` and album "" print alike, and so do disc `None` and disc 0. */
  lemma TrackIdFalsyParts(album: Option<string>, disc: Option<nat>, num: nat, discPadding: nat, trackPadding: nat)
    ensures TrackIdToString(None, disc, num, discPadding, trackPadding) ==
            TrackIdToString(Some(""), disc, num, discPadding, trackPadding)
    ensures TrackIdToString(album, None, num, discPadding, trackPadding) ==
            TrackIdToString(album, Some(0), num, discPadding, trackPadding)
  {
  }

  /** Within one album and at fixed widths, the id determines the track number
      and the shown disc: the disc digits end at the only `.` after `#`. */
  lemma TrackIdInjective(album: Option<string>, disc1: Option<nat>, num1: nat, disc2: Option<nat>, num2: nat,
                         discPadding: nat, trackPadding: nat)
    requires TrackIdToString(album, disc1, num1, discPadding, trackPadding) ==
             TrackIdToString(album, disc2, num2, discPadding, trackPadding)
    ensures num1 == num2
    ensures DiscShown(disc1) <==> DiscShown(disc2)
    ensures DiscShown(disc1) ==> disc1 == disc2
  {
    var head := IdHead(album);
    var t1 := DiscPart(disc1, discPadding) + ZeroPad(num1, trackPadding);
    var t2 := DiscPart(disc2, discPadding) + ZeroPad(num2, trackPadding);
    assert t1 == (head + t1)[|head|..];
    assert t2 == (head + t2)[|head|..];
    DiscPartsAgree(disc1, num1, disc2, num2, discPadding, trackPadding, t1);
  }

  /** The shown disc part of an id, `disc.` or nothing. */
  function DiscPart(disc: Option<nat>, discPadding: nat): string {
    if DiscShown(disc) then ZeroPad(disc.value, discPadding) + "." else ""
  }

  lemma DiscPartsAgree(disc1: Option<nat>, num1: nat, disc2: Option<nat>, num2: nat,
                       discPadding: nat, trackPadding: nat, t: string)
    requires t == DiscPart(disc1, discPadding) + ZeroPad(num1, trackPadding)
    requires t == DiscPart(disc2, discPadding) + ZeroPad(num2, trackPadding)
    ensures num1 == num2
    ensures DiscShown(disc1) <==> DiscShown(disc2)
    ensures DiscShown(disc1) ==> disc1 == disc2
  {
    NoDot(ZeroPad(num1, trackPadding));
    NoDot(ZeroPad(num2, trackPadding));
    if DiscShown(disc1) {
      NoDot(ZeroPad(disc1.value, discPadding));
      assert '.' in t by {
        assert t[|ZeroPad(disc1.value, discPadding)|] == '.';
      }
    }
    if DiscShown(disc2) {
      NoDot(ZeroPad(disc2.value, discPadding));
      assert '.' in t by {
        assert t[|ZeroPad(disc2.value, discPadding)|] == '.';
      }
    }
    assert DiscShown(disc1) <==> DiscShown(disc2);
    if DiscShown(disc1) {
      var d1 := ZeroPad(disc1.value, discPadding);
      var d2 := ZeroPad(disc2.value, discPadding);
      FirstDot(d1, ZeroPad(num1, trackPadding), t);
      FirstDot(d2, ZeroPad(num2, trackPadding), t);
      assert |d1| == |d2|;
      assert d1 == t[..|d1|] == d2;
      ZeroPadInjective(disc1.value, disc2.value, discPadding);
      assert ZeroPad(num1, trackPadding) == t[|d1| + 1..] == ZeroPad(num2, trackPadding);
      ZeroPadInjective(num1, num2, trackPadding);
    } else {
      assert t == ZeroPad(num1, trackPadding) && t == ZeroPad(num2, trackPadding);
      ZeroPadInjective(num1, num2, trackPadding);
    }
  }

  lemma NoDot(digits: string)
    requires IsDigitString(digits)
    ensures '.' !in digits
  {
  }

  /** In `digits + "." + rest` the dot after the digits is the first one. */
  lemma FirstDot(digits: string, rest: string, t: string)
    requires IsDigitString(digits) && t == digits + "." + rest
    ensures forall i :: 0 <= i < |digits| ==> t[i] != '.'
    ensures t[|digits|] == '.'
  {
  }

  // ---------------------------------------------------------------- gen_output_path

  /** The exceptions `gen_output_path` can raise: `KeyError` for a missing tag,
      `TypeError`/`AttributeError` for a tag that is not a string where one is
      needed, and `ValueError` from `truncate_filename`. */
  datatype OutputPathError =
    | MissingTag(key: string)
    | NotAString(key: string)
    | NameTooLong(name: string)

  /** The album directory: `UnknownAlbum` for `None`, otherwise the album with
      every `/` replaced by `_`. */
  function AlbumDir(tags: Tags): Result<string, OutputPathError> {
    if "ALBUM" !in tags then Err(MissingTag("ALBUM"))
    else match tags["ALBUM"]
      case Null => Ok(UnknownAlbumName)
      case Str(s) => Ok(ReplaceChar(s, '/', '_'))
      case _ => Err(NotAString("ALBUM"))
  }

  /** The optional `. ARTIST - TITLE`, `. TITLE` or `. ARTIST` part. */
  function TitlePart(tags: Tags): Result<string, OutputPathError> {
    if "TITLE" in tags && "ARTIST" in tags then
      if !tags["ARTIST"].Str? then Err(NotAString("ARTIST"))
      else if !tags["TITLE"].Str? then Err(NotAString("TITLE"))
      else Ok(". " + tags["ARTIST"].s + " - " + tags["TITLE"].s)
    else if "TITLE" in tags then
      if tags["TITLE"].Str? then Ok(". " + tags["TITLE"].s) else Err(NotAString("TITLE"))
    else if "ARTIST" in tags then
      if tags["ARTIST"].Str? then Ok(". " + tags["ARTIST"].s) else Err(NotAString("ARTIST"))
    else Ok("")
  }

  /** The file name before `/` is replaced and `.flac` appended. */
  function FileStem(tags: Tags, discPadding: nat, trackPadding: nat): Result<string, OutputPathError> {
    if "DISCNUMBER" !in tags then Err(MissingTag("DISCNUMBER"))
    else
      var discStr := if tags["DISCNUMBER"].Null? then "" else Zfill(ToStr(tags["DISCNUMBER"]), discPadding) + ".";
      if "TRACKNUMBER" !in tags then Err(MissingTag("TRACKNUMBER"))
      else
        var trackStr := Zfill(ToStr(tags["TRACKNUMBER"]), trackPadding);
        match TitlePart(tags)
        case Err(e) => Err(e)
        case Ok(title) => Ok(discStr + trackStr + title)
  }

  /** The file name handed to `truncate_filename`. */
  function FlacName(stem: string): (r: string)
    ensures IsPlainName(r)
  {
    var r := ReplaceChar(stem, '/', '_') + ".flac";
    assert r[|r| - 1] == 'c';
    r
  }

  /** `gen_output_path`: `out_dir / album_dir / name`. */
  function GenOutputPath(tags: Tags, outDir: Path, discPadding: nat, trackPadding: nat): Result<Path, OutputPathError> {
    match AlbumDir(tags)
    case Err(e) => Err(e)
    case Ok(albumDir) =>
      match FileStem(tags, discPadding, trackPadding)
      case Err(e) => Err(e)
      case Ok(stem) =>
        match Truncated(FlacName(stem), MaxFilenameBytes)
        case Err(_) => Err(NameTooLong(FlacName(stem)))
        case Ok(name) => Ok(Join(Join(outDir, albumDir), name))
  }

  // ---------------------------------------------------------------- properties

  /** The album directory is a single component without `/`, as long as the
      album, and it is `UnknownAlbum` exactly for album `None` or an album
      literally named so. */
  lemma AlbumDirShape(tags: Tags)
    requires AlbumDir(tags).Ok?
    ensures '/' !in AlbumDir(tags).value
    ensures AlbumDir(tags).value == UnknownAlbumName <==>
      tags["ALBUM"] == Null || tags["ALBUM"] == Str(UnknownAlbumName)
    ensures tags["ALBUM"].Str? ==> |AlbumDir(tags).value| == |tags["ALBUM"].s|
  {
    if tags["ALBUM"].Str? {
      var s := tags["ALBUM"].s;
      var d := ReplaceChar(s, '/', '_');
      UnknownAlbumPlain();
      if d == UnknownAlbumName {
        ReplaceNothing(s, '/', '_');
      }
      if s == UnknownAlbumName {
        ReplaceAbsent(s, '/', '_');
      }
      forall i | 0 <= i < |d| ensures d[i] != '/' { }
    }
  }

  /** The name `UnknownAlbum` has neither `/` nor `_`. */
  lemma UnknownAlbumPlain()
    ensures '/' !in UnknownAlbumName && '_' !in UnknownAlbumName
  {
    forall i | 0 <= i < |UnknownAlbumName|
      ensures UnknownAlbumName[i] != '/' && UnknownAlbumName[i] != '_'
    {
    }
  }

  /** `str(n).zfill(width)` is the zero padding of `n`. */
  lemma ZfillNumber(n: nat, width: nat)
    ensures Zfill(ToStr(Int(n)), width) == ZeroPad(n, width)
  {
  }

  /** The file name is the zero-padded disc number and a dot when
      `DISCNUMBER` is set (even to 0), then the zero-padded track number, then
      the title part; both numbers read back from their digits. */
  lemma StemNumbers(tags: Tags, discPadding: nat, trackPadding: nat)
    requires FileStem(tags, discPadding, trackPadding).Ok?
    requires tags["DISCNUMBER"].Int? || tags["DISCNUMBER"].Null?
    requires tags["TRACKNUMBER"].Int?
    ensures FileStem(tags, discPadding, trackPadding).value ==
      (if tags["DISCNUMBER"].Int? then ZeroPad(tags["DISCNUMBER"].n, discPadding) + "." else "") +
      ZeroPad(tags["TRACKNUMBER"].n, trackPadding) + TitlePart(tags).value
  {
    ZfillNumber(tags["TRACKNUMBER"].n, trackPadding);
    if tags["DISCNUMBER"].Int? {
      ZfillNumber(tags["DISCNUMBER"].n, discPadding);
    }
  }

  /** The title part is empty or starts with `. `. */
  lemma TitlePartShape(tags: Tags)
    requires TitlePart(tags).Ok?
    ensures var t := TitlePart(tags).value;
      t == "" <==> !("TITLE" in tags || "ARTIST" in tags)
    ensures var t := TitlePart(tags).value;
      t != "" ==> |t| >= 2 && t[..2] == ". "
  {
  }

  /** `.flac` is five bytes. */
  lemma FlacBytes()
    ensures |Encode(".flac")| == 5
  {
    EncodeAscii(".flac");
  }

  /** For a non-empty stem, `stem.flac` splits into the stem and `.flac`, and
      250 bytes are left for the stem. */
  lemma FlacParts(stem: string)
    requires stem != "" && '/' !in stem
    ensures IsPlainName(stem + ".flac")
    ensures Extension(stem + ".flac") == ".flac"
    ensures Base(stem + ".flac") == stem
    ensures BaseBudget(stem + ".flac", MaxFilenameBytes) == 250
  {
    var full := stem + ".flac";
    SuffixOfStemAndExtension(stem, ".flac");
    assert Base(full) == full[..|stem|];
    FlacBytes();
  }

  /** Truncating `stem.flac` (with no `/` in the stem) always succeeds, keeps
      the suffix, adds no `/` and fits the byte budget; a name that already fits
      is kept as it is. */
  lemma {:induction false} FlacNameTruncates(stem: string)
    requires '/' !in stem
    ensures IsPlainName(stem + ".flac")
    ensures Truncated(stem + ".flac", MaxFilenameBytes).Ok?
    ensures var name := Truncated(stem + ".flac", MaxFilenameBytes).value;
      '/' !in name && |name| >= 5 && name[|name| - 5..] == ".flac" &&
      |Encode(name)| <= MaxFilenameBytes
    ensures |Encode(stem + ".flac")| <= MaxFilenameBytes ==>
      Truncated(stem + ".flac", MaxFilenameBytes).value == stem + ".flac"
  {
    var full := stem + ".flac";
    if stem == "" {
      assert full == ".flac";
      assert Suffix(full) == "";
      FlacBytes();
    } else {
      FlacParts(stem);
      EncodeAppend(stem, ".flac");
      if |Encode(stem)| > 250 {
        var kept := StemTruncated(stem);
        assert (kept + ".flac")[|kept| + 5 - 5..] == ".flac";
      }
    }
  }

  /** A stem whose encoding exceeds 250 bytes is cut to a non-empty prefix. */
  lemma StemTruncated(stem: string) returns (kept: string)
    requires stem != "" && '/' !in stem && |Encode(stem)| > 250
    ensures Truncated(stem + ".flac", MaxFilenameBytes) == Ok(kept + ".flac")
    ensures '/' !in kept && |Encode(kept + ".flac")| <= MaxFilenameBytes
  {
    var full := stem + ".flac";
    FlacParts(stem);
    TruncatedFailsIffCutInsideFirstCharacter(full, MaxFilenameBytes);
    TruncatedFits(full, MaxFilenameBytes);
    var j := FitCount(stem, Cut(full, MaxFilenameBytes));
    kept := stem[..j];
    assert '/' !in kept by {
      forall i | 0 <= i < |kept| ensures kept[i] != '/' {
        assert kept[i] == stem[i];
      }
    }
  }

  /** `gen_output_path` yields the output directory, then the album directory
      (when it is a real component), then a single `.flac` name without `/`
      that fits in 255 bytes, the untruncated name whenever that fits. */
  lemma OutputPathShape(tags: Tags, outDir: Path, discPadding: nat, trackPadding: nat) returns (name: string)
    requires GenOutputPath(tags, outDir, discPadding, trackPadding).Ok?
    ensures GenOutputPath(tags, outDir, discPadding, trackPadding).value == Join(outDir, AlbumDir(tags).value) + [name]
    ensures '/' !in name && |name| >= 5 && name[|name| - 5..] == ".flac"
    ensures |Encode(name)| <= MaxFilenameBytes
    ensures |Encode(FlacName(FileStem(tags, discPadding, trackPadding).value))| <= MaxFilenameBytes ==>
      name == FlacName(FileStem(tags, discPadding, trackPadding).value)
  {
    var stem := ReplaceChar(FileStem(tags, discPadding, trackPadding).value, '/', '_');
    assert '/' !in stem by {
      forall i | 0 <= i < |stem| ensures stem[i] != '/' { }
    }
    FlacNameTruncates(stem);
    name := Truncated(stem + ".flac", MaxFilenameBytes).value;
  }

  /** `gen_output_path` fails only for a missing or non-string tag: with 250
      bytes left for the stem, truncation always succeeds. */
  lemma OutputPathErrors(tags: Tags, outDir: Path, discPadding: nat, trackPadding: nat)
    ensures GenOutputPath(tags, outDir, discPadding, trackPadding).Err? <==>
      AlbumDir(tags).Err? || FileStem(tags, discPadding, trackPadding).Err?
    ensures GenOutputPath(tags, outDir, discPadding, trackPadding).Err? ==>
      !GenOutputPath(tags, outDir, discPadding, trackPadding).error.NameTooLong?
  {
    if AlbumDir(tags).Ok? && FileStem(tags, discPadding, trackPadding).Ok? {
      var stem := ReplaceChar(FileStem(tags, discPadding, trackPadding).value, '/', '_');
      assert '/' !in stem by {
        forall i | 0 <= i < |stem| ensures stem[i] != '/' { }
      }
      FlacNameTruncates(stem);
    }
  }
}
