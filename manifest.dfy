/** `parse_trackinfo_meta` (tracktagger.py:173-245): the manifest interpreter.

    Each line is either blank, a global line `KEY=value` that updates the
    running global scope, or a track line `KEY[n]=value` that updates the
    record of track `n`, filed under an album and a disc.  A record is created
    the first time a line names it, as a copy of the global scope at that
    moment plus its `TRACKNUMBER`. */
module Manifest {
  import opened Wrappers
  import opened Text
  import opened Fs
  import opened Lines
  import opened Meta
  import opened Archives

  /** The exceptions the interpreter raises: `ValueError` for a line that does
      not match and for a disc number that is not all digits, `KeyError` for a
      global `ALBUM` or `DISCNUMBER` deleted earlier and for an input the
      input map does not know. */
  datatype ParseError =
    | InvalidLine(line: string)
    | BadDiscNumber(value: string)
    | MissingGlobal(key: string)
    | UnknownInput(path: Path)

  /** `global_meta` and `track_meta`. */
  datatype State = State(global: Tags, tracks: Info)

  /** The keys the interpreter does not warn about; any other key is stored
      all the same. */
  const StandardKeys: seq<string> := ["INPUT", "TITLE", "ARTIST", "LYRICIST", "COMPOSER", "ARRANGER",
                                      "ALBUM", "DISCNUMBER", "GENRE", "DATE", "LABEL", "COMMENT", "COVER"]

  const InitialGlobal: Tags := map["ALBUM" := Null, "DISCNUMBER" := Null]

  ghost predicate Typed(st: State) {
    TypedGlobal(st.global) && TypedInfo(st.tracks)
  }

  /** Where a track line is filed: the album and disc the key selects. */
  function Placement(global: Tags, key: string, value: string): (r: Result<(Option<string>, Option<nat>), ParseError>)
    requires TypedGlobal(global)
    ensures r.Err? <==>
      (key != "ALBUM" && "ALBUM" !in global) ||
      (key != "DISCNUMBER" && "DISCNUMBER" !in global) ||
      (key == "DISCNUMBER" && !IsDigitString(value))
    ensures r.Err? ==> r.error.MissingGlobal? || r.error.BadDiscNumber?
    ensures r.Ok? && key == "ALBUM" ==> r.value.0 == Some(value)
    ensures r.Ok? && key == "DISCNUMBER" ==> r.value.1 == Some(DigitsValue(value))
    ensures r.Ok? && key != "ALBUM" ==> r.value.0 == AlbumKey(global["ALBUM"])
    ensures r.Ok? && key != "DISCNUMBER" ==> r.value.1 == DiscKey(global["DISCNUMBER"])
  {
    if key == "ALBUM" then
      if "DISCNUMBER" !in global then Err(MissingGlobal("DISCNUMBER"))
      else Ok((Some(value), DiscKey(global["DISCNUMBER"])))
    else if key == "DISCNUMBER" then
      if "ALBUM" !in global then Err(MissingGlobal("ALBUM"))
      else if !IsDigitString(value) then Err(BadDiscNumber(value))
      else Ok((AlbumKey(global["ALBUM"]), Some(DigitsValue(value))))
    else if "ALBUM" !in global then Err(MissingGlobal("ALBUM"))
    else if "DISCNUMBER" !in global then Err(MissingGlobal("DISCNUMBER"))
    else Ok((AlbumKey(global["ALBUM"]), DiscKey(global["DISCNUMBER"])))
  }

  /** The record a track line works on: the one already filed there, or a new
      copy of the global scope with the track's number. */
  function Record(info: Info, global: Tags, album: Option<string>, disc: Option<nat>, num: nat): Tags {
    if Has(info, album, disc, num) then Get(info, album, disc, num)
    else global["TRACKNUMBER" := Int(num)]
  }

  /** Setting `key` to the stripped `value` in the tag map `dst`. */
  function Assign(fs: FileSystem, manifest: Path, inputMap: map<Path, Path>, dst: Tags, key: string, value: string)
    : (r: Result<Tags, ParseError>)
    requires TypedPaths(dst)
    ensures r.Ok? ==> TypedPaths(r.value)
    ensures r.Ok? && TypedGlobal(dst) ==> TypedGlobal(r.value)
    ensures r.Err? ==> r.error.BadDiscNumber? || r.error.UnknownInput?
  {
    if value == "" && key in dst then Ok(dst - {key})
    else if key == "INPUT" then
      var p := Resolve(fs, Parent(manifest), value);
      if p in inputMap then Ok(dst["INPUT" := PathVal(inputMap[p])]) else Err(UnknownInput(p))
    else if key == "COVER" then
      if IsAbsolute(value) then Ok(dst["COVER" := PathVal(ParsePath(value))])
      else if "INPUT" in dst then Ok(dst["COVER" := PathVal(Resolve(fs, dst["INPUT"].p, value))])
      else Ok(dst["COVER" := PathVal(Resolve(fs, Parent(manifest), value))])
    else if key == "DISCNUMBER" then
      if IsDigitString(value) then Ok(dst["DISCNUMBER" := Int(DigitsValue(value))])
      else Err(BadDiscNumber(value))
    else Ok(dst[key := Str(value)])
  }

  /** A track line `key[index]=value`, with `key` upper-cased and `value`
      stripped. */
  function TrackStep(fs: FileSystem, manifest: Path, inputMap: map<Path, Path>, st: State,
                     key: string, index: string, value: string): (r: Result<State, ParseError>)
    requires Typed(st) && AllDigits(index)
    ensures r.Ok? ==> Typed(r.value)
    ensures r.Ok? ==> r.value.global == st.global
    ensures r.Err? ==> !r.error.InvalidLine?
  {
    match Placement(st.global, key, value)
    case Err(e) => Err(e)
    case Ok((album, disc)) =>
      var num := DigitsValue(index);
      var record := Record(st.tracks, st.global, album, disc, num);
      assert TypedPaths(record) by {
        if !Has(st.tracks, album, disc, num) {
          assert "INPUT" in record ==> record["INPUT"] == st.global["INPUT"];
          assert "COVER" in record ==> record["COVER"] == st.global["COVER"];
        }
      }
      match Assign(fs, manifest, inputMap, record, key, value)
      case Err(e) => Err(e)
      case Ok(record') =>
        StoreTyped(st.tracks, album, disc, num, record');
        Ok(State(st.global, Store(st.tracks, album, disc, num, record')))
  }

  /** A global line `key=value`, with `key` upper-cased and `value` stripped. */
  function GlobalStep(fs: FileSystem, manifest: Path, inputMap: map<Path, Path>, st: State,
                      key: string, value: string): (r: Result<State, ParseError>)
    requires Typed(st)
    ensures r.Ok? ==> Typed(r.value)
    ensures r.Ok? ==> r.value.tracks == st.tracks
    ensures r.Err? ==> !r.error.InvalidLine?
  {
    match Assign(fs, manifest, inputMap, st.global, key, value)
    case Err(e) => Err(e)
    case Ok(global') => Ok(State(global', st.tracks))
  }

  /** One line of the manifest. */
  function Step(fs: FileSystem, manifest: Path, inputMap: map<Path, Path>, st: State, line: string)
    : (r: Result<State, ParseError>)
    requires Typed(st)
    ensures r.Ok? ==> Typed(r.value)
  {
    var l := RStrip(line);
    if l == [] then Ok(st)
    else
      match MatchEntry(l)
      case None => Err(InvalidLine(l))
      case Some(e) =>
        RenderMatch(l);
        var key := Upper(e.key);
        var value := Strip(e.value);
        if e.index.Some? then TrackStep(fs, manifest, inputMap, st, key, e.index.value, value)
        else GlobalStep(fs, manifest, inputMap, st, key, value)
  }

  /** The state after the lines, or the first error they raise. */
  function Run(fs: FileSystem, manifest: Path, inputMap: map<Path, Path>, lines: seq<string>)
    : (r: Result<State, ParseError>)
    ensures r.Ok? ==> Typed(r.value)
  {
    if lines == [] then Ok(State(InitialGlobal, map[]))
    else
      match Run(fs, manifest, inputMap, lines[..|lines| - 1])
      case Err(e) => Err(e)
      case Ok(st) => Step(fs, manifest, inputMap, st, lines[|lines| - 1])
  }

  /** What `parse_trackinfo_meta` returns or raises. */
  function Parse(fs: FileSystem, manifest: Path, inputMap: map<Path, Path>, lines: seq<string>)
    : Result<Info, ParseError>
  {
    match Run(fs, manifest, inputMap, lines)
    case Err(e) => Err(e)
    case Ok(st) => Ok(st.tracks)
  }

  // ---------------------------------------------------------------- the interpreter loop

  /** The key-value part of the loop body: delete, or set by key. */
  method SetKeyValue(fs: FileSystem, manifest: Path, inputMap: map<Path, Path>, dst: Tags, key: string, value: string)
    returns (r: Result<Tags, ParseError>)
    requires TypedPaths(dst)
    ensures r == Assign(fs, manifest, inputMap, dst, key, value)
  {
    if |value| == 0 && key in dst {
      return Ok(dst - {key});
    }
    var d := dst;
    if key == "INPUT" {
      var p := Resolve(fs, Parent(manifest), value);
      if p !in inputMap {
        return Err(UnknownInput(p));
      }
      d := d["INPUT" := PathVal(inputMap[p])];
    } else if key == "COVER" {
      if IsAbsolute(value) {
        d := d["COVER" := PathVal(ParsePath(value))];
      } else if "INPUT" in d {
        d := d["COVER" := PathVal(Resolve(fs, d["INPUT"].p, value))];
      } else {
        d := d["COVER" := PathVal(Resolve(fs, Parent(manifest), value))];
      }
    } else if key == "DISCNUMBER" {
      if !IsDigitString(value) {
        return Err(BadDiscNumber(value));
      }
      d := d["DISCNUMBER" := Int(DigitsValue(value))];
    } else {
      d := d[key := Str(value)];
    }
    return Ok(d);
  }

  /** The loop body for one raw line: skip it, reject it, or update the
      global scope or one track record. */
  method ApplyLine(fs: FileSystem, manifest: Path, inputMap: map<Path, Path>,
                   globalMeta: Tags, trackMeta: Info, rawLine: string)
    returns (r: Result<State, ParseError>)
    requires Typed(State(globalMeta, trackMeta))
    ensures r == Step(fs, manifest, inputMap, State(globalMeta, trackMeta), rawLine)
  {
    var line := RStrip(rawLine);
    if |line| == 0 {
      return Ok(State(globalMeta, trackMeta));
    }
    var m := MatchEntry(line);
    if m.None? {
      return Err(InvalidLine(line));
    }
    RenderMatch(line);
    var key := Upper(m.value.key);
    var value := Strip(m.value.value);
    if m.value.index.Some? {
      var trackNum := DigitsValue(m.value.index.value);
      var album: Option<string>;
      var disc: Option<nat>;
      if key == "ALBUM" {
        album := Some(value);
        if "DISCNUMBER" !in globalMeta {
          return Err(MissingGlobal("DISCNUMBER"));
        }
        disc := DiscKey(globalMeta["DISCNUMBER"]);
      } else if key == "DISCNUMBER" {
        if "ALBUM" !in globalMeta {
          return Err(MissingGlobal("ALBUM"));
        }
        album := AlbumKey(globalMeta["ALBUM"]);
        if !IsDigitString(value) {
          return Err(BadDiscNumber(value));
        }
        disc := Some(DigitsValue(value));
      } else {
        if "ALBUM" !in globalMeta {
          return Err(MissingGlobal("ALBUM"));
        }
        album := AlbumKey(globalMeta["ALBUM"]);
        if "DISCNUMBER" !in globalMeta {
          return Err(MissingGlobal("DISCNUMBER"));
        }
        disc := DiscKey(globalMeta["DISCNUMBER"]);
      }
      assert Placement(globalMeta, key, value) == Ok((album, disc));
      // setdefault: the record is filed before its key is set
      var record := if Has(trackMeta, album, disc, trackNum) then Get(trackMeta, album, disc, trackNum)
                    else globalMeta["TRACKNUMBER" := Int(trackNum)];
      assert TypedPaths(record) by {
        if !Has(trackMeta, album, disc, trackNum) {
          assert "INPUT" in record ==> record["INPUT"] == globalMeta["INPUT"];
          assert "COVER" in record ==> record["COVER"] == globalMeta["COVER"];
        }
      }
      var tracks := Store(trackMeta, album, disc, trackNum, record);
      var updated := SetKeyValue(fs, manifest, inputMap, record, key, value);
      if updated.Err? {
        return Err(updated.error);
      }
      StoreTwice(trackMeta, album, disc, trackNum, record, updated.value);
      return Ok(State(globalMeta, Store(tracks, album, disc, trackNum, updated.value)));
    } else {
      var updated := SetKeyValue(fs, manifest, inputMap, globalMeta, key, value);
      if updated.Err? {
        return Err(updated.error);
      }
      return Ok(State(updated.value, trackMeta));
    }
  }

  /** One more line extends the run by one step. */
  lemma RunPrefix(fs: FileSystem, manifest: Path, inputMap: map<Path, Path>, lines: seq<string>, i: nat)
    requires i < |lines|
    ensures Run(fs, manifest, inputMap, lines[..i]).Err? ==>
      Run(fs, manifest, inputMap, lines[..i + 1]) == Run(fs, manifest, inputMap, lines[..i])
    ensures Run(fs, manifest, inputMap, lines[..i]).Ok? ==>
      Run(fs, manifest, inputMap, lines[..i + 1]) ==
      Step(fs, manifest, inputMap, Run(fs, manifest, inputMap, lines[..i]).value, lines[i])
  {
    assert lines[..i + 1][..i] == lines[..i];
  }

  /** The loop body: one more line run from the state reached so far. */
  method RunLine(fs: FileSystem, manifest: Path, inputMap: map<Path, Path>, lines: seq<string>, i: nat,
                 globalMeta: Tags, trackMeta: Info)
    returns (next: Result<State, ParseError>)
    requires i < |lines| && Run(fs, manifest, inputMap, lines[..i]) == Ok(State(globalMeta, trackMeta))
    ensures next == Run(fs, manifest, inputMap, lines[..i + 1])
  {
    next := ApplyLine(fs, manifest, inputMap, globalMeta, trackMeta, lines[i]);
    RunPrefix(fs, manifest, inputMap, lines, i);
  }

  /** An error raised by a prefix of the lines is what the whole parse
      raises. */
  lemma ParseFails(fs: FileSystem, manifest: Path, inputMap: map<Path, Path>, lines: seq<string>, k: nat)
    requires k <= |lines| && Run(fs, manifest, inputMap, lines[..k]).Err?
    ensures Parse(fs, manifest, inputMap, lines) == Err(Run(fs, manifest, inputMap, lines[..k]).error)
  {
    RunErrorSticks(fs, manifest, inputMap, lines, k);
  }

  /** The first error ends the run: later lines are never read. */
  lemma {:induction false} RunErrorSticks(fs: FileSystem, manifest: Path, inputMap: map<Path, Path>, lines: seq<string>, k: nat)
    requires k <= |lines| && Run(fs, manifest, inputMap, lines[..k]).Err?
    ensures Run(fs, manifest, inputMap, lines) == Run(fs, manifest, inputMap, lines[..k])
    decreases |lines|
  {
    if k == |lines| {
      assert lines[..k] == lines;
    } else {
      var init := lines[..|lines| - 1];
      assert init[..k] == lines[..k];
      RunErrorSticks(fs, manifest, inputMap, init, k);
    }
  }

  /** `parse_trackinfo_meta`: run the lines in order from the initial global
      scope, stopping at the first error. */
  method ParseTrackinfoMeta(fs: FileSystem, manifest: Path, lines: seq<string>, inputMap: map<Path, Path>)
    returns (r: Result<Info, ParseError>)
    ensures r == Parse(fs, manifest, inputMap, lines)
  {
    var trackMeta: Info := map[];
    var globalMeta: Tags := InitialGlobal;
    var i := 0;
    while i < |lines|
      invariant i <= |lines|
      invariant Run(fs, manifest, inputMap, lines[..i]) == Ok(State(globalMeta, trackMeta))
    {
      var next := RunLine(fs, manifest, inputMap, lines, i, globalMeta, trackMeta);
      if next.Err? {
        ParseFails(fs, manifest, inputMap, lines, i + 1);
        return Err(next.error);
      }
      globalMeta, trackMeta := next.value.global, next.value.tracks;
      i := i + 1;
    }
    assert lines[..i] == lines;
    return Ok(trackMeta);
  }

  // ---------------------------------------------------------------- properties of one line

  /** A blank line (after stripping the right end) is skipped; any other line
      is rejected with `ValueError` exactly when the line regex does not
      match it. */
  lemma LineShape(fs: FileSystem, manifest: Path, inputMap: map<Path, Path>, st: State, line: string)
    requires Typed(st)
    ensures RStrip(line) == [] ==> Step(fs, manifest, inputMap, st, line) == Ok(st)
    ensures RStrip(line) != [] ==>
      (Step(fs, manifest, inputMap, st, line) == Err(InvalidLine(RStrip(line))) <==> MatchEntry(RStrip(line)).None?)
  {
    var l := RStrip(line);
    if l != [] && MatchEntry(l).Some? {
      RenderMatch(l);
    }
  }

  /** A matched line acts through its upper-cased key and its stripped value,
      on a track when it carries an index and on the global scope otherwise. */
  lemma MatchedLine(fs: FileSystem, manifest: Path, inputMap: map<Path, Path>, st: State, line: string, e: Entry)
    requires Typed(st)
    requires MatchEntry(RStrip(line)) == Some(e)
    ensures e.index.Some? ==> AllDigits(e.index.value)
    ensures e.index.Some? ==>
      Step(fs, manifest, inputMap, st, line) ==
        TrackStep(fs, manifest, inputMap, st, Upper(e.key), e.index.value, Strip(e.value))
    ensures e.index.None? ==>
      Step(fs, manifest, inputMap, st, line) ==
        GlobalStep(fs, manifest, inputMap, st, Upper(e.key), Strip(e.value))
  {
    RenderMatch(RStrip(line));
  }

  /** A global line with an ordinary key, standard or not, stores the value;
      an empty value deletes the key instead when it is present. */
  lemma OrdinaryGlobalLine(fs: FileSystem, manifest: Path, inputMap: map<Path, Path>, st: State, key: string, value: string)
    requires Typed(st)
    requires key != "INPUT" && key != "COVER" && key != "DISCNUMBER"
    ensures GlobalStep(fs, manifest, inputMap, st, key, value) ==
      Ok(State(if value == "" && key in st.global then st.global - {key} else st.global[key := Str(value)],
               st.tracks))
  {
  }

  /** A global line with an empty value deletes a key the global scope holds,
      whatever the key, and touches nothing else. */
  lemma GlobalEmptyValueDeletes(fs: FileSystem, manifest: Path, inputMap: map<Path, Path>, st: State, key: string)
    requires Typed(st) && key in st.global
    ensures GlobalStep(fs, manifest, inputMap, st, key, "") == Ok(State(st.global - {key}, st.tracks))
  {
  }

  /** A global `DISCNUMBER` line stores the number when the value is all
      digits, deletes the key when the value is empty and the key present, and
      is rejected otherwise. */
  lemma GlobalDiscNumber(fs: FileSystem, manifest: Path, inputMap: map<Path, Path>, st: State, value: string)
    requires Typed(st)
    ensures IsDigitString(value) ==>
      GlobalStep(fs, manifest, inputMap, st, "DISCNUMBER", value) ==
        Ok(State(st.global["DISCNUMBER" := Int(DigitsValue(value))], st.tracks))
    ensures GlobalStep(fs, manifest, inputMap, st, "DISCNUMBER", value) == Err(BadDiscNumber(value)) <==>
      !IsDigitString(value) && !(value == "" && "DISCNUMBER" in st.global)
  {
  }

  /** A track line is filed where `Placement` says, on the record already
      there or on a fresh copy of the global scope with its `TRACKNUMBER`;
      nothing else in the table changes (see `Meta.StoreFrame`). */
  lemma TrackLineFiled(fs: FileSystem, manifest: Path, inputMap: map<Path, Path>, st: State,
                       key: string, index: string, value: string)
    requires Typed(st) && AllDigits(index)
    requires TrackStep(fs, manifest, inputMap, st, key, index, value).Ok?
    ensures Placement(st.global, key, value).Ok?
    ensures
      var (album, disc) := Placement(st.global, key, value).value;
      var num := DigitsValue(index);
      var record := Record(st.tracks, st.global, album, disc, num);
      TypedPaths(record) &&
      Assign(fs, manifest, inputMap, record, key, value).Ok? &&
      TrackStep(fs, manifest, inputMap, st, key, index, value).value.tracks ==
        Store(st.tracks, album, disc, num, Assign(fs, manifest, inputMap, record, key, value).value)
  {
    var (album, disc) := Placement(st.global, key, value).value;
    var num := DigitsValue(index);
    var record := Record(st.tracks, st.global, album, disc, num);
    if !Has(st.tracks, album, disc, num) {
      assert "INPUT" in record ==> record["INPUT"] == st.global["INPUT"];
    }
  }

  /** A new record starts as the global scope at that moment with the track's
      number; an existing record is worked on in place. */
  lemma RecordStart(info: Info, global: Tags, album: Option<string>, disc: Option<nat>, num: nat)
    ensures !Has(info, album, disc, num) ==>
      Record(info, global, album, disc, num).Keys == global.Keys + {"TRACKNUMBER"} &&
      Record(info, global, album, disc, num)["TRACKNUMBER"] == Int(num) &&
      forall k :: k in global && k != "TRACKNUMBER" ==> Record(info, global, album, disc, num)[k] == global[k]
    ensures Has(info, album, disc, num) ==> Record(info, global, album, disc, num) == Get(info, album, disc, num)
  {
  }

  /** A track line with an ordinary key and an empty value still creates its
      record: the record is filed before the empty value is looked at.  The
      key is then removed from the record when present, and stored as the
      empty string when absent. */
  lemma EmptyTrackLineCreatesRecord(fs: FileSystem, manifest: Path, inputMap: map<Path, Path>, st: State,
                                    key: string, index: string)
    requires Typed(st) && AllDigits(index)
    requires key != "INPUT" && key != "COVER" && key != "DISCNUMBER"
    requires "ALBUM" in st.global && "DISCNUMBER" in st.global
    ensures TrackStep(fs, manifest, inputMap, st, key, index, "").Ok?
    ensures
      var (album, disc) := Placement(st.global, key, "").value;
      Has(TrackStep(fs, manifest, inputMap, st, key, index, "").value.tracks, album, disc, DigitsValue(index))
    ensures
      var (album, disc) := Placement(st.global, key, "").value;
      var num := DigitsValue(index);
      var record := Record(st.tracks, st.global, album, disc, num);
      Get(TrackStep(fs, manifest, inputMap, st, key, index, "").value.tracks, album, disc, num) ==
        if key in record then record - {key} else record[key := Str("")]
  {
    var (album, disc) := Placement(st.global, key, "").value;
    var num := DigitsValue(index);
    var record := Record(st.tracks, st.global, album, disc, num);
    if !Has(st.tracks, album, disc, num) {
      assert "INPUT" in record ==> record["INPUT"] == st.global["INPUT"];
    }
    var record' := Assign(fs, manifest, inputMap, record, key, "").value;
    StoreFrame(st.tracks, album, disc, num, record', album, disc, num);
  }

  /** Once `ALBUM` or `DISCNUMBER` is gone from the global scope, every track
      line that has to read it fails with `KeyError`, `ALBUM` being read
      first. */
  lemma MissingGlobalFails(fs: FileSystem, manifest: Path, inputMap: map<Path, Path>, st: State,
                           key: string, index: string, value: string)
    requires Typed(st) && AllDigits(index)
    ensures key != "ALBUM" && "ALBUM" !in st.global ==>
      TrackStep(fs, manifest, inputMap, st, key, index, value) == Err(MissingGlobal("ALBUM"))
    ensures (key != "DISCNUMBER" && "DISCNUMBER" !in st.global && (key == "ALBUM" || "ALBUM" in st.global)) ==>
      TrackStep(fs, manifest, inputMap, st, key, index, value) == Err(MissingGlobal("DISCNUMBER"))
  {
  }

  /** A track `DISCNUMBER` line files its record under that disc and stores
      the number, and is rejected exactly when its value is not all digits,
      the empty value included. */
  lemma TrackDiscNumber(fs: FileSystem, manifest: Path, inputMap: map<Path, Path>, st: State, index: string, value: string)
    requires Typed(st) && AllDigits(index)
    requires "ALBUM" in st.global
    ensures TrackStep(fs, manifest, inputMap, st, "DISCNUMBER", index, value) == Err(BadDiscNumber(value)) <==>
      !IsDigitString(value)
    ensures IsDigitString(value) ==>
      var album := AlbumKey(st.global["ALBUM"]);
      var disc := Some(DigitsValue(value));
      var num := DigitsValue(index);
      var r := TrackStep(fs, manifest, inputMap, st, "DISCNUMBER", index, value);
      r.Ok? && Has(r.value.tracks, album, disc, num) &&
      Get(r.value.tracks, album, disc, num)["DISCNUMBER"] == Int(DigitsValue(value))
  {
    if IsDigitString(value) {
      var album := AlbumKey(st.global["ALBUM"]);
      var disc := Some(DigitsValue(value));
      var num := DigitsValue(index);
      var record := Record(st.tracks, st.global, album, disc, num);
      if !Has(st.tracks, album, disc, num) {
        assert "INPUT" in record ==> record["INPUT"] == st.global["INPUT"];
      }
      var record' := Assign(fs, manifest, inputMap, record, "DISCNUMBER", value).value;
      assert record' == record["DISCNUMBER" := Int(DigitsValue(value))];
      StoreFrame(st.tracks, album, disc, num, record', album, disc, num);
    }
  }

  // ---------------------------------------------------------------- properties of a run

  /** No line removes a record: once filed, a track stays in the table. */
  lemma StepKeepsRecords(fs: FileSystem, manifest: Path, inputMap: map<Path, Path>, st: State, line: string,
                         album: Option<string>, disc: Option<nat>, num: nat)
    requires Typed(st) && Has(st.tracks, album, disc, num)
    requires Step(fs, manifest, inputMap, st, line).Ok?
    ensures Has(Step(fs, manifest, inputMap, st, line).value.tracks, album, disc, num)
  {
    var l := RStrip(line);
    if l != [] {
      var e := MatchEntry(l).value;
      MatchedLine(fs, manifest, inputMap, st, line, e);
      if e.index.Some? {
        var key, value := Upper(e.key), Strip(e.value);
        TrackLineFiled(fs, manifest, inputMap, st, key, e.index.value, value);
        var (a, d) := Placement(st.global, key, value).value;
        var n := DigitsValue(e.index.value);
        var record' := Assign(fs, manifest, inputMap, Record(st.tracks, st.global, a, d, n), key, value).value;
        StoreFrame(st.tracks, a, d, n, record', album, disc, num);
      }
    }
  }

  /** Every track filed after some lines is still filed after all of them,
      if the manifest is accepted. */
  lemma {:induction false} RecordsPersist(fs: FileSystem, manifest: Path, inputMap: map<Path, Path>, lines: seq<string>, k: nat,
                                          album: Option<string>, disc: Option<nat>, num: nat)
    requires k <= |lines|
    requires Run(fs, manifest, inputMap, lines[..k]).Ok? && Has(Run(fs, manifest, inputMap, lines[..k]).value.tracks, album, disc, num)
    requires Run(fs, manifest, inputMap, lines).Ok?
    ensures Has(Run(fs, manifest, inputMap, lines).value.tracks, album, disc, num)
    decreases |lines|
  {
    if k == |lines| {
      assert lines[..k] == lines;
    } else {
      var init := lines[..|lines| - 1];
      assert init[..k] == lines[..k];
      RecordsPersist(fs, manifest, inputMap, init, k, album, disc, num);
      StepKeepsRecords(fs, manifest, inputMap, Run(fs, manifest, inputMap, init).value, lines[|lines| - 1], album, disc, num);
    }
  }

  // ---------------------------------------------------------------- agreement with the input collector

  /** The parser looks up an `INPUT` value, stripped, among the inputs the
      collector gathered from the same lines, unstripped.  When the value does
      not start with whitespace, the two agree: the path looked up is one the
      collector gathered, so `ResolveTrackinfoInputs` has an entry for it. */
  lemma InputLookupCollected(fs: FileSystem, manifest: Path, lines: seq<string>, i: nat, e: Entry)
    requires i < |lines|
    requires MatchEntry(RStrip(lines[i])) == Some(e) && Upper(e.key) == "INPUT"
    requires e.value == [] || !IsSpace(e.value[0])
    ensures Resolve(fs, Parent(manifest), Strip(e.value)) in InputPaths(fs, manifest, lines)
  {
    var l := RStrip(lines[i]);
    InputAgreement(l);
    RenderMatch(l);
    if e.value != [] {
      assert l[|l| - 1] == e.value[|e.value| - 1];
    }
    StripUnchanged(e.value);
    assert LineInput(fs, manifest, lines[i]) == Some(Resolve(fs, Parent(manifest), e.value));
    InputPathsNamed(fs, manifest, lines, Resolve(fs, Parent(manifest), e.value));
  }
}
