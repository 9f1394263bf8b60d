/** `map_tracks` (tracktagger.py:274-291): for every track of the table, the
    file of its input directory that holds it.

    A file holds track `num` when its name fully matches the pattern of
    tracktagger.py:58 — anything, a run of digits, anything, then `.flac` in
    any letter case — and the first run of digits reads as `num`.  The first
    such name in the directory's listing wins. */
module Tracks {
  import opened Wrappers
  import opened Text
  import opened Fs
  import opened Meta
  import opened Naming

  // ---------------------------------------------------------------- the file-name pattern

  /** `.flac` at the end, in any letter case. */
  predicate EndsWithFlac(name: string) {
    |name| >= 5 && Lower(name[|name| - 5..]) == ".flac"
  }

  /** The index of the first digit of `s`, or `|s|` when there is none. */
  function FirstDigit(s: string): (i: nat)
    ensures i <= |s|
    ensures i < |s| ==> IsAsciiDigit(s[i])
    ensures forall j :: 0 <= j < i ==> !IsAsciiDigit(s[j])
  {
    if s == [] then 0
    else if IsAsciiDigit(s[0]) then 0
    else 1 + FirstDigit(s[1..])
  }

  /** The end of the longest run of digits starting at `i`. */
  function RunEnd(s: string, i: nat): (e: nat)
    requires i <= |s|
    ensures i <= e <= |s|
    ensures forall j :: i <= j < e ==> IsAsciiDigit(s[j])
    ensures e < |s| ==> !IsAsciiDigit(s[e])
    decreases |s| - i
  {
    if i < |s| && IsAsciiDigit(s[i]) then RunEnd(s, i + 1) else i
  }

  /** The track number a file name announces, or `None` when the name does
      not match.  `.` does not match a line feed, so a name holding one never
      matches; the lazy `.*?` makes the group the first run of digits, and
      the greedy `[0-9]+` makes it the whole run. */
  function TrackNumberOf(name: string): Option<nat> {
    if '\n' in name || !EndsWithFlac(name) then None
    else
      var body := name[..|name| - 5];
      var i := FirstDigit(body);
      if i == |body| then None
      else Some(DigitsValue(body[i..RunEnd(body, i)]))
  }

  /** A name matches exactly when it has no line feed, ends in `.flac` and
      has a digit before that suffix. */
  lemma TrackNumberNone(name: string)
    ensures TrackNumberOf(name).None? <==>
      '\n' in name || !EndsWithFlac(name) || forall j :: 0 <= j < |name| - 5 ==> !IsAsciiDigit(name[j])
  {
    if '\n' !in name && EndsWithFlac(name) {
      var body := name[..|name| - 5];
      var i := FirstDigit(body);
      if i < |body| {
        assert IsAsciiDigit(name[i]);
      } else {
        forall j | 0 <= j < |name| - 5 ensures !IsAsciiDigit(name[j]) {
          assert name[j] == body[j];
        }
      }
    }
  }

  /** The number read is that of the first run of digits, taken whole: any
      description of that run gives the same number. */
  lemma TrackNumberOfRun(name: string, i: nat, e: nat)
    requires '\n' !in name && EndsWithFlac(name)
    requires i < e <= |name| - 5
    requires forall j :: 0 <= j < i ==> !IsAsciiDigit(name[j])
    requires forall j :: i <= j < e ==> IsAsciiDigit(name[j])
    requires !IsAsciiDigit(name[e])
    ensures TrackNumberOf(name) == Some(DigitsValue(name[i..e]))
  {
    var body := name[..|name| - 5];
    assert forall j :: 0 <= j < |body| ==> body[j] == name[j];
    var k := FirstDigit(body);
    assert IsAsciiDigit(body[i]);
    assert k < |body| ==> body[k] == name[k];
    assert k == i;
    var f := RunEnd(body, i);
    assert f < |body| ==> body[f] == name[f];
    assert e < |body| ==> body[e] == name[e];
    assert f == e;
    assert body[i..f] == name[i..e];
  }

  // ---------------------------------------------------------------- choosing a file

  /** The errors of `map_tracks`: `KeyError` for a track without `INPUT`, and
      `FileNotFoundError` naming the track by its unpadded id. */
  datatype TrackError = MissingInput | TrackFileNotFound(id: string)

  /** The position of the first name announcing track `num`, or `|names|`. */
  function FirstTrackIndex(names: seq<string>, num: nat): (i: nat)
    ensures i <= |names|
    ensures i < |names| ==> TrackNumberOf(names[i]) == Some(num)
    ensures forall j :: 0 <= j < i ==> TrackNumberOf(names[j]) != Some(num)
  {
    if names == [] then 0
    else if TrackNumberOf(names[0]) == Some(num) then 0
    else 1 + FirstTrackIndex(names[1..], num)
  }

  /** What `map_tracks` records for one track, or the error it raises there. */
  function TrackFile(fs: FileSystem, album: Option<string>, disc: Option<nat>, num: nat, tags: Tags)
    : Result<string, TrackError>
    requires TypedPaths(tags)
  {
    if "INPUT" !in tags then Err(MissingInput)
    else
      var names := fs.listDir(tags["INPUT"].p);
      var i := FirstTrackIndex(names, num);
      if i < |names| then Ok(names[i])
      else Err(TrackFileNotFound(TrackIdToString(album, disc, num, 0, 0)))
  }

  /** A track gets the first listed name of its input directory that
      announces its number; it fails only when it has no input or no listed
      name announces its number, and the error names it by its unpadded id. */
  lemma TrackFileChosen(fs: FileSystem, album: Option<string>, disc: Option<nat>, num: nat, tags: Tags)
    requires TypedPaths(tags)
    ensures TrackFile(fs, album, disc, num, tags).Ok? <==>
      "INPUT" in tags &&
      exists i :: 0 <= i < |fs.listDir(tags["INPUT"].p)| && TrackNumberOf(fs.listDir(tags["INPUT"].p)[i]) == Some(num)
    ensures TrackFile(fs, album, disc, num, tags).Ok? ==>
      exists i :: 0 <= i < |fs.listDir(tags["INPUT"].p)| &&
        fs.listDir(tags["INPUT"].p)[i] == TrackFile(fs, album, disc, num, tags).value &&
        TrackNumberOf(fs.listDir(tags["INPUT"].p)[i]) == Some(num) &&
        forall j :: 0 <= j < i ==> TrackNumberOf(fs.listDir(tags["INPUT"].p)[j]) != Some(num)
    ensures TrackFile(fs, album, disc, num, tags).Err? && "INPUT" in tags ==>
      TrackFile(fs, album, disc, num, tags).error == TrackFileNotFound(TrackIdToString(album, disc, num, 0, 0))
  {
    if "INPUT" in tags {
      var names := fs.listDir(tags["INPUT"].p);
      var i := FirstTrackIndex(names, num);
      if i < |names| {
        assert names[i] == TrackFile(fs, album, disc, num, tags).value;
      }
    }
  }

  /** The `for ... else` over a directory listing. */
  method FindTrackFile(names: seq<string>, num: nat) returns (r: Option<string>)
    ensures r.Some? <==> FirstTrackIndex(names, num) < |names|
    ensures r.Some? ==> r.value == names[FirstTrackIndex(names, num)]
  {
    var i := 0;
    while i < |names|
      invariant i <= |names|
      invariant forall j :: 0 <= j < i ==> TrackNumberOf(names[j]) != Some(num)
    {
      var m := TrackNumberOf(names[i]);
      if m.Some? && m.value == num {
        return Some(names[i]);
      }
      i := i + 1;
    }
    return None;
  }

  /** The body of the innermost loop: one track's file. */
  method MapTrack(fs: FileSystem, album: Option<string>, disc: Option<nat>, num: nat, tags: Tags)
    returns (r: Result<string, TrackError>)
    requires TypedPaths(tags)
    ensures r == TrackFile(fs, album, disc, num, tags)
  {
    if "INPUT" !in tags {
      return Err(MissingInput);
    }
    var found := FindTrackFile(fs.listDir(tags["INPUT"].p), num);
    if found.None? {
      return Err(TrackFileNotFound(TrackIdToString(album, disc, num, 0, 0)));
    }
    return Ok(found.value);
  }

  // ---------------------------------------------------------------- the whole table

  ghost predicate DiscMapped(fs: FileSystem, album: Option<string>, disc: Option<nat>, tracks: map<nat, Tags>)
    requires forall n :: n in tracks ==> TypedPaths(tracks[n])
  {
    forall n :: n in tracks ==> TrackFile(fs, album, disc, n, tracks[n]).Ok?
  }

  ghost function DiscFiles(fs: FileSystem, album: Option<string>, disc: Option<nat>, tracks: map<nat, Tags>)
    : map<nat, string>
    requires forall n :: n in tracks ==> TypedPaths(tracks[n])
    requires DiscMapped(fs, album, disc, tracks)
  {
    map n | n in tracks :: TrackFile(fs, album, disc, n, tracks[n]).value
  }

  /** A map that holds each track's file is the disc's table of files. */
  lemma DiscFilesAre(fs: FileSystem, album: Option<string>, disc: Option<nat>, tracks: map<nat, Tags>,
                     files: map<nat, string>)
    requires forall n :: n in tracks ==> TypedPaths(tracks[n])
    requires files.Keys == tracks.Keys
    requires forall n :: n in tracks ==> TrackFile(fs, album, disc, n, tracks[n]) == Ok(files[n])
    ensures DiscMapped(fs, album, disc, tracks) && files == DiscFiles(fs, album, disc, tracks)
  {
  }

  ghost predicate AlbumTyped(discs: map<Option<nat>, map<nat, Tags>>) {
    forall d, n :: d in discs && n in discs[d] ==> TypedPaths(discs[d][n])
  }

  ghost predicate AlbumMapped(fs: FileSystem, album: Option<string>, discs: map<Option<nat>, map<nat, Tags>>)
    requires AlbumTyped(discs)
  {
    forall d :: d in discs ==> DiscMapped(fs, album, d, discs[d])
  }

  ghost function AlbumFiles(fs: FileSystem, album: Option<string>, discs: map<Option<nat>, map<nat, Tags>>)
    : map<Option<nat>, map<nat, string>>
    requires AlbumTyped(discs) && AlbumMapped(fs, album, discs)
  {
    map d | d in discs :: DiscFiles(fs, album, d, discs[d])
  }

  /** Every track of the table has its file. */
  ghost predicate InfoMapped(fs: FileSystem, info: Info)
    requires TypedInfo(info)
  {
    forall a :: a in info ==> AlbumTyped(info[a]) && AlbumMapped(fs, a, info[a])
  }

  ghost function InfoFiles(fs: FileSystem, info: Info): map<Option<string>, map<Option<nat>, map<nat, string>>>
    requires TypedInfo(info) && InfoMapped(fs, info)
  {
    map a | a in info :: AlbumFiles(fs, a, info[a])
  }

  /** An album's table is typed when the whole table is. */
  lemma AlbumTypedIn(info: Info, a: Option<string>)
    requires TypedInfo(info) && a in info
    ensures AlbumTyped(info[a])
  {
    forall d, n | d in info[a] && n in info[a][d]
      ensures TypedPaths(info[a][d][n])
    {
      assert Has(info, a, d, n);
    }
  }

  /** The table of files has the shape of the track table, and each entry is
      the file chosen for that track. */
  lemma InfoFilesAt(fs: FileSystem, info: Info, a: Option<string>, d: Option<nat>, n: nat)
    requires TypedInfo(info) && InfoMapped(fs, info)
    ensures a in InfoFiles(fs, info) <==> a in info
    ensures a in info ==> (d in InfoFiles(fs, info)[a] <==> d in info[a])
    ensures Has(info, a, d, n) <==>
      a in InfoFiles(fs, info) && d in InfoFiles(fs, info)[a] && n in InfoFiles(fs, info)[a][d]
    ensures Has(info, a, d, n) ==>
      TrackFile(fs, a, d, n, Get(info, a, d, n)) == Ok(InfoFiles(fs, info)[a][d][n])
  {
    if Has(info, a, d, n) {
      assert AlbumMapped(fs, a, info[a]);
      assert DiscMapped(fs, a, d, info[a][d]);
    }
  }

  /** The table of files exists exactly when no track lacks an input or a
      file. */
  lemma InfoMappedIff(fs: FileSystem, info: Info)
    requires TypedInfo(info)
    ensures InfoMapped(fs, info) <==>
      forall a, d, n :: Has(info, a, d, n) ==> TrackFile(fs, a, d, n, Get(info, a, d, n)).Ok?
  {
    forall a | a in info ensures AlbumTyped(info[a]) {
      AlbumTypedIn(info, a);
    }
    if forall a, d, n :: Has(info, a, d, n) ==> TrackFile(fs, a, d, n, Get(info, a, d, n)).Ok? {
      forall a | a in info ensures AlbumMapped(fs, a, info[a]) {
        forall d | d in info[a] ensures DiscMapped(fs, a, d, info[a][d]) {
          forall n | n in info[a][d] ensures TrackFile(fs, a, d, n, info[a][d][n]).Ok? {
            assert Has(info, a, d, n);
          }
        }
      }
    }
    if InfoMapped(fs, info) {
      forall a, d, n | Has(info, a, d, n) ensures TrackFile(fs, a, d, n, Get(info, a, d, n)).Ok? {
        assert AlbumMapped(fs, a, info[a]);
        assert DiscMapped(fs, a, d, info[a][d]);
      }
    }
  }

  /** The tracks of one disc. */
  method MapDisc(fs: FileSystem, album: Option<string>, disc: Option<nat>, tracks: map<nat, Tags>)
    returns (r: Result<map<nat, string>, TrackError>, ghost failed: nat)
    requires forall n :: n in tracks ==> TypedPaths(tracks[n])
    ensures r.Ok? <==> DiscMapped(fs, album, disc, tracks)
    ensures r.Ok? ==> r.value.Keys == tracks.Keys
    ensures r.Ok? ==> forall n :: n in tracks ==> TrackFile(fs, album, disc, n, tracks[n]) == Ok(r.value[n])
    ensures r.Err? ==> failed in tracks && TrackFile(fs, album, disc, failed, tracks[failed]) == Err(r.error)
  {
    failed := 0;
    var files: map<nat, string> := map[];
    var nums := tracks.Keys;
    while nums != {}
      invariant nums <= tracks.Keys
      invariant forall n :: n in files <==> n in tracks && n !in nums
      invariant forall n :: n in files ==> TrackFile(fs, album, disc, n, tracks[n]) == Ok(files[n])
      decreases |nums|
    {
      var num :| num in nums;
      var file := MapTrack(fs, album, disc, num, tracks[num]);
      if file.Err? {
        return Err(file.error), num;
      }
      files := files[num := file.value];
      nums := nums - {num};
    }
    assert files.Keys == tracks.Keys;
    return Ok(files), failed;
  }

  /** The discs of one album. */
  method MapAlbum(fs: FileSystem, album: Option<string>, discs: map<Option<nat>, map<nat, Tags>>)
    returns (r: Result<map<Option<nat>, map<nat, string>>, TrackError>, ghost failedDisc: Option<nat>, ghost failed: nat)
    requires AlbumTyped(discs)
    ensures r.Ok? <==> AlbumMapped(fs, album, discs)
    ensures r.Ok? ==> r.value == AlbumFiles(fs, album, discs)
    ensures r.Err? ==>
      failedDisc in discs && failed in discs[failedDisc] &&
      TrackFile(fs, album, failedDisc, failed, discs[failedDisc][failed]) == Err(r.error)
  {
    failedDisc, failed := None, 0;
    var files: map<Option<nat>, map<nat, string>> := map[];
    var keys := discs.Keys;
    while keys != {}
      invariant keys <= discs.Keys
      invariant forall d :: d in files <==> d in discs && d !in keys
      invariant forall d :: d in files ==> DiscMapped(fs, album, d, discs[d]) && files[d] == DiscFiles(fs, album, d, discs[d])
      decreases |keys|
    {
      var disc :| disc in keys;
      var tracks;
      tracks, failed := MapDisc(fs, album, disc, discs[disc]);
      if tracks.Err? {
        return Err(tracks.error), disc, failed;
      }
      DiscFilesAre(fs, album, disc, discs[disc], tracks.value);
      files := files[disc := tracks.value];
      keys := keys - {disc};
    }
    assert files.Keys == discs.Keys;
    return Ok(files), failedDisc, failed;
  }

  /** `map_tracks`: the file of every track, or the error of the first track
      that has none (in the table's iteration order). */
  method MapTracks(fs: FileSystem, info: Info)
    returns (r: Result<map<Option<string>, map<Option<nat>, map<nat, string>>>, TrackError>,
             ghost failedAlbum: Option<string>, ghost failedDisc: Option<nat>, ghost failed: nat)
    requires TypedInfo(info)
    ensures r.Ok? <==> InfoMapped(fs, info)
    ensures r.Ok? ==> r.value == InfoFiles(fs, info)
    ensures r.Err? ==>
      Has(info, failedAlbum, failedDisc, failed) &&
      TrackFile(fs, failedAlbum, failedDisc, failed, Get(info, failedAlbum, failedDisc, failed)) == Err(r.error)
  {
    failedAlbum, failedDisc, failed := None, None, 0;
    var files: map<Option<string>, map<Option<nat>, map<nat, string>>> := map[];
    var keys := info.Keys;
    while keys != {}
      invariant keys <= info.Keys
      invariant forall a :: a in files <==> a in info && a !in keys
      invariant forall a :: a in files ==>
        AlbumTyped(info[a]) && AlbumMapped(fs, a, info[a]) && files[a] == AlbumFiles(fs, a, info[a])
      decreases |keys|
    {
      var album :| album in keys;
      AlbumTypedIn(info, album);
      var discs;
      discs, failedDisc, failed := MapAlbum(fs, album, info[album]);
      if discs.Err? {
        return Err(discs.error), album, failedDisc, failed;
      }
      files := files[album := discs.value];
      keys := keys - {album};
    }
    assert files.Keys == info.Keys;
    return Ok(files), failedAlbum, failedDisc, failed;
  }
}
