# tracktagger planning core in Dafny

tracktagger reads a *trackinfo* manifest and re-encodes a set of FLAC files
into tagged, consistently named outputs. A manifest is a text file of lines
`KEY=value` (a global tag) and `KEY[n]=value` (a tag of track `n`). Before
any encoder runs, the tool does the following:

- It collects the `INPUT` directories a manifest names and resolves them
  through any `.zip`/`.rar`/`.7z` archives on the way.
- It interprets the manifest into a table album → disc → track → tag map.
- It computes the zero-padding widths of disc and track numbers.
- It finds each track's source file in its input directory.
- It decides where each cover picture comes from.
- It builds each output file name, truncated to the file system's byte
  limit, and the `--tag`/`--picture` arguments for the encoder.

This project models those steps of `tracktagger.py` and proves what they
promise.

The modules follow the program's structure:

| module | file | models |
|---|---|---|
| `Wrappers` | wrappers.dfy | `Option` and `Result` |
| `Text` | text.dfy | the Python string operations the code uses: `rstrip`/`strip`, `upper`, `isdigit`/`int`, `str(n)`, `zfill`, `replace`, `rfind`, `Path.suffix` |
| `Utf8` | utf8.dfy | UTF-8 encoding and strict decoding (RFC 3629, section 3) |
| `Fs` | fs.dfy | paths as sequences of `pathlib` parts, and the file system as an oracle |
| `Filename` | filename.dfy | `truncate_filename` |
| `Lines` | lines.dfy | the two manifest line patterns `TRACKINFO_RE` and `INPUT_TRACKINFO_RE` |
| `Archives` | archives.dfy | `resolve_trackinfo_inputs` and `expand_archives_in_tree` |
| `Meta` | meta.dfy | tag values, tag maps and the nested table |
| `Manifest` | manifest.dfy | `parse_trackinfo_meta` |
| `Padding` | padding.dfy | `calc_padding` |
| `Naming` | naming.dfy | `track_id_to_string` and `gen_output_path` |
| `Tracks` | tracks.dfy | `map_tracks` |
| `Covers` | covers.dfy | `map_covers` |
| `Encoder` | encoder.dfy | the tag-argument loop of `process_one` |

The code that works by mutation is modelled as methods with loops, each
proved against a specification function:

- `parse_trackinfo_meta` → `Manifest.ParseTrackinfoMeta` against `Manifest.Parse`.
- The recursive three-loop `expand_archives_in_tree` → `Archives.ExpandArchivesInTree` against `Archives.Locate`.
- `calc_padding` → `Padding.CalcPadding`.
- `map_tracks` with its for-else → `Tracks.MapTracks`.
- `map_covers` → `Covers.MapCovers`.
- The byte-dropping loop of `truncate_filename` → `Filename.TruncateFilename` against `Filename.Truncated`.

Pure code is modelled as functions: `track_id_to_string`,
`gen_output_path` and the tag arguments.

Everything the code asks of the disk or of external programs is a field of
the oracle `Fs.FileSystem`. These are `is_file`, `is_dir`, `iterdir`,
`Path.resolve`, the archive extractor, the temporary cover file and whether
`metaflac` succeeds.

## Model

| member | source | states |
|---|---|---|
| Filename.TruncateFilename | tracktagger.py:60-88 | The truncation loop returns exactly the declarative result `Truncated`. A base that fits is kept. Otherwise the base is cut at the byte budget and backed off to a character boundary, and `ValueError` is raised when nothing is left. |
| Filename.BackOff | tracktagger.py:73-83 | Dropping trailing bytes until the rest decodes stops at the last character boundary before the cut. It yields `None`, the `ValueError` branch, exactly when that boundary is the start. |
| Filename.TruncatedUnchangedIffFits | tracktagger.py:69-87 | A name is returned unchanged if and only if its encoded base fits in `max_bytes` minus the encoded suffix. |
| Filename.TruncatedIsLongestFittingPrefix | tracktagger.py:71-84 | When the base does not fit, the new base is its longest character prefix whose encoding fits the budget, and the suffix is kept. |
| Filename.TruncatedFailsIffCutInsideFirstCharacter | tracktagger.py:72-83 | Truncation raises exactly when the cut falls strictly inside the first character's encoding. |
| Filename.TruncatedFits | tracktagger.py:60-88 | For a name with a suffix and a budget that leaves room for the suffix, the encoded result is at most `max_bytes`. |
| Utf8.DecodeEncode | tracktagger.py:70-74 | Decoding the UTF-8 encoding of a string gives the string back. |
| Utf8.DecodeEncodedPrefix | tracktagger.py:72-81 | A byte prefix of an encoded string decodes if and only if it ends on a character boundary, and then to the characters before it. |
| Lines.MatchRender | tracktagger.py:40 | Every well-formed entry `KEY[n]=value` (letters, optional digits, one-line value) is matched back from its text. |
| Lines.RenderMatch | tracktagger.py:40 | A line that matches is exactly the rendering of its match, so key, index and value are all the line holds. |
| Lines.InputAgreement | tracktagger.py:40-41 | The resolver's case-insensitive `INPUT` pattern matches a line exactly when the parser's pattern does with a key that upper-cases to `INPUT`, and both capture the same value. |
| Archives.ExpandArchivesInTree | tracktagger.py:117-154 | The result's keys are exactly the input paths. Each path goes to `Locate`: every archive stub on its way is replaced by its extracted root. The extraction log has no repeats, holds only archive prefixes of the inputs, and holds every one of them. |
| Archives.GroupByHead | tracktagger.py:129-131 | Every path is filed under its first part with the remaining parts; every group is non-empty and holds only such remainders. |
| Archives.ExtractStubs | tracktagger.py:133-144 | One node per head: the stub, its extracted root when the stub is an archive (else the stub), and its tails. The archives of this level are logged once each. |
| Archives.FileStub | tracktagger.py:148-150 | A head that is itself an input is filed at its real location, and the empty tail is removed. |
| Archives.ExpandBelow | tracktagger.py:151-152 | The recursive call on the remaining tails sends each tail to its location below the node's real path, and logs the archives below it. |
| Archives.MergeBelow | tracktagger.py:152-153 | The results below a head are filed under `head / base`, and the entries already filed are kept. |
| Archives.FileNode | tracktagger.py:147-153 | After a node, exactly the input paths under the heads done so far are filed, each at its real location. |
| Archives.LocateWithoutArchives | tracktagger.py:134-144 | A path with no archive prefix maps to itself, joined below the parent. |
| Archives.LocateAtFirstArchive | tracktagger.py:136-142 | At the first archive prefix, the path continues from the extracted root: the extraction directory, or its only entry when that entry is a directory. |
| Archives.InputPathsNamed | tracktagger.py:158-170 | A path is collected if and only if some line matches the `INPUT` pattern and resolves to it, relative to the manifest's directory unless absolute. |
| Archives.CollectInputs | tracktagger.py:158-170 | The scanning loop collects exactly `InputPaths`. |
| Archives.ResolveTrackinfoInputs | tracktagger.py:156-171 | The input map's keys are exactly the collected inputs, each located through its archives. Every archive prefix is extracted exactly once. |
| Manifest.ParseTrackinfoMeta | tracktagger.py:173-245 | The line loop, which mutates the global scope and the table, returns exactly `Parse`: the lines folded through `Step`, stopping at the first error. |
| Manifest.RunLine | tracktagger.py:179-243 | One pass of the loop body takes the state after `i` lines to the result after `i + 1`. |
| Manifest.ParseFails | tracktagger.py:184-240 | Once a line raises, that error is the result of the whole parse. |
| Manifest.ApplyLine | tracktagger.py:180-243 | The loop body for one line is exactly `Step`. |
| Manifest.SetKeyValue | tracktagger.py:214-243 | The key-value block is exactly `Assign`. |
| Manifest.Run | tracktagger.py:173-245 | In every state the lines produce, `INPUT` and `COVER` are paths in the global scope and in every record. The global `ALBUM` is a string or `None`, and the global `DISCNUMBER` an integer or `None`, so both can key the table. |
| Manifest.Placement | tracktagger.py:195-207 | A track line fails exactly when a global `ALBUM`/`DISCNUMBER` it needs is gone, or when its own `DISCNUMBER` is not all digits. `ALBUM` files it under the value, `DISCNUMBER` under the number, and any other key under the running global album and disc. |
| Manifest.Assign | tracktagger.py:214-243 | Setting a key keeps `INPUT`/`COVER` as paths and `DISCNUMBER` as an integer. It fails only with a bad disc number or an input missing from the input map. |
| Manifest.TrackStep | tracktagger.py:191-243 | A track line never changes the global scope, and never fails as an invalid line. |
| Manifest.GlobalStep | tracktagger.py:211-243 | A global line never changes the table of tracks. |
| Manifest.LineShape | tracktagger.py:180-186 | An empty line after `rstrip` changes nothing. A non-empty line raises `ValueError` if and only if it does not match the line pattern. |
| Manifest.MatchedLine | tracktagger.py:184-213 | A matched line is dispatched with its key upper-cased and its value stripped: to a track step when it has an index, else to a global step. |
| Manifest.OrdinaryGlobalLine | tracktagger.py:215-243 | A global line with a generic key deletes the key when the value is empty and the key is present. Otherwise it stores the value, the empty string included. |
| Manifest.GlobalEmptyValueDeletes | tracktagger.py:215-218 | An empty value deletes a present key from the global scope, whatever the key. |
| Manifest.GlobalDiscNumber | tracktagger.py:237-241 | A global `DISCNUMBER` stores the integer when the value is all digits. It raises `ValueError` if and only if the value is not all digits, except an empty value that deletes a present key. |
| Manifest.TrackLineFiled | tracktagger.py:191-243 | A successful track line stores, at the place `Placement` chose, the existing record or a fresh one with the key set. Nothing else in the table changes. |
| Manifest.RecordStart | tracktagger.py:209-210 | A new record is a copy of the global scope at that moment plus `TRACKNUMBER`. An existing record is reused as it is. |
| Manifest.EmptyTrackLineCreatesRecord | tracktagger.py:209-218 | A track line with an empty value still creates its record. The key is then removed from the record if present, or stored as the empty string. |
| Manifest.MissingGlobalFails | tracktagger.py:198-207 | After a global `ALBUM=` or `DISCNUMBER=` deleted the key, every track line that reads it raises `KeyError`; `ALBUM` is checked first. |
| Manifest.TrackDiscNumber | tracktagger.py:199-241 | A track `DISCNUMBER` line raises exactly when its value is not all digits, the empty value included. Otherwise it files the record under that disc and stores the number in it. |
| Manifest.StepKeepsRecords | tracktagger.py:209-218 | No line removes a record from the table. |
| Manifest.RecordsPersist | tracktagger.py:179-245 | A record present after some lines is present at the end of a successful parse. |
| Manifest.InputLookupCollected | tracktagger.py:161-223 | The path an `INPUT` line looks up in the input map is one the resolver collected, provided its value has no leading whitespace. |
| Meta.StoreFrame | tracktagger.py:209-210 | Storing a record makes it present where stored, leaves every other record as it was, and adds no record elsewhere. |
| Meta.StoreKeys | tracktagger.py:209 | Storing adds the album key to the table and the disc key under that album, as the `setdefault` chain does, and no other key. |
| Meta.StoreTwice | tracktagger.py:209-210 | A record referenced twice is the same record: the second store replaces the first in place. |
| Meta.StoreTyped | tracktagger.py:209-210 | Storing a record whose `INPUT`/`COVER` are paths keeps the whole table so. |
| Padding.CalcPadding | tracktagger.py:247-260 | It fails exactly when some width would take `log10(0)`. Otherwise it gives, per album, the disc width and the track width of every disc. |
| Padding.AlbumPadding | tracktagger.py:252-259 | The disc width and track widths of one album, failing exactly when one of them does. |
| Padding.TrackPadding | tracktagger.py:258-259 | One track width per disc, failing exactly when a disc's largest track number is 0. |
| Padding.MaxDisc | tracktagger.py:252-254 | The largest disc number other than `None`, or `None` when the album has no numbered disc. |
| Padding.MaxTrack | tracktagger.py:259 | The largest track number of a disc. |
| Padding.TrackWidthFails | tracktagger.py:259 | A track width raises if and only if every track number of the disc is 0. |
| Padding.TrackWidthFits | tracktagger.py:259 | Padding to the track width gives every track number of the disc exactly that width, and the widest number needs all of it. |
| Padding.DiscWidthFails | tracktagger.py:252-256 | A disc width raises if and only if the album has numbered discs and all of them are 0. |
| Padding.DiscWidthFits | tracktagger.py:252-256 | The disc width is 0 with no numbered disc. Otherwise every numbered disc pads to exactly that width, and the widest needs all of it. |
| Naming.TrackIdFalsyParts | tracktagger.py:262-272 | The album `""` prints as no album, and disc 0 prints as no disc, because both are tested for truth. |
| Naming.TrackIdInjective | tracktagger.py:262-272 | For one album, two ids that print the same have the same track number, and the same disc when a disc is shown. |
| Naming.AlbumDirShape | tracktagger.py:346-349 | The album directory has no `/`, and is as long as the album. It is `UnknownAlbum` exactly for album `None` or an album named so. |
| Naming.StemNumbers | tracktagger.py:350-359 | The file stem is the zero-filled disc and `.` (only when `DISCNUMBER` is not `None`), then the zero-filled track, then the title part. |
| Naming.TitlePartShape | tracktagger.py:354-359 | The title part is empty exactly when there is neither `TITLE` nor `ARTIST`; otherwise it starts with `. `. |
| Naming.FlacNameTruncates | tracktagger.py:360 | Truncating `stem.flac` never raises. The result has no `/`, ends in `.flac` and fits in 255 bytes, and a name that already fits is kept. |
| Naming.OutputPathShape | tracktagger.py:344-360 | The output path is the album directory below the output directory, then a file name that ends in `.flac` and fits in 255 bytes. That file name is the untruncated one when that fits. |
| Naming.OutputPathErrors | tracktagger.py:344-360 | `gen_output_path` fails exactly when the album directory or the file stem does. The truncation error never happens. |
| Tracks.TrackNumberNone | tracktagger.py:58 | A listed name gives no track number if and only if it spans a line break, does not end in `.flac` (any case), or has no digit before that suffix. |
| Tracks.TrackNumberOfRun | tracktagger.py:58 | Otherwise the track number is the value of the first run of digits, leading zeros ignored. |
| Tracks.TrackFileChosen | tracktagger.py:281-290 | A track's file is found if and only if its `INPUT` lists a name with that track number. The file is the first such name in listing order. The error names the track with an unpadded id. |
| Tracks.FindTrackFile | tracktagger.py:282-286 | The for-else loop returns the first listed name with the track number, or nothing when there is none. |
| Tracks.MapTrack | tracktagger.py:281-290 | One track's lookup is exactly `TrackFile`. |
| Tracks.MapDisc | tracktagger.py:279-290 | A disc maps if and only if each of its tracks does, to exactly their files. Otherwise the error is that of one of its tracks. |
| Tracks.MapAlbum | tracktagger.py:277-290 | The same for all discs of an album. |
| Tracks.MapTracks | tracktagger.py:274-291 | The table maps if and only if every track's file is found, and then to exactly the table of those files. Otherwise the error is that of a track of the table. |
| Tracks.InfoMappedIff | tracktagger.py:274-291 | The table maps if and only if every record's track file is found. |
| Tracks.InfoFilesAt | tracktagger.py:274-291 | The track map has exactly the albums, discs and tracks of the table, and holds each track's file. |
| Covers.MapCovers | tracktagger.py:314-342 | The cover map is exactly the cover paths of the table. A `.flac` cover (any case) goes to its temporary file, even when extraction fails; any other cover goes to itself. Each `.flac` cover is extracted once, and failures are exactly the covers `metaflac` rejects. |
| Covers.SortCovers | tracktagger.py:319-326 | The loop over the table sorts every cover either into the identity map or into the set to extract, by suffix. |
| Covers.ExtractCovers | tracktagger.py:330-341 | Every `.flac` cover is extracted once and entered at its temporary file, whether or not `metaflac` succeeds. The other entries are kept. |
| Covers.InfoCoversNamed | tracktagger.py:319-322 | The covers considered are exactly the `COVER` paths of the records. |
| Encoder.TagArgsShape | tracktagger.py:375-380 | The arguments fail exactly when the track's cover is not in the cover map. Otherwise there is one argument per passed tag, in strictly increasing name order. `COVER` is always passed, `INPUT` never, and any other tag unless it is `None`. |
| Encoder.ArgumentsFail | tracktagger.py:376-378 | The loop raises exactly at a `COVER` whose value is missing from the cover map. |
| Encoder.ArgumentsShape | tracktagger.py:376-380 | Otherwise the loop equals keeping the passed tags and writing one argument for each. |
| Encoder.SortedUnique | tracktagger.py:376 | A strictly sorted sequence of names is determined by its elements, so `sorted(tags.items())` fixes the order. |
| Encoder.PassedSorted | tracktagger.py:376-380 | Skipping tags keeps the arguments in name order. |
| Encoder.ReadTagArgRoundTrip | tracktagger.py:380 | `--tag=NAME=VALUE` reads back as its name and value, since a manifest key holds only letters. |

## Left out

- Reading files, printing warnings and progress, and the error messages' wording. The manifest is a sequence of lines; an exception is a `Result` error naming its cause.
- `main`, the command line, `make_album_dirs`, `print_track_map`, `process`, the decode/encode pipe of `process_one` and ReplayGain. These are argument plumbing, directory creation, a process pool and external programs.
- `expand_archive`, `tempfile`, `metaflac` and creating the covers directory. They are oracle fields of `Fs.FileSystem`; the oracle gives a stub the same extraction every time, and the model proves it is asked once per stub.
- `Path.resolve`, `is_file`, `is_dir` and `iterdir`. These are oracle fields too (symlinks and listing order are whatever the oracle says).
- Python's `str.isdigit`, `int`, `upper`, `lower` and `re.I` beyond ASCII. Non-ASCII digits, and the Unicode letters that case-fold onto ASCII, are not modelled.
- `math.log10` is replaced by an exact integer digit count. It agrees with the float formula for every realistic disc and track number; the source raises on 0 and so does the model.
- The UTF-16 branch taken on Windows. Only UTF-8 is modelled.
- Dictionary iteration order. Loops over dicts and sets pick any remaining key.
- Tracks.MapTracks: when several tracks lack a file, the error is proved to be that of some failing track of the table, not of the first in insertion order.
- Tracks.MapTracks and Covers.MapCovers require `INPUT` and `COVER` to be paths throughout the table, which every table the parser produces satisfies (`Manifest.Run` ensures it).
- Manifest.InputLookupCollected requires an `INPUT` value without leading whitespace. The resolver resolves the unstripped value and the parser the stripped one, so for a value such as `INPUT= dir` the parser looks up a path the resolver did not collect, and `KeyError` follows.
- Filename.TruncatedFits requires a non-empty suffix and a budget that leaves room for it. Otherwise the result can exceed `max_bytes`, and the model follows the code there. With a negative budget, Python's negative slice keeps all but the last bytes. With no suffix and a zero budget, the empty base becomes `Path("")`, which is `.`.

### Where the code and the tool's design description differ (the model follows the code)

- Digit count of 0: the description defines it as 1, but `math.log10(0)` raises, so a largest disc or track number of 0 is an error (`Padding.TrackWidthFails`, `Padding.DiscWidthFails`).
- The description says every record has a resolved `INPUT` and a `TRACKNUMBER` equal to its key. The code does not ensure either. A track without an `INPUT` line has none. `TRACKNUMBER[5]=7` or `TRACKNUMBER[5]=` changes or removes it.
- The description treats the `INPUT` value the same in the resolver and the parser; the code strips it only in the parser (`Manifest.InputLookupCollected`).
- Disc 0 and the album `""` are left out of track ids but not of file names, because ids test truth and file names test `None` (`Naming.TrackIdFalsyParts`, `Naming.StemNumbers`).
- Truncation inside `gen_output_path` cannot fail: the `.flac` suffix leaves 250 bytes, which always hold the first character (`Naming.OutputPathErrors`).
