/** Paths and the filesystem as the planning code sees them.

    A path is the sequence of its `pathlib` parts; an absolute path starts with
    the part "/".  Everything the code learns from the disk or from external
    programs is an oracle field of `FileSystem`, so the rest of the model is a
    function of the oracle's answers. */
module Fs {
  import opened Text

  type Path = seq<string>

  /** What extracting one archive yields: the fresh container directory the
      extractor filled, and the entries `iterdir()` lists in it. */
  datatype Extraction = Extraction(container: Path, entries: seq<Path>)

  datatype FileSystem = FileSystem(
    /** `Path.is_file()` */
    isFile: Path -> bool,
    /** `Path.is_dir()` */
    isDir: Path -> bool,
    /** `expand_archive`: extract a recognised archive into a fresh temporary directory */
    extract: Path -> Extraction,
    /** the parts below the root of `(base / s).resolve()` */
    resolveBelowRoot: (Path, string) -> seq<string>,
    /** the names `iterdir()` yields for a directory, in enumeration order */
    listDir: Path -> seq<string>,
    /** the fresh temporary file a picture is extracted into */
    coverTemp: Path -> Path,
    /** whether `metaflac --export-picture-to=-` succeeds on a file */
    pictureOk: Path -> bool
  )

  /** `Path(s).is_absolute()` on POSIX. */
  predicate IsAbsolute(s: string) {
    |s| > 0 && s[0] == '/'
  }

  /** `(base / s).resolve()`: always an absolute path.  A `pathlib` join with an
      absolute `s` discards `base`. */
  function Resolve(fs: FileSystem, base: Path, s: string): (p: Path)
    ensures |p| >= 1 && p[0] == "/"
  {
    if IsAbsolute(s) then ["/"] + fs.resolveBelowRoot([], s)
    else ["/"] + fs.resolveBelowRoot(base, s)
  }

  /** Joining an absolute path string onto any base gives `Path(s).resolve()`. */
  lemma ResolveAbsoluteIgnoresBase(fs: FileSystem, base: Path, s: string)
    requires IsAbsolute(s)
    ensures Resolve(fs, base, s) == Resolve(fs, [], s)
  {
  }

  /** `parent / part` for one part as `PurePath.parts` yields it: the root part
      restarts the path. */
  function Child(parent: Path, part: string): (r: Path)
    ensures |r| >= 1 && r[|r| - 1] == part
  {
    if part == "/" then ["/"] else parent + [part]
  }

  /** `PurePath.parent`. */
  function Parent(p: Path): (r: Path)
    ensures |r| <= |p|
  {
    if |p| == 0 || p == ["/"] then p else p[..|p| - 1]
  }

  /** The parts `str.split('/')` leaves once empty and "." components are
      dropped, as `pathlib` does. */
  function Components(s: string): (r: seq<string>)
    ensures forall i :: 0 <= i < |r| ==> r[i] != "" && r[i] != "." && '/' !in r[i]
  {
    ComponentsFrom(s, "")
  }

  function ComponentsFrom(s: string, current: string): (r: seq<string>)
    requires '/' !in current
    ensures forall i :: 0 <= i < |r| ==> r[i] != "" && r[i] != "." && '/' !in r[i]
    decreases |s|
  {
    if s == [] then Component(current)
    else if s[0] == '/' then Component(current) + ComponentsFrom(s[1..], "")
    else ComponentsFrom(s[1..], current + [s[0]])
  }

  function Component(c: string): (r: seq<string>)
    ensures forall i :: 0 <= i < |r| ==> r[i] == c && c != "" && c != "."
  {
    if c == "" || c == "." then [] else [c]
  }

  /** `Path(s)` on POSIX, without resolving: an absolute path gets the root part
      "/", or "//" when it starts with exactly two slashes. */
  function ParsePath(s: string): (p: Path)
    ensures IsAbsolute(s) <==> (|p| >= 1 && (p[0] == "/" || p[0] == "//"))
  {
    if |s| >= 2 && s[0] == '/' && s[1] == '/' && (|s| == 2 || s[2] != '/') then ["//"] + Components(s)
    else if IsAbsolute(s) then ["/"] + Components(s)
    else Components(s)
  }

  /** `PurePath.name`: the final part, or empty for the root and for `Path()`. */
  function Name(p: Path): string {
    if p == [] || p == ["/"] then "" else p[|p| - 1]
  }

  /** `base / name` for a single component `name` (no `/` in it): `pathlib`
      drops empty and "." components. */
  function Join(base: Path, name: string): (r: Path)
    ensures r == base || r == base + [name]
  {
    if name == "" || name == "." then base else base + [name]
  }

  function JoinWithSlash(parts: seq<string>): string {
    if parts == [] then ""
    else if |parts| == 1 then parts[0]
    else parts[0] + "/" + JoinWithSlash(parts[1..])
  }

  /** `str(path)`. */
  function PathString(p: Path): string {
    if p == [] then "."
    else if p[0] == "/" then "/" + JoinWithSlash(p[1..])
    else JoinWithSlash(p)
  }
}
