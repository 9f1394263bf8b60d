/** The tag arguments `process_one` hands to the encoder
    (tracktagger.py:375-380): one argument per tag, in the order of the sorted
    tag names.  `COVER` becomes `--picture=` and the file its picture is read
    from, `INPUT` and tags whose value is `None` are skipped, and every other
    tag becomes `--tag=NAME=VALUE`. */
module Encoder {
  import opened Wrappers
  import opened Text
  import opened Fs
  import opened Meta

  // ---------------------------------------------------------------- the order of tag names

  /** Python's `<` on strings: lexicographic by code point. */
  predicate StrLess(a: string, b: string)
    decreases |a|
  {
    if a == [] then b != []
    else if b == [] then false
    else a[0] < b[0] || (a[0] == b[0] && StrLess(a[1..], b[1..]))
  }

  lemma {:induction false} StrLessIrreflexive(a: string)
    ensures !StrLess(a, a)
    decreases |a|
  {
    if a != [] {
      StrLessIrreflexive(a[1..]);
    }
  }

  lemma {:induction false} StrLessAsymmetric(a: string, b: string)
    ensures StrLess(a, b) ==> !StrLess(b, a)
    decreases |a|
  {
    if a != [] && b != [] {
      StrLessAsymmetric(a[1..], b[1..]);
    }
  }

  lemma {:induction false} StrLessTransitive(a: string, b: string, c: string)
    requires StrLess(a, b) && StrLess(b, c)
    ensures StrLess(a, c)
    decreases |a|
  {
    if a != [] && a[0] == b[0] && b[0] == c[0] {
      StrLessTransitive(a[1..], b[1..], c[1..]);
    }
  }

  lemma {:induction false} StrLessTotal(a: string, b: string)
    ensures a == b || StrLess(a, b) || StrLess(b, a)
    decreases |a|
  {
    if a != [] && b != [] && a[0] == b[0] {
      StrLessTotal(a[1..], b[1..]);
      if a[1..] == b[1..] {
        assert a == [a[0]] + a[1..] && b == [b[0]] + b[1..];
      }
    }
  }

  /** The least name of a non-empty set of names. */
  ghost function MinName(names: set<string>): (m: string)
    requires names != {}
    ensures m in names && forall n :: n in names && n != m ==> StrLess(m, n)
  {
    var x :| x in names;
    var rest := names - {x};
    if rest == {} then
      assert forall n :: n in names ==> n in rest || n == x;
      x
    else
      var y := MinName(rest);
      StrLessTotal(x, y);
      if StrLess(y, x) then
        forall n | n in names && n != y ensures StrLess(y, n) {
          if n != x {
            assert n in rest;
          }
        }
        y
      else
        forall n | n in names && n != x ensures StrLess(x, n) {
          if n != y {
            assert n in rest;
            StrLessTransitive(x, y, n);
          }
        }
        x
  }

  predicate StrictlySorted(s: seq<string>) {
    forall i, j :: 0 <= i < j < |s| ==> StrLess(s[i], s[j])
  }

  /** The names of a tag map in the order `sorted(tags.items())` visits them. */
  ghost function SortedNames(names: set<string>): (r: seq<string>)
    ensures StrictlySorted(r)
    ensures forall n :: n in r <==> n in names
    decreases names
  {
    if names == {} then []
    else
      var m := MinName(names);
      var rest := SortedNames(names - {m});
      assert forall j :: 0 <= j < |rest| ==> StrLess(m, rest[j]) by {
        forall j | 0 <= j < |rest| ensures StrLess(m, rest[j]) {
          assert rest[j] in names - {m};
        }
      }
      [m] + rest
  }

  /** A strictly sorted sequence is determined by its elements: the order
      `sorted` produces is the only one. */
  lemma {:induction false} SortedUnique(s: seq<string>, t: seq<string>)
    requires StrictlySorted(s) && StrictlySorted(t)
    requires forall n :: n in s <==> n in t
    ensures s == t
    decreases |s|
  {
    assert s != [] ==> s[0] in t;
    assert t != [] ==> t[0] in s;
    if s != [] && t != [] {
      if s[0] != t[0] {
        var i :| 0 <= i < |s| && s[i] == t[0];
        var j :| 0 <= j < |t| && t[j] == s[0];
        assert i != 0 && j != 0;
        assert StrLess(s[0], t[0]) && StrLess(t[0], s[0]);
        StrLessAsymmetric(s[0], t[0]);
        assert false;
      }
      forall n ensures n in s[1..] <==> n in t[1..] {
        if n in s[1..] {
          var i :| 1 <= i < |s| && s[i] == n;
          StrLessIrreflexive(n);
          assert n != s[0];
          assert s[i] in s;
          var k :| 0 <= k < |t| && t[k] == n;
          assert k != 0 && t[1..][k - 1] == n;
        }
        if n in t[1..] {
          var j :| 1 <= j < |t| && t[j] == n;
          StrLessIrreflexive(n);
          assert n != t[0];
          assert t[j] in t;
          var k :| 0 <= k < |s| && s[k] == n;
          assert k != 0 && s[1..][k - 1] == n;
        }
      }
      SortedUnique(s[1..], t[1..]);
      assert s == [s[0]] + s[1..] && t == [t[0]] + t[1..];
    }
  }

  // ---------------------------------------------------------------- the arguments

  /** The `KeyError` of `cover_map[value]` for a cover that is not in the map. */
  datatype EncodeError = MissingCover(cover: Value)

  /** Whether a tag yields an argument: `COVER` always, `INPUT` never, any
      other tag unless its value is `None`. */
  predicate Passed(name: string, v: Value) {
    name == "COVER" || (name != "INPUT" && !v.Null?)
  }

  /** Whether a cover value can be looked up in the cover map. */
  predicate CoverFound(v: Value, coverMap: map<Path, Path>) {
    v.PathVal? && v.p in coverMap
  }

  /** The argument of one passed tag. */
  function ArgText(name: string, v: Value, coverMap: map<Path, Path>): string
    requires name == "COVER" ==> CoverFound(v, coverMap)
  {
    if name == "COVER" then "--picture=" + PathString(coverMap[v.p])
    else "--tag=" + name + "=" + ToStr(v)
  }

  /** One step of the loop: the argument appended for a tag, if any. */
  function Argument(name: string, v: Value, coverMap: map<Path, Path>): Result<Option<string>, EncodeError> {
    if name == "COVER" then
      if CoverFound(v, coverMap) then Ok(Some(ArgText(name, v, coverMap))) else Err(MissingCover(v))
    else if name != "INPUT" && !v.Null? then Ok(Some(ArgText(name, v, coverMap)))
    else Ok(None)
  }

  /** The loop over the given tag names, in order. */
  function Arguments(names: seq<string>, tags: Tags, coverMap: map<Path, Path>): Result<seq<string>, EncodeError>
    requires forall i :: 0 <= i < |names| ==> names[i] in tags
  {
    if names == [] then Ok([])
    else
      match Argument(names[0], tags[names[0]], coverMap)
      case Err(e) => Err(e)
      case Ok(a) =>
        match Arguments(names[1..], tags, coverMap)
        case Err(e) => Err(e)
        case Ok(rest) => Ok((if a.Some? then [a.value] else []) + rest)
  }

  /** The names among `names` that yield an argument, in order. */
  function PassedNames(names: seq<string>, tags: Tags): (r: seq<string>)
    requires forall i :: 0 <= i < |names| ==> names[i] in tags
    ensures forall n :: n in r <==> n in names && Passed(n, tags[n])
  {
    if names == [] then []
    else if Passed(names[0], tags[names[0]]) then [names[0]] + PassedNames(names[1..], tags)
    else PassedNames(names[1..], tags)
  }

  /** The tag arguments of one track. */
  ghost function TagArgs(tags: Tags, coverMap: map<Path, Path>): Result<seq<string>, EncodeError> {
    Arguments(SortedNames(tags.Keys), tags, coverMap)
  }

  /** The loop fails exactly at a cover missing from the cover map. */
  lemma {:induction false} ArgumentsFail(names: seq<string>, tags: Tags, coverMap: map<Path, Path>)
    requires forall i :: 0 <= i < |names| ==> names[i] in tags
    ensures Arguments(names, tags, coverMap).Err? <==> "COVER" in names && !CoverFound(tags["COVER"], coverMap)
    ensures Arguments(names, tags, coverMap).Err? ==>
      Arguments(names, tags, coverMap).error == MissingCover(tags["COVER"])
  {
    if names != [] {
      ArgumentsFail(names[1..], tags, coverMap);
      assert forall n :: n in names <==> n == names[0] || n in names[1..];
    }
  }

  /** The argument texts of the given names, one each, in order. */
  function Texts(names: seq<string>, tags: Tags, coverMap: map<Path, Path>): (r: seq<string>)
    requires forall i :: 0 <= i < |names| ==> names[i] in tags
    requires "COVER" in names ==> "COVER" in tags && CoverFound(tags["COVER"], coverMap)
    ensures |r| == |names|
    ensures forall i :: 0 <= i < |names| ==> r[i] == ArgText(names[i], tags[names[i]], coverMap)
  {
    if names == [] then []
    else
      assert forall n :: n in names[1..] ==> n in names;
      [ArgText(names[0], tags[names[0]], coverMap)] + Texts(names[1..], tags, coverMap)
  }

  /** Otherwise the loop is the same as keeping the passed names and then
      writing the argument of each. */
  lemma {:induction false} ArgumentsShape(names: seq<string>, tags: Tags, coverMap: map<Path, Path>)
    requires forall i :: 0 <= i < |names| ==> names[i] in tags
    requires Arguments(names, tags, coverMap).Ok?
    ensures "COVER" in names ==> CoverFound(tags["COVER"], coverMap)
    ensures forall i :: 0 <= i < |PassedNames(names, tags)| ==> PassedNames(names, tags)[i] in tags
    ensures Arguments(names, tags, coverMap).value == Texts(PassedNames(names, tags), tags, coverMap)
  {
    ArgumentsFail(names, tags, coverMap);
    if names != [] {
      var rest := Arguments(names[1..], tags, coverMap);
      assert rest.Ok?;
      ArgumentsShape(names[1..], tags, coverMap);
      var passed := PassedNames(names[1..], tags);
      var p := PassedNames(names, tags);
      if Passed(names[0], tags[names[0]]) {
        assert p == [names[0]] + passed;
        assert p[0] == names[0] && p[1..] == passed;
      } else {
        assert p == passed;
      }
    }
  }

  /** The tag arguments of a track: they fail exactly when its cover is not in
      the cover map; otherwise there is one per passed tag, and the tags they
      come from are exactly the passed tags, in strictly increasing order. */
  lemma TagArgsShape(tags: Tags, coverMap: map<Path, Path>)
    ensures TagArgs(tags, coverMap).Err? <==> "COVER" in tags && !CoverFound(tags["COVER"], coverMap)
    ensures TagArgs(tags, coverMap).Ok? ==>
      var r := TagArgs(tags, coverMap).value;
      var passed := PassedNames(SortedNames(tags.Keys), tags);
      StrictlySorted(passed) &&
      (forall n :: n in passed <==> n in tags && Passed(n, tags[n])) &&
      |r| == |passed| &&
      forall i :: 0 <= i < |r| ==> passed[i] in tags && r[i] == ArgText(passed[i], tags[passed[i]], coverMap)
  {
    var names := SortedNames(tags.Keys);
    ArgumentsFail(names, tags, coverMap);
    if Arguments(names, tags, coverMap).Ok? {
      ArgumentsShape(names, tags, coverMap);
    }
    PassedSorted(names, tags);
  }

  /** Keeping some names of a sorted sequence keeps it sorted. */
  lemma {:induction false} PassedSorted(names: seq<string>, tags: Tags)
    requires forall i :: 0 <= i < |names| ==> names[i] in tags
    requires StrictlySorted(names)
    ensures StrictlySorted(PassedNames(names, tags))
  {
    if names != [] {
      PassedSorted(names[1..], tags);
      var rest := PassedNames(names[1..], tags);
      forall j | 0 <= j < |rest| ensures StrLess(names[0], rest[j]) {
        assert rest[j] in names[1..];
      }
    }
  }

  // ---------------------------------------------------------------- reading an argument back

  /** The index of the first `=` in `s`, or `|s|`. */
  function FirstEquals(s: string): (i: nat)
    ensures i <= |s|
    ensures i < |s| ==> s[i] == '='
    ensures forall j :: 0 <= j < i ==> s[j] != '='
  {
    if s == [] then 0 else if s[0] == '=' then 0 else 1 + FirstEquals(s[1..])
  }

  /** How the encoder reads a `--tag=NAME=VALUE` argument: the name ends at
      the first `=`. */
  function ReadTagArg(arg: string): Option<(string, string)> {
    if |arg| < 6 || arg[..6] != "--tag=" then None
    else
      var body := arg[6..];
      var i := FirstEquals(body);
      if i == |body| then None else Some((body[..i], body[i + 1..]))
  }

  /** A tag argument reads back as its name and value when the name holds no
      `=`, which every name the manifest accepts satisfies. */
  lemma ReadTagArgRoundTrip(name: string, value: string)
    requires '=' !in name
    ensures ReadTagArg("--tag=" + name + "=" + value) == Some((name, value))
  {
    var arg := "--tag=" + name + "=" + value;
    assert arg[..6] == "--tag=";
    var body := arg[6..];
    assert body == name + "=" + value;
    assert body[|name|] == '=';
    forall j | 0 <= j < |name| ensures body[j] != '=' {
      assert body[j] == name[j];
      assert name[j] in name;
    }
    assert FirstEquals(body) == |name|;
    assert body[..|name|] == name;
    assert body[|name| + 1..] == value;
  }
}
