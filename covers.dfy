/** `map_covers` (tracktagger.py:314-342): where each cover named in the track
    table is actually read from.

    A cover whose suffix is `.flac` (in any letter case) is a FLAC file whose
    embedded picture is extracted, once per distinct cover, into a fresh
    temporary file; every other cover is read where it is.  The extraction
    itself is the oracle `coverTemp` (and `pictureOk` for whether `metaflac`
    succeeds): a failed extraction is reported but the cover still maps to its
    temporary file. */
module Covers {
  import opened Wrappers
  import opened Text
  import opened Fs
  import opened Meta
  import Archives

  /** `cover.suffix.lower() == ".flac"`. */
  predicate IsFlacCover(p: Path) {
    Lower(Suffix(Name(p))) == ".flac"
  }

  ghost predicate DiscsTyped(discs: map<Option<nat>, map<nat, Tags>>) {
    forall d, n :: d in discs && n in discs[d] ==> TypedPaths(discs[d][n])
  }

  /** The covers of the given tracks of one disc. */
  ghost function TrackCovers(tracks: map<nat, Tags>, done: set<nat>): set<Path> {
    set n | n in tracks && n in done && "COVER" in tracks[n] && tracks[n]["COVER"].PathVal? :: tracks[n]["COVER"].p
  }

  /** The covers of the given discs of one album. */
  ghost function DiscCovers(discs: map<Option<nat>, map<nat, Tags>>, done: set<Option<nat>>): set<Path> {
    set d, c | d in discs && d in done && c in TrackCovers(discs[d], discs[d].Keys) :: c
  }

  /** The covers of the given albums. */
  ghost function AlbumCovers(info: Info, done: set<Option<string>>): set<Path> {
    set a, c | a in info && a in done && c in DiscCovers(info[a], info[a].Keys) :: c
  }

  /** Every cover named anywhere in the table. */
  ghost function InfoCovers(info: Info): set<Path> {
    AlbumCovers(info, info.Keys)
  }

  /** What `map_covers` returns: FLAC covers map to the temporary file their
      picture is extracted into, all other covers to themselves. */
  ghost function CoverMap(fs: FileSystem, info: Info): map<Path, Path> {
    map c | c in InfoCovers(info) :: Target(fs, c)
  }

  /** Where one cover is read from. */
  function Target(fs: FileSystem, c: Path): Path {
    if IsFlacCover(c) then fs.coverTemp(c) else c
  }

  lemma AlbumTyped(info: Info, a: Option<string>)
    requires TypedInfo(info) && a in info
    ensures DiscsTyped(info[a])
  {
    forall d, n | d in info[a] && n in info[a][d]
      ensures TypedPaths(info[a][d][n])
    {
      assert Has(info, a, d, n);
    }
  }

  /** A cover is in the map exactly when some track record names it. */
  lemma InfoCoversNamed(info: Info, c: Path)
    requires TypedInfo(info)
    ensures c in InfoCovers(info) <==>
      exists a, d, n :: Has(info, a, d, n) && "COVER" in Get(info, a, d, n) && Get(info, a, d, n)["COVER"].p == c
  {
    if c in InfoCovers(info) {
      var a, c' :| a in info && c' in DiscCovers(info[a], info[a].Keys) && c' == c;
      AlbumTyped(info, a);
      var d, c'' :| d in info[a] && c'' in TrackCovers(info[a][d], info[a][d].Keys) && c'' == c;
      var n :| n in info[a][d] && "COVER" in info[a][d][n] && info[a][d][n]["COVER"].p == c;
      assert Has(info, a, d, n);
    }
    if exists a, d, n :: Has(info, a, d, n) && "COVER" in Get(info, a, d, n) && Get(info, a, d, n)["COVER"].p == c {
      var a, d, n :| Has(info, a, d, n) && "COVER" in Get(info, a, d, n) && Get(info, a, d, n)["COVER"].p == c;
      AlbumTyped(info, a);
      assert c in TrackCovers(info[a][d], info[a][d].Keys);
      assert c in DiscCovers(info[a], info[a].Keys);
    }
  }

  // ---------------------------------------------------------------- the first pass

  /** A map that sends each of its keys to itself. */
  ghost predicate Identity(m: map<Path, Path>) {
    forall c :: c in m ==> m[c] == c
  }

  /** `ret` and `flac` are `ret0` and `flac0` with the covers of `seen` added:
      the non-FLAC ones to `ret`, each mapped to itself, the FLAC ones to
      `flac`. */
  ghost predicate Sorted(ret: map<Path, Path>, flac: set<Path>, seen: set<Path>, ret0: map<Path, Path>, flac0: set<Path>) {
    Identity(ret) &&
    (forall c :: c in ret <==> c in ret0 || (c in seen && !IsFlacCover(c))) &&
    (forall c :: c in flac <==> c in flac0 || (c in seen && IsFlacCover(c)))
  }

  /** The innermost loop: the covers of one disc's tracks. */
  method SortTrackCovers(tracks: map<nat, Tags>, ret0: map<Path, Path>, flac0: set<Path>)
    returns (ret: map<Path, Path>, flac: set<Path>)
    requires forall n :: n in tracks ==> TypedPaths(tracks[n])
    requires Identity(ret0)
    ensures Sorted(ret, flac, TrackCovers(tracks, tracks.Keys), ret0, flac0)
  {
    ret, flac := ret0, flac0;
    var nums := tracks.Keys;
    ghost var done: set<nat> := {};
    while nums != {}
      invariant nums <= tracks.Keys
      invariant forall n :: n in done <==> n in tracks && n !in nums
      invariant Sorted(ret, flac, TrackCovers(tracks, done), ret0, flac0)
      decreases |nums|
    {
      var num :| num in nums;
      var tags := tracks[num];
      if "COVER" in tags {
        var cover := tags["COVER"].p;
        if IsFlacCover(cover) {
          flac := flac + {cover};
        } else {
          ret := ret[cover := cover];
        }
      }
      TrackCoversStep(tracks, done, num);
      done := done + {num};
      nums := nums - {num};
    }
    assert done == tracks.Keys;
  }

  lemma TrackCoversStep(tracks: map<nat, Tags>, done: set<nat>, num: nat)
    requires num in tracks && TypedPaths(tracks[num])
    ensures forall c :: c in TrackCovers(tracks, done + {num}) <==>
      c in TrackCovers(tracks, done) || ("COVER" in tracks[num] && c == tracks[num]["COVER"].p)
  {
  }

  /** The middle loop: the covers of one album's discs. */
  method SortDiscCovers(discs: map<Option<nat>, map<nat, Tags>>, ret0: map<Path, Path>, flac0: set<Path>)
    returns (ret: map<Path, Path>, flac: set<Path>)
    requires DiscsTyped(discs)
    requires Identity(ret0)
    ensures Sorted(ret, flac, DiscCovers(discs, discs.Keys), ret0, flac0)
  {
    ret, flac := ret0, flac0;
    var keys := discs.Keys;
    ghost var done: set<Option<nat>> := {};
    while keys != {}
      invariant keys <= discs.Keys
      invariant forall d :: d in done <==> d in discs && d !in keys
      invariant Sorted(ret, flac, DiscCovers(discs, done), ret0, flac0)
      decreases |keys|
    {
      var disc :| disc in keys;
      ghost var before, flacBefore := ret, flac;
      ret, flac := SortTrackCovers(discs[disc], ret, flac);
      DiscCoversStep(discs, done, disc);
      SortedTrans(before, flacBefore, ret, flac, DiscCovers(discs, done),
                  TrackCovers(discs[disc], discs[disc].Keys), ret0, flac0);
      done := done + {disc};
      keys := keys - {disc};
    }
    assert done == discs.Keys;
  }

  lemma DiscCoversStep(discs: map<Option<nat>, map<nat, Tags>>, done: set<Option<nat>>, disc: Option<nat>)
    requires disc in discs
    ensures DiscCovers(discs, done + {disc}) == DiscCovers(discs, done) + TrackCovers(discs[disc], discs[disc].Keys)
  {
  }

  /** Sorting the covers of two groups one after the other sorts the covers
      of both. */
  lemma SortedTrans(ret1: map<Path, Path>, flac1: set<Path>, ret2: map<Path, Path>, flac2: set<Path>,
                    seen1: set<Path>, seen2: set<Path>, ret0: map<Path, Path>, flac0: set<Path>)
    requires Sorted(ret1, flac1, seen1, ret0, flac0)
    requires Sorted(ret2, flac2, seen2, ret1, flac1)
    ensures Sorted(ret2, flac2, seen1 + seen2, ret0, flac0)
  {
  }

  /** The outer loop: the covers of every album. */
  method SortCovers(info: Info) returns (ret: map<Path, Path>, flac: set<Path>)
    requires TypedInfo(info)
    ensures Sorted(ret, flac, InfoCovers(info), map[], {})
  {
    ret, flac := map[], {};
    var keys := info.Keys;
    ghost var done: set<Option<string>> := {};
    while keys != {}
      invariant keys <= info.Keys
      invariant forall a :: a in done <==> a in info && a !in keys
      invariant Sorted(ret, flac, AlbumCovers(info, done), map[], {})
      decreases |keys|
    {
      var album :| album in keys;
      AlbumTyped(info, album);
      ghost var before, flacBefore := ret, flac;
      ret, flac := SortDiscCovers(info[album], ret, flac);
      AlbumCoversStep(info, done, album);
      SortedTrans(before, flacBefore, ret, flac, AlbumCovers(info, done),
                  DiscCovers(info[album], info[album].Keys), map[], {});
      done := done + {album};
      keys := keys - {album};
    }
    assert done == info.Keys;
  }

  lemma AlbumCoversStep(info: Info, done: set<Option<string>>, album: Option<string>)
    requires album in info
    ensures AlbumCovers(info, done + {album}) == AlbumCovers(info, done) + DiscCovers(info[album], info[album].Keys)
  {
  }

  // ---------------------------------------------------------------- the second pass

  /** `map_covers`: every cover of the table mapped to where it is read from.
      `extracted` logs the pictures extracted, in order, and `failed` the
      covers whose extraction was reported as failed. */
  method MapCovers(fs: FileSystem, info: Info)
    returns (ret: map<Path, Path>, ghost extracted: seq<Path>, ghost failed: set<Path>)
    requires TypedInfo(info)
    ensures ret == CoverMap(fs, info)
    ensures Archives.NoDuplicates(extracted)
    ensures forall c :: c in extracted <==> c in InfoCovers(info) && IsFlacCover(c)
    ensures forall c :: c in failed <==> c in extracted && !fs.pictureOk(c)
  {
    var plain, flac := SortCovers(info);
    ret, extracted, failed := ExtractCovers(fs, plain, flac);
    CoverMapIs(fs, info, plain, flac, ret);
  }

  /** The second loop: extract the picture of every FLAC cover, once each. */
  method ExtractCovers(fs: FileSystem, ret0: map<Path, Path>, flac: set<Path>)
    returns (ret: map<Path, Path>, ghost extracted: seq<Path>, ghost failed: set<Path>)
    ensures forall c :: c in ret <==> c in ret0 || c in flac
    ensures forall c :: c in ret ==> ret[c] == if c in flac then fs.coverTemp(c) else ret0[c]
    ensures Archives.NoDuplicates(extracted)
    ensures forall c :: c in extracted <==> c in flac
    ensures forall c :: c in failed <==> c in flac && !fs.pictureOk(c)
  {
    ret, extracted, failed := ret0, [], {};
    var pending := flac;
    while pending != {}
      invariant Extracting(fs, ret0, flac, pending, ret, extracted, failed)
      decreases |pending|
    {
      var cover :| cover in pending;
      var ok := fs.pictureOk(cover);
      ExtractStep(fs, ret0, flac, pending, ret, extracted, failed, cover);
      if !ok {
        failed := failed + {cover};
      }
      ret := ret[cover := fs.coverTemp(cover)];
      extracted := extracted + [cover];
      pending := pending - {cover};
    }
  }

  /** The state of the second loop once the covers outside `pending` are
      extracted. */
  ghost predicate Extracting(fs: FileSystem, ret0: map<Path, Path>, flac: set<Path>, pending: set<Path>,
                             ret: map<Path, Path>, extracted: seq<Path>, failed: set<Path>)
  {
    && pending <= flac
    && Archives.NoDuplicates(extracted)
    && (forall c :: c in extracted <==> c in flac && c !in pending)
    && (forall c :: c in failed <==> c in flac && c !in pending && !fs.pictureOk(c))
    && (forall c :: c in ret <==> c in ret0 || (c in flac && c !in pending))
    && (forall c :: c in ret ==> ret[c] == if c in flac && c !in pending then fs.coverTemp(c) else ret0[c])
  }

  lemma ExtractStep(fs: FileSystem, ret0: map<Path, Path>, flac: set<Path>, pending: set<Path>,
                    ret: map<Path, Path>, extracted: seq<Path>, failed: set<Path>, cover: Path)
    requires Extracting(fs, ret0, flac, pending, ret, extracted, failed)
    requires cover in pending
    ensures Extracting(fs, ret0, flac, pending - {cover}, ret[cover := fs.coverTemp(cover)], extracted + [cover],
                       if fs.pictureOk(cover) then failed else failed + {cover})
  {
  }

  /** The two passes together give the cover map. */
  lemma CoverMapIs(fs: FileSystem, info: Info, plain: map<Path, Path>, flac: set<Path>, ret: map<Path, Path>)
    requires Sorted(plain, flac, InfoCovers(info), map[], {})
    requires forall c :: c in ret <==> c in plain || c in flac
    requires forall c :: c in ret ==> ret[c] == if c in flac then fs.coverTemp(c) else plain[c]
    ensures ret == CoverMap(fs, info)
  {
    SortedMapIs(fs, InfoCovers(info), plain, flac, ret);
  }

  lemma SortedMapIs(fs: FileSystem, covers: set<Path>, plain: map<Path, Path>, flac: set<Path>, ret: map<Path, Path>)
    requires Sorted(plain, flac, covers, map[], {})
    requires forall c :: c in ret <==> c in plain || c in flac
    requires forall c :: c in ret ==> ret[c] == if c in flac then fs.coverTemp(c) else plain[c]
    ensures ret == map c | c in covers :: Target(fs, c)
  {
    SortedEntries(fs, covers, plain, flac, ret);
    EntriesMapIs(fs, covers, ret);
  }

  /** A map is the cover map of `covers` once its keys and values are. */
  lemma EntriesMapIs(fs: FileSystem, covers: set<Path>, ret: map<Path, Path>)
    requires forall c :: c in ret <==> c in covers
    requires forall c :: c in ret ==> ret[c] == Target(fs, c)
    ensures ret == map c | c in covers :: Target(fs, c)
  {
    MapFromEntries(ret, covers, c => Target(fs, c));
  }

  lemma MapFromEntries<K, V>(m: map<K, V>, keys: set<K>, f: K -> V)
    requires forall k :: k in m <==> k in keys
    requires forall k :: k in m ==> m[k] == f(k)
    ensures m == map k | k in keys :: f(k)
  {
    var m' := map k | k in keys :: f(k);
    assert m.Keys == m'.Keys;
  }

  /** The entries of the two passes, key by key. */
  lemma SortedEntries(fs: FileSystem, covers: set<Path>, plain: map<Path, Path>, flac: set<Path>, ret: map<Path, Path>)
    requires Sorted(plain, flac, covers, map[], {})
    requires forall c :: c in ret <==> c in plain || c in flac
    requires forall c :: c in ret ==> ret[c] == if c in flac then fs.coverTemp(c) else plain[c]
    ensures forall c :: c in ret <==> c in covers
    ensures forall c :: c in ret ==> ret[c] == Target(fs, c)
  {
    forall c ensures c in ret <==> c in covers {
      assert c in plain <==> c in covers && !IsFlacCover(c);
      assert c in flac <==> c in covers && IsFlacCover(c);
    }
    forall c | c in ret ensures ret[c] == Target(fs, c) {
      assert c in flac <==> IsFlacCover(c);
    }
  }
}
