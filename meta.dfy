/** The values a manifest produces and the nested table it fills.

    A tag map holds strings, the integers of `DISCNUMBER` and `TRACKNUMBER`,
    the paths of `INPUT` and `COVER`, and the `None` the global scope starts
    with.  The table is keyed by album (`None` or a string), then by disc
    (`None` or an integer), then by track number. */
module Meta {
  import opened Wrappers
  import opened Text
  import opened Fs

  datatype Value = Str(s: string) | Int(n: nat) | PathVal(p: Path) | Null

  type Tags = map<string, Value>

  type Info = map<Option<string>, map<Option<nat>, map<nat, Tags>>>

  /** Python's `str(v)`. */
  function ToStr(v: Value): string {
    match v
    case Str(s) => s
    case Int(n) => NatToDecimal(n)
    case PathVal(p) => PathString(p)
    case Null => "None"
  }

  /** The `INPUT` and `COVER` entries, where there are any, are paths. */
  predicate TypedPaths(t: Tags) {
    ("INPUT" in t ==> t["INPUT"].PathVal?) && ("COVER" in t ==> t["COVER"].PathVal?)
  }

  /** The global scope: besides `INPUT` and `COVER`, `ALBUM` is a string or `None` and
      `DISCNUMBER` an integer or `None`, so that both can key the table. */
  predicate TypedGlobal(g: Tags) {
    TypedPaths(g) &&
    ("ALBUM" in g ==> g["ALBUM"].Str? || g["ALBUM"].Null?) &&
    ("DISCNUMBER" in g ==> g["DISCNUMBER"].Int? || g["DISCNUMBER"].Null?)
  }

  /** The album key a global `ALBUM` value selects. */
  function AlbumKey(v: Value): Option<string>
    requires v.Str? || v.Null?
  {
    if v.Str? then Some(v.s) else None
  }

  /** The disc key a global `DISCNUMBER` value selects. */
  function DiscKey(v: Value): Option<nat>
    requires v.Int? || v.Null?
  {
    if v.Int? then Some(v.n) else None
  }

  predicate Has(info: Info, album: Option<string>, disc: Option<nat>, num: nat) {
    album in info && disc in info[album] && num in info[album][disc]
  }

  function Get(info: Info, album: Option<string>, disc: Option<nat>, num: nat): Tags
    requires Has(info, album, disc, num)
  {
    info[album][disc][num]
  }

  ghost predicate TypedInfo(info: Info) {
    forall album, disc, num :: Has(info, album, disc, num) ==> TypedPaths(Get(info, album, disc, num))
  }

  /** The chain of `setdefault`s that reaches one record, followed by storing
      `t` there. */
  function Store(info: Info, album: Option<string>, disc: Option<nat>, num: nat, t: Tags): Info {
    var discs: map<Option<nat>, map<nat, Tags>> := if album in info then info[album] else map[];
    var tracks: map<nat, Tags> := if disc in discs then discs[disc] else map[];
    info[album := discs[disc := tracks[num := t]]]
  }

  /** Storing a record creates or replaces that record and leaves every other
      record, and every other album and disc, as it was. */
  lemma StoreFrame(info: Info, album: Option<string>, disc: Option<nat>, num: nat, t: Tags,
                   a: Option<string>, d: Option<nat>, n: nat)
    ensures Has(Store(info, album, disc, num, t), a, d, n) <==>
      Has(info, a, d, n) || (a == album && d == disc && n == num)
    ensures a == album && d == disc && n == num ==> Get(Store(info, album, disc, num, t), a, d, n) == t
    ensures !(a == album && d == disc && n == num) && Has(info, a, d, n) ==>
      Get(Store(info, album, disc, num, t), a, d, n) == Get(info, a, d, n)
  {
  }

  /** Storing a record never removes an album or a disc, and leaves no level
      empty that was not. */
  lemma StoreKeys(info: Info, album: Option<string>, disc: Option<nat>, num: nat, t: Tags)
    ensures Store(info, album, disc, num, t).Keys == info.Keys + {album}
    ensures Store(info, album, disc, num, t)[album].Keys ==
      (if album in info then info[album].Keys else {}) + {disc}
  {
  }

  lemma StoreTyped(info: Info, album: Option<string>, disc: Option<nat>, num: nat, t: Tags)
    requires TypedInfo(info) && TypedPaths(t)
    ensures TypedInfo(Store(info, album, disc, num, t))
  {
    forall a, d, n | Has(Store(info, album, disc, num, t), a, d, n)
      ensures TypedPaths(Get(Store(info, album, disc, num, t), a, d, n))
    {
      StoreFrame(info, album, disc, num, t, a, d, n);
    }
  }

  lemma UpdateTwice<K, V>(m: map<K, V>, k: K, v: V, v': V)
    ensures m[k := v][k := v'] == m[k := v']
  {
  }

  /** Storing twice at one place keeps the second record. */
  lemma StoreTwice(info: Info, album: Option<string>, disc: Option<nat>, num: nat, t: Tags, t': Tags)
    ensures Store(Store(info, album, disc, num, t), album, disc, num, t') == Store(info, album, disc, num, t')
  {
    var discs: map<Option<nat>, map<nat, Tags>> := if album in info then info[album] else map[];
    var tracks: map<nat, Tags> := if disc in discs then discs[disc] else map[];
    var inner := discs[disc := tracks[num := t]];
    assert Store(info, album, disc, num, t) == info[album := inner];
    UpdateTwice(tracks, num, t, t');
    UpdateTwice(discs, disc, tracks[num := t], tracks[num := t']);
    UpdateTwice(info, album, inner, discs[disc := tracks[num := t']]);
  }
}
