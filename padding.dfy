/** `calc_padding` (tracktagger.py:247-260): the zero-padding widths used when
    printing disc and track numbers, one disc width per album and one track
    width per disc.

    The source computes `floor(log10(m)) + 1` in floating point; here it is
    the integer digit count `NumDigits(m)` (see `Text.NumDigitsBounds`).
    `log10(0)` and `max` of nothing both raise `ValueError`. */
module Padding {
  import opened Wrappers
  import opened Text
  import opened Meta

  /** The `ValueError` of `math.log10(0)` or of `max` over no tracks. */
  datatype PaddingError = NoDigitCount

  type Discs = map<Option<nat>, map<nat, Tags>>

  /** The largest element of a non-empty finite set. */
  ghost function MaxOf(s: set<nat>): (m: nat)
    requires s != {}
    ensures m in s && forall x :: x in s ==> x <= m
  {
    var x :| x in s;
    var rest := s - {x};
    if rest == {} then
      assert forall y :: y in s ==> y in rest || y == x;
      x
    else
      var y := MaxOf(rest);
      assert forall z :: z in s ==> z in rest || z == x;
      if x < y then y else x
  }

  /** The largest element is the only element that bounds all the others. */
  lemma MaxOfUnique(s: set<nat>, m: nat)
    requires m in s && forall x :: x in s ==> x <= m
    ensures MaxOf(s) == m
  {
  }

  /** The discs of an album other than `None`. */
  ghost function DiscNumbers(discs: Discs): set<nat> {
    set k | k in discs && k.Some? :: k.value
  }

  /** The disc width of an album: the digit count of its largest disc, 0 when
      it has only the `None` disc. */
  ghost function DiscWidth(discs: Discs): Result<nat, PaddingError> {
    var ds := DiscNumbers(discs);
    if ds == {} then Ok(0)
    else
      var m := MaxOf(ds);
      if m == 0 then Err(NoDigitCount) else Ok(NumDigits(m))
  }

  /** The track width of a disc: the digit count of its largest track. */
  ghost function TrackWidth(tracks: map<nat, Tags>): Result<nat, PaddingError> {
    if tracks.Keys == {} then Err(NoDigitCount)
    else
      var m := MaxOf(tracks.Keys);
      if m == 0 then Err(NoDigitCount) else Ok(NumDigits(m))
  }

  ghost predicate AlbumOk(discs: Discs) {
    DiscWidth(discs).Ok? && forall d :: d in discs ==> TrackWidth(discs[d]).Ok?
  }

  ghost predicate PaddingOk(info: Info) {
    forall a :: a in info ==> AlbumOk(info[a])
  }

  ghost function TrackWidths(discs: Discs): map<Option<nat>, nat>
    requires AlbumOk(discs)
  {
    map d | d in discs :: TrackWidth(discs[d]).value
  }

  // ---------------------------------------------------------------- what the widths mean

  /** A track width cannot be computed exactly when every track number is 0
      (or there are none). */
  lemma TrackWidthFails(tracks: map<nat, Tags>)
    ensures TrackWidth(tracks).Err? <==> forall n :: n in tracks ==> n == 0
  {
    if tracks.Keys != {} && MaxOf(tracks.Keys) == 0 {
      assert forall n :: n in tracks ==> n <= 0;
    }
  }

  /** Every track number padded to the track width has exactly that width, and
      some track needs all of it: the width is the least that fits them all. */
  lemma {:induction false} TrackWidthFits(tracks: map<nat, Tags>)
    requires TrackWidth(tracks).Ok?
    ensures forall n :: n in tracks ==> |ZeroPad(n, TrackWidth(tracks).value)| == TrackWidth(tracks).value
    ensures exists n :: n in tracks && NumDigits(n) == TrackWidth(tracks).value
  {
    var m := MaxOf(tracks.Keys);
    WidthFits(tracks.Keys, m);
  }

  /** A disc width cannot be computed exactly when the album has discs other
      than `None` and all of them are 0. */
  lemma DiscWidthFails(discs: Discs)
    ensures DiscWidth(discs).Err? <==>
      DiscNumbers(discs) != {} && forall d :: d in DiscNumbers(discs) ==> d == 0
  {
    var ds := DiscNumbers(discs);
    if ds != {} && MaxOf(ds) == 0 {
      assert forall d :: d in ds ==> d <= 0;
    }
  }

  /** An album with only the `None` disc gets width 0; otherwise every disc
      padded to the width has exactly that width and some disc needs all of
      it. */
  lemma {:induction false} DiscWidthFits(discs: Discs)
    requires DiscWidth(discs).Ok?
    ensures DiscNumbers(discs) == {} ==> DiscWidth(discs).value == 0
    ensures DiscNumbers(discs) != {} ==>
      (forall d :: d in DiscNumbers(discs) ==> |ZeroPad(d, DiscWidth(discs).value)| == DiscWidth(discs).value) &&
      (exists d :: d in DiscNumbers(discs) && NumDigits(d) == DiscWidth(discs).value)
  {
    var ds := DiscNumbers(discs);
    if ds != {} {
      WidthFits(ds, MaxOf(ds));
    }
  }

  /** Padding to the digit count of a positive maximum gives every element
      exactly that width. */
  lemma WidthFits(s: set<nat>, m: nat)
    requires m in s && m >= 1 && forall x :: x in s ==> x <= m
    ensures forall x :: x in s ==> |ZeroPad(x, NumDigits(m))| == NumDigits(m)
    ensures exists x :: x in s && NumDigits(x) == NumDigits(m)
  {
    NumDigitsBounds(m);
    forall x | x in s
      ensures |ZeroPad(x, NumDigits(m))| == NumDigits(m)
    {
      if x >= 1 {
        NumDigitsMonotone(x, m);
      } else {
        assert NatToDecimal(x) == [DigitChar(0)];
      }
    }
  }

  // ---------------------------------------------------------------- the computation

  /** The largest disc other than `None`, if there is one. */
  method MaxDisc(discs: Discs) returns (m: Option<nat>)
    ensures m.None? <==> DiscNumbers(discs) == {}
    ensures m.Some? ==> m.value == MaxOf(DiscNumbers(discs))
  {
    m := None;
    var keys := discs.Keys;
    while keys != {}
      invariant keys <= discs.Keys
      invariant m.None? ==> forall k :: k in discs && k !in keys ==> k.None?
      invariant m.Some? ==> m in discs && forall k :: k in discs && k !in keys && k.Some? ==> k.value <= m.value
      decreases |keys|
    {
      var k: Option<nat> :| k in keys;
      if k.Some? && (m.None? || k.value > m.value) {
        m := k;
      }
      keys := keys - {k};
    }
    if m.Some? {
      assert m.value in DiscNumbers(discs);
      MaxOfUnique(DiscNumbers(discs), m.value);
    }
  }

  /** The largest track number of a disc, if it has any track. */
  method MaxTrack(tracks: map<nat, Tags>) returns (m: Option<nat>)
    ensures m.None? <==> tracks.Keys == {}
    ensures m.Some? ==> m.value == MaxOf(tracks.Keys)
  {
    m := None;
    var keys := tracks.Keys;
    while keys != {}
      invariant keys <= tracks.Keys
      invariant m.None? ==> keys == tracks.Keys
      invariant m.Some? ==> m.value in tracks && forall x :: x in tracks && x !in keys ==> x <= m.value
      decreases |keys|
    {
      var k :| k in keys;
      if m.None? || k > m.value {
        m := Some(k);
      }
      keys := keys - {k};
    }
    if m.Some? {
      MaxOfUnique(tracks.Keys, m.value);
    }
  }

  /** The track widths of one album's discs. */
  method TrackPadding(discs: Discs) returns (r: Result<map<Option<nat>, nat>, PaddingError>)
    ensures r.Err? <==> exists d :: d in discs && TrackWidth(discs[d]).Err?
    ensures r.Ok? ==>
      r.value.Keys == discs.Keys &&
      forall d :: d in discs ==> r.value[d] == TrackWidth(discs[d]).value
  {
    var widths: map<Option<nat>, nat> := map[];
    var keys := discs.Keys;
    while keys != {}
      invariant keys <= discs.Keys
      invariant forall d :: d in widths <==> d in discs && d !in keys
      invariant forall d :: d in widths ==> TrackWidth(discs[d]) == Ok(widths[d])
      decreases |keys|
    {
      var disc :| disc in keys;
      var m := MaxTrack(discs[disc]);
      if m.None? || m.value == 0 {
        return Err(NoDigitCount);
      }
      widths := widths[disc := NumDigits(m.value)];
      keys := keys - {disc};
    }
    assert widths.Keys == discs.Keys;
    return Ok(widths);
  }

  /** The widths of one album: its disc width and the track width of each of
      its discs. */
  method AlbumPadding(discs: Discs) returns (r: Result<(nat, map<Option<nat>, nat>), PaddingError>)
    ensures r.Err? <==> !AlbumOk(discs)
    ensures r.Ok? ==> r.value.0 == DiscWidth(discs).value && r.value.1 == TrackWidths(discs)
  {
    var m := MaxDisc(discs);
    if m.Some? && m.value == 0 {
      return Err(NoDigitCount);
    }
    var width := if m.Some? then NumDigits(m.value) else 0;
    var tracks := TrackPadding(discs);
    if tracks.Err? {
      return Err(NoDigitCount);
    }
    assert tracks.value == TrackWidths(discs);
    return Ok((width, tracks.value));
  }

  /** `calc_padding`: the disc width of every album and the track width of
      every disc, or `ValueError` if one of them cannot be computed. */
  method CalcPadding(info: Info)
    returns (r: Result<(map<Option<string>, nat>, map<Option<string>, map<Option<nat>, nat>>), PaddingError>)
    ensures r.Err? <==> !PaddingOk(info)
    ensures r.Ok? ==>
      r.value.0.Keys == info.Keys && r.value.1.Keys == info.Keys &&
      forall a :: a in info ==> r.value.0[a] == DiscWidth(info[a]).value && r.value.1[a] == TrackWidths(info[a])
  {
    var discRet: map<Option<string>, nat> := map[];
    var trackRet: map<Option<string>, map<Option<nat>, nat>> := map[];
    var albums := info.Keys;
    while albums != {}
      invariant albums <= info.Keys
      invariant forall a :: a in discRet <==> a in info && a !in albums
      invariant trackRet.Keys == discRet.Keys
      invariant forall a :: a in discRet ==>
        AlbumOk(info[a]) && discRet[a] == DiscWidth(info[a]).value && trackRet[a] == TrackWidths(info[a])
      decreases |albums|
    {
      var album :| album in albums;
      var widths := AlbumPadding(info[album]);
      if widths.Err? {
        return Err(NoDigitCount);
      }
      discRet := discRet[album := widths.value.0];
      trackRet := trackRet[album := widths.value.1];
      albums := albums - {album};
    }
    assert discRet.Keys == info.Keys;
    return Ok((discRet, trackRet));
  }
}
