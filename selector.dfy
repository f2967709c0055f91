/**
 * Quality selection with fallback (getVideoFormat_safe, getAudioFormat_safe and
 * isVideoFormat in src/routes/youtube/ytHelpers.ts): look for the requested tier,
 * then walk the tier's fixed "up" list, then its fixed "down" list, and return the
 * first format that matches the first tier that has one.
 */
module Selector {
  import opened Text
  import opened Types
  import opened Formats

  /** One row of a fallback table; the source's `null` lists are empty here. */
  datatype Fallback = Fallback(up: seq<int>, down: seq<int>)

  const VideoTiers: seq<int> := [4320, 2160, 1440, 1080, 720, 480, 360, 240, 144]
  const AudioTiers: seq<int> := [160, 128, 64, 48]

  /** The video `safe_map`; None where `safe_map.get(quality)` is undefined. */
  function VideoFallback(quality: int): (r: Option<Fallback>)
    ensures r.Some? <==> quality in VideoTiers
  {
    if quality == 4320 then Some(Fallback([], [2160, 1440, 1080, 720, 480, 360, 240, 144]))
    else if quality == 2160 then Some(Fallback([4320], [1440, 1080, 720, 480, 360, 240, 144]))
    else if quality == 1440 then Some(Fallback([2160, 4320], [1080, 720, 480, 360, 240, 144]))
    else if quality == 1080 then Some(Fallback([1440, 2160, 4320], [720, 480, 360, 240, 144]))
    else if quality == 720 then Some(Fallback([1080, 1440, 2160, 4320], [480, 360, 240, 144]))
    else if quality == 480 then Some(Fallback([720, 1080, 1440, 2160, 4320], [360, 240, 144]))
    else if quality == 360 then Some(Fallback([480, 720, 1080, 1440, 2160, 4320], [240, 144]))
    else if quality == 240 then Some(Fallback([360, 480, 720, 1080, 1440, 2160, 4320], [144]))
    else if quality == 144 then Some(Fallback([240, 360, 480, 720, 1080, 1440, 2160, 4320], []))
    else None
  }

  /** The audio `safe_map`. */
  function AudioFallback(quality: int): (r: Option<Fallback>)
    ensures r.Some? <==> quality in AudioTiers
  {
    if quality == 160 then Some(Fallback([], [128, 64, 48]))
    else if quality == 128 then Some(Fallback([160], [64, 48]))
    else if quality == 64 then Some(Fallback([128, 160], [48]))
    else if quality == 48 then Some(Fallback([64, 128, 160], []))
    else None
  }

  /** isVideoFormat: membership in the set of video tiers. */
  function IsVideoFormat(quality: int): (r: bool)
    ensures r <==> quality in VideoTiers
  {
    quality in {4320, 2160, 1440, 1080, 720, 480, 360, 240, 144}
  }

  /** The tiers isVideoFormat accepts are exactly the keys of the video fallback table. */
  lemma IsVideoFormatIsTableKey(quality: int)
    ensures IsVideoFormat(quality) <==> VideoFallback(quality).Some?
    ensures IsVideoFormat(quality) <==> quality in VideoTiers
  {
  }

  predicate Ascending(s: seq<int>) {
    forall a, b :: 0 <= a < b < |s| ==> s[a] < s[b]
  }

  predicate Descending(s: seq<int>) {
    forall a, b :: 0 <= a < b < |s| ==> s[a] > s[b]
  }

  /**
   * The shape of a fallback table over `tiers`: every row's up list is ascending and
   * above the key, its down list descending and below it, and key, up and down
   * together are exactly the tiers.
   */
  predicate WellShapedRow(quality: int, row: Fallback, tiers: seq<int>) {
    && Ascending(row.up) && Descending(row.down)
    && (forall t :: t in row.up ==> t > quality && t in tiers)
    && (forall t :: t in row.down ==> t < quality && t in tiers)
    && (forall t :: t in tiers ==> t == quality || t in row.up || t in row.down)
  }

  /** `s` backwards. */
  function Reverse(s: seq<int>): (r: seq<int>)
    ensures |r| == |s| && forall k :: 0 <= k < |s| ==> r[k] == s[|s| - 1 - k]
  {
    if s == [] then [] else Reverse(s[1..]) + [s[0]]
  }

  /**
   * Each table row splits the tier list at its key: the up list is the higher tiers
   * nearest first, the down list the lower tiers nearest first.
   */
  lemma {:induction false} VideoTableIsSplit(i: int)
    requires 0 <= i < |VideoTiers|
    ensures VideoFallback(VideoTiers[i]) == Some(Fallback(Reverse(VideoTiers[..i]), VideoTiers[i + 1..]))
  {
    RowIsSplit(VideoTiers, i, VideoFallback(VideoTiers[i]).value);
  }

  lemma {:induction false} AudioTableIsSplit(i: int)
    requires 0 <= i < |AudioTiers|
    ensures AudioFallback(AudioTiers[i]) == Some(Fallback(Reverse(AudioTiers[..i]), AudioTiers[i + 1..]))
  {
    RowIsSplit(AudioTiers, i, AudioFallback(AudioTiers[i]).value);
  }

  /** A row whose up list is the tiers before position i, nearest first, and whose down list the tiers after it, splits the tiers at i. */
  lemma RowIsSplit(tiers: seq<int>, i: int, row: Fallback)
    requires 0 <= i < |tiers|
    requires |row.up| == i && forall k :: 0 <= k < i ==> row.up[k] == tiers[i - 1 - k]
    requires row.down == tiers[i + 1..]
    ensures row == Fallback(Reverse(tiers[..i]), tiers[i + 1..])
  {
    assert row.up == Reverse(tiers[..i]);
  }

  /** Splitting a descending tier list at position i gives a well-shaped row. */
  lemma SplitRowShape(tiers: seq<int>, i: int)
    requires Descending(tiers) && 0 <= i < |tiers|
    ensures WellShapedRow(tiers[i], Fallback(Reverse(tiers[..i]), tiers[i + 1..]), tiers)
  {
    var up := Reverse(tiers[..i]);
    forall t | t in tiers
      ensures t == tiers[i] || t in up || t in tiers[i + 1..]
    {
      var k :| 0 <= k < |tiers| && tiers[k] == t;
      if k < i {
        assert up[i - 1 - k] == t;
      } else if k > i {
        assert tiers[i + 1..][k - i - 1] == t;
      }
    }
  }

  lemma VideoTableShape(quality: int)
    requires quality in VideoTiers
    ensures VideoFallback(quality).Some?
    ensures WellShapedRow(quality, VideoFallback(quality).value, VideoTiers)
  {
    var i :| 0 <= i < |VideoTiers| && VideoTiers[i] == quality;
    VideoTableIsSplit(i);
    VideoTiersDescending();
    SplitRowShape(VideoTiers, i);
  }

  lemma VideoTiersDescending()
    ensures Descending(VideoTiers)
  {
  }

  lemma AudioTableShape(quality: int)
    requires quality in AudioTiers
    ensures AudioFallback(quality).Some?
    ensures WellShapedRow(quality, AudioFallback(quality).value, AudioTiers)
  {
    var i :| 0 <= i < |AudioTiers| && AudioTiers[i] == quality;
    AudioTableIsSplit(i);
    SplitRowShape(AudioTiers, i);
  }

  // ---------------------------------------------------------------------------
  // The search, as a specification

  /** The outcome of a safe selector; `UnknownTier` is the TypeError of reading `.up` of undefined. */
  datatype Selection = Picked(format: Format) | NoMatch | UnknownTier

  /** `formats.findIndex(format => matches(t, format))`: the first matching position, or -1. */
  function FindIndex(fs: seq<Format>, t: int, matches: (int, Format) -> bool): (i: int)
    ensures -1 <= i < |fs|
    ensures i == -1 <==> forall k :: 0 <= k < |fs| ==> !matches(t, fs[k])
    ensures 0 <= i ==> matches(t, fs[i]) && forall k :: 0 <= k < i ==> !matches(t, fs[k])
  {
    if fs == [] then -1
    else if matches(t, fs[0]) then 0
    else
      var j := FindIndex(fs[1..], t, matches);
      if j == -1 then -1 else j + 1
  }

  /** Exact video search: the label starts with `${quality}p`. */
  predicate VideoExactMatch(quality: int, f: Format) {
    IntText(quality) + "p" <= f.qualityLabel
  }

  /** Up/down video search: the label starts with `${Q}`, without the "p". */
  predicate VideoTierMatch(tier: int, f: Format) {
    IntText(tier) <= f.qualityLabel
  }

  /** Audio search, exact and fallback alike: `format.audioBitrate === quality`. */
  predicate AudioBitrateMatch(bitrate: int, f: Format) {
    f.audioBitrate == bitrate
  }

  /** Walks `tiers` in order and returns the first format matching the first tier that has one. */
  function TierWalk(fs: seq<Format>, tiers: seq<int>, matches: (int, Format) -> bool): Selection {
    if tiers == [] then NoMatch
    else
      var i := FindIndex(fs, tiers[0], matches);
      if i != -1 then Picked(fs[i]) else TierWalk(fs, tiers[1..], matches)
  }

  /** Exact search first; for a tier outside the table, a TypeError; otherwise up then down. */
  function SafeSelect(fs: seq<Format>, quality: int, exact: (int, Format) -> bool,
                      tierMatch: (int, Format) -> bool, table: int -> Option<Fallback>): Selection
  {
    var i := FindIndex(fs, quality, exact);
    if i != -1 then Picked(fs[i])
    else match table(quality)
      case None => UnknownTier
      case Some(row) => TierWalk(fs, row.up + row.down, tierMatch)
  }

  /**
   * The video selector picks one of the given formats; it throws (UnknownTier) exactly
   * for a tier outside the table that no label matches exactly.
   */
  function SelectVideo(fs: seq<Format>, quality: int): (r: Selection)
    ensures r.Picked? ==> r.format in fs
    ensures r.UnknownTier? <==> quality !in VideoTiers && forall x :: 0 <= x < |fs| ==> !VideoExactMatch(quality, fs[x])
  {
    SelectOutcome(fs, quality, VideoExactMatch, VideoTierMatch, VideoFallback);
    SafeSelect(fs, quality, VideoExactMatch, VideoTierMatch, VideoFallback)
  }

  /**
   * The audio selector picks one of the given formats; it throws (UnknownTier) exactly
   * for a bitrate outside the table that no format has.
   */
  function SelectAudio(fs: seq<Format>, quality: int): (r: Selection)
    ensures r.Picked? ==> r.format in fs
    ensures r.UnknownTier? <==> quality !in AudioTiers && forall x :: 0 <= x < |fs| ==> fs[x].audioBitrate != quality
  {
    SelectOutcome(fs, quality, AudioBitrateMatch, AudioBitrateMatch, AudioFallback);
    SafeSelect(fs, quality, AudioBitrateMatch, AudioBitrateMatch, AudioFallback)
  }

  // ---------------------------------------------------------------------------
  // Properties of the walk

  /** No format matches any of the tiers tiers[lo..hi]. */
  predicate NoTierHits(fs: seq<Format>, tiers: seq<int>, lo: int, hi: int, matches: (int, Format) -> bool)
    requires 0 <= lo <= hi <= |tiers|
  {
    forall j, x :: lo <= j < hi && 0 <= x < |fs| ==> !matches(tiers[j], fs[x])
  }

  /** fs[i] is the first format matching tier t. */
  predicate FirstMatchAt(fs: seq<Format>, t: int, i: int, matches: (int, Format) -> bool) {
    0 <= i < |fs| && matches(t, fs[i]) && forall x :: 0 <= x < i ==> !matches(t, fs[x])
  }

  /** The walk returns the first match of the first tier that has any match. */
  lemma {:induction false} TierWalkFirstHit(fs: seq<Format>, tiers: seq<int>, matches: (int, Format) -> bool, k: int, i: int)
    requires 0 <= k < |tiers| && NoTierHits(fs, tiers, 0, k, matches)
    requires FirstMatchAt(fs, tiers[k], i, matches)
    ensures TierWalk(fs, tiers, matches) == Picked(fs[i])
  {
    var h := FindIndex(fs, tiers[0], matches);
    if k == 0 {
      assert h == i;
    } else {
      assert h == -1 by {
        assert forall x :: 0 <= x < |fs| ==> !matches(tiers[0], fs[x]);
      }
      assert NoTierHits(fs, tiers[1..], 0, k - 1, matches) by {
        forall j, x | 0 <= j < k - 1 && 0 <= x < |fs|
          ensures !matches(tiers[1..][j], fs[x])
        {
          assert tiers[1..][j] == tiers[j + 1];
        }
      }
      TierWalkFirstHit(fs, tiers[1..], matches, k - 1, i);
    }
  }

  /**
   * The walk finds nothing exactly when no format matches any tier; otherwise it
   * returns an element of the input that matches one of the tiers.
   */
  lemma {:induction false} TierWalkOutcome(fs: seq<Format>, tiers: seq<int>, matches: (int, Format) -> bool)
    ensures TierWalk(fs, tiers, matches) == NoMatch <==> NoTierHits(fs, tiers, 0, |tiers|, matches)
    ensures !TierWalk(fs, tiers, matches).UnknownTier?
    ensures TierWalk(fs, tiers, matches).Picked? ==>
              TierWalk(fs, tiers, matches).format in fs
              && exists j :: 0 <= j < |tiers| && matches(tiers[j], TierWalk(fs, tiers, matches).format)
  {
    if tiers != [] {
      var i := FindIndex(fs, tiers[0], matches);
      TierWalkOutcome(fs, tiers[1..], matches);
      if i == -1 {
        var r := TierWalk(fs, tiers[1..], matches);
        if r.Picked? {
          var j :| 0 <= j < |tiers[1..]| && matches(tiers[1..][j], r.format);
          assert matches(tiers[j + 1], r.format);
        }
        if NoTierHits(fs, tiers[1..], 0, |tiers| - 1, matches) {
          forall j, x | 0 <= j < |tiers| && 0 <= x < |fs|
            ensures !matches(tiers[j], fs[x])
          {
            if j > 0 {
              assert tiers[1..][j - 1] == tiers[j];
            }
          }
        }
        if NoTierHits(fs, tiers, 0, |tiers|, matches) {
          forall j, x | 0 <= j < |tiers| - 1 && 0 <= x < |fs|
            ensures !matches(tiers[1..][j], fs[x])
          {
            assert tiers[1..][j] == tiers[j + 1];
          }
        }
      } else {
        assert matches(tiers[0], fs[i]);
      }
    }
  }

  /** Exact match comes first: the first format matching the request exactly is returned. */
  lemma ExactMatchFirst(fs: seq<Format>, quality: int, exact: (int, Format) -> bool,
                        tierMatch: (int, Format) -> bool, table: int -> Option<Fallback>, i: int)
    requires FirstMatchAt(fs, quality, i, exact)
    ensures SafeSelect(fs, quality, exact, tierMatch, table) == Picked(fs[i])
  {
  }

  /**
   * Up beats down: without an exact match, the first up tier with any match decides,
   * and its first matching format is returned.
   */
  lemma UpTierWins(fs: seq<Format>, quality: int, exact: (int, Format) -> bool,
                   tierMatch: (int, Format) -> bool, table: int -> Option<Fallback>, k: int, i: int)
    requires FindIndex(fs, quality, exact) == -1
    requires table(quality).Some?
    requires 0 <= k < |table(quality).value.up|
    requires NoTierHits(fs, table(quality).value.up, 0, k, tierMatch)
    requires FirstMatchAt(fs, table(quality).value.up[k], i, tierMatch)
    ensures SafeSelect(fs, quality, exact, tierMatch, table) == Picked(fs[i])
  {
    var row := table(quality).value;
    var tiers := row.up + row.down;
    assert tiers[k] == row.up[k];
    assert NoTierHits(fs, tiers, 0, k, tierMatch) by {
      forall j, x | 0 <= j < k && 0 <= x < |fs|
        ensures !tierMatch(tiers[j], fs[x])
      {
        assert tiers[j] == row.up[j];
      }
    }
    TierWalkFirstHit(fs, tiers, tierMatch, k, i);
  }

  /**
   * Down tiers are tried only when no up tier matches: then the first down tier with
   * any match decides.
   */
  lemma DownTierAfterUp(fs: seq<Format>, quality: int, exact: (int, Format) -> bool,
                        tierMatch: (int, Format) -> bool, table: int -> Option<Fallback>, k: int, i: int)
    requires FindIndex(fs, quality, exact) == -1
    requires table(quality).Some?
    requires NoTierHits(fs, table(quality).value.up, 0, |table(quality).value.up|, tierMatch)
    requires 0 <= k < |table(quality).value.down|
    requires NoTierHits(fs, table(quality).value.down, 0, k, tierMatch)
    requires FirstMatchAt(fs, table(quality).value.down[k], i, tierMatch)
    ensures SafeSelect(fs, quality, exact, tierMatch, table) == Picked(fs[i])
  {
    var row := table(quality).value;
    var tiers := row.up + row.down;
    var n := |row.up|;
    assert tiers[n + k] == row.down[k];
    assert NoTierHits(fs, tiers, 0, n + k, tierMatch) by {
      forall j, x | 0 <= j < n + k && 0 <= x < |fs|
        ensures !tierMatch(tiers[j], fs[x])
      {
        if j < n {
          assert tiers[j] == row.up[j];
        } else {
          assert tiers[j] == row.down[j - n];
        }
      }
    }
    TierWalkFirstHit(fs, tiers, tierMatch, n + k, i);
  }

  /**
   * A selector's result is drawn from its input, and it is null (NoMatch) exactly
   * when the tier is in the table and no format matches the tier or any tier of its
   * up and down lists.
   */
  lemma SelectOutcome(fs: seq<Format>, quality: int, exact: (int, Format) -> bool,
                      tierMatch: (int, Format) -> bool, table: int -> Option<Fallback>)
    ensures SafeSelect(fs, quality, exact, tierMatch, table).Picked? ==>
              SafeSelect(fs, quality, exact, tierMatch, table).format in fs
    ensures SafeSelect(fs, quality, exact, tierMatch, table) == NoMatch <==>
              && table(quality).Some?
              && (forall x :: 0 <= x < |fs| ==> !exact(quality, fs[x]))
              && NoTierHits(fs, table(quality).value.up + table(quality).value.down, 0,
                            |table(quality).value.up + table(quality).value.down|, tierMatch)
    ensures SafeSelect(fs, quality, exact, tierMatch, table) == UnknownTier <==>
              table(quality).None? && forall x :: 0 <= x < |fs| ==> !exact(quality, fs[x])
  {
    if table(quality).Some? {
      var row := table(quality).value;
      TierWalkOutcome(fs, row.up + row.down, tierMatch);
    }
  }

  /**
   * For a tier of the video table, a list holding a format of any video tier (its
   * label starting with `${t}p`) never yields null.
   */
  lemma VideoKnownTierFound(fs: seq<Format>, quality: int, t: int, x: int)
    requires quality in VideoTiers && t in VideoTiers
    requires 0 <= x < |fs| && IntText(t) + "p" <= fs[x].qualityLabel
    ensures SelectVideo(fs, quality).Picked?
  {
    VideoTableShape(quality);
    var row := VideoFallback(quality).value;
    SelectOutcome(fs, quality, VideoExactMatch, VideoTierMatch, VideoFallback);
    if FindIndex(fs, quality, VideoExactMatch) == -1 {
      assert t != quality by {
        assert !VideoExactMatch(quality, fs[x]);
      }
      assert VideoTierMatch(t, fs[x]);
      var tiers := row.up + row.down;
      assert t in tiers;
      var j :| 0 <= j < |tiers| && tiers[j] == t;
      assert !NoTierHits(fs, tiers, 0, |tiers|, VideoTierMatch);
    }
  }

  /** For a tier of the audio table, a list holding a format of any audio tier never yields null. */
  lemma AudioKnownTierFound(fs: seq<Format>, quality: int, t: int, x: int)
    requires quality in AudioTiers && t in AudioTiers
    requires 0 <= x < |fs| && fs[x].audioBitrate == t
    ensures SelectAudio(fs, quality).Picked?
  {
    AudioTableShape(quality);
    var row := AudioFallback(quality).value;
    SelectOutcome(fs, quality, AudioBitrateMatch, AudioBitrateMatch, AudioFallback);
    if FindIndex(fs, quality, AudioBitrateMatch) == -1 {
      var tiers := row.up + row.down;
      assert t in tiers;
      var j :| 0 <= j < |tiers| && tiers[j] == t;
      assert AudioBitrateMatch(tiers[j], fs[x]);
      assert !NoTierHits(fs, tiers, 0, |tiers|, AudioBitrateMatch);
    }
  }

  /**
   * The up/down searches compare without the "p": a 1440p format passes the test for
   * tier 144 that the exact search for 144 rejects.
   */
  lemma TierSearchIgnoresSuffix(f: Format)
    requires f.qualityLabel == "1440p"
    ensures VideoTierMatch(144, f) && !VideoExactMatch(144, f)
  {
    assert IntText(144) + "p" == "144p";
    assert "144p"[3] != f.qualityLabel[3];
  }

  /**
   * Requesting 2160 from a list holding 1440p and 4320p picks 4320p: the up list of
   * 2160 is [4320], tried before any down tier.
   */
  lemma PicksUpTierFor2160(f1440: Format, f4320: Format)
    requires f1440.qualityLabel == "1440p" && f4320.qualityLabel == "4320p"
    ensures SelectVideo([f1440, f4320], 2160) == Picked(f4320)
  {
    var fs := [f1440, f4320];
    assert IntText(2160) == "2160" && IntText(4320) == "4320";
    assert !VideoExactMatch(2160, f1440) by {
      assert "2160p"[1] != f1440.qualityLabel[1];
    }
    assert !VideoExactMatch(2160, f4320) by {
      assert "2160p"[0] != f4320.qualityLabel[0];
    }
    assert FindIndex(fs, 2160, VideoExactMatch) == -1;
    assert FirstMatchAt(fs, 4320, 1, VideoTierMatch);
    UpTierWins(fs, 2160, VideoExactMatch, VideoTierMatch, VideoFallback, 0, 1);
  }

  // ---------------------------------------------------------------------------
  // The selectors as the source runs them

  /** getVideoFormat_safe. */
  method GetVideoFormatSafe(formats: seq<Format>, quality: int) returns (r: Selection)
    ensures r == SelectVideo(formats, quality)
    ensures r.Picked? ==> r.format in formats
  {
    SelectOutcome(formats, quality, VideoExactMatch, VideoTierMatch, VideoFallback);
    var formatIndex := FindIndex(formats, quality, VideoExactMatch);
    if formatIndex != -1 {
      return Picked(formats[formatIndex]);
    }
    var entry := VideoFallback(quality);
    if entry.None? {
      // `safe_map.get(quality)!.up` reads a property of undefined and throws
      return UnknownTier;
    }
    var upSearch := entry.value.up;
    var downSearch := entry.value.down;
    for k := 0 to |upSearch|
      invariant TierWalk(formats, upSearch + downSearch, VideoTierMatch)
                == TierWalk(formats, upSearch[k..] + downSearch, VideoTierMatch)
    {
      assert (upSearch[k..] + downSearch)[1..] == upSearch[k + 1..] + downSearch;
      formatIndex := FindIndex(formats, upSearch[k], VideoTierMatch);
      if formatIndex != -1 {
        return Picked(formats[formatIndex]);
      }
    }
    assert upSearch[|upSearch|..] + downSearch == downSearch;
    for k := 0 to |downSearch|
      invariant TierWalk(formats, upSearch + downSearch, VideoTierMatch)
                == TierWalk(formats, downSearch[k..], VideoTierMatch)
    {
      formatIndex := FindIndex(formats, downSearch[k], VideoTierMatch);
      if formatIndex != -1 {
        return Picked(formats[formatIndex]);
      }
    }
    return NoMatch;
  }

  /** getAudioFormat_safe. */
  method GetAudioFormatSafe(formats: seq<Format>, quality: int) returns (r: Selection)
    ensures r == SelectAudio(formats, quality)
    ensures r.Picked? ==> r.format in formats
  {
    SelectOutcome(formats, quality, AudioBitrateMatch, AudioBitrateMatch, AudioFallback);
    var formatIndex := FindIndex(formats, quality, AudioBitrateMatch);
    if formatIndex != -1 {
      return Picked(formats[formatIndex]);
    }
    var entry := AudioFallback(quality);
    if entry.None? {
      return UnknownTier;
    }
    var upSearch := entry.value.up;
    var downSearch := entry.value.down;
    for k := 0 to |upSearch|
      invariant TierWalk(formats, upSearch + downSearch, AudioBitrateMatch)
                == TierWalk(formats, upSearch[k..] + downSearch, AudioBitrateMatch)
    {
      assert (upSearch[k..] + downSearch)[1..] == upSearch[k + 1..] + downSearch;
      formatIndex := FindIndex(formats, upSearch[k], AudioBitrateMatch);
      if formatIndex != -1 {
        return Picked(formats[formatIndex]);
      }
    }
    assert upSearch[|upSearch|..] + downSearch == downSearch;
    for k := 0 to |downSearch|
      invariant TierWalk(formats, upSearch + downSearch, AudioBitrateMatch)
                == TierWalk(formats, downSearch[k..], AudioBitrateMatch)
    {
      formatIndex := FindIndex(formats, downSearch[k], AudioBitrateMatch);
      if formatIndex != -1 {
        return Picked(formats[formatIndex]);
      }
    }
    return NoMatch;
  }
}
