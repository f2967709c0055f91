/**
 * Format descriptors and the two filters of src/routes/youtube/ytHelpers.ts that
 * reduce a video's format list to the candidates a client may pick from:
 * getVideoFormats (video-only, no manifest, one per quality) and getAudioFormats
 * (audio-only, one per bitrate, highest bitrate first).
 */
module Formats {
  import opened Text

  /**
   * The fields of a ytdl format descriptor that the pipeline reads. `host` is the
   * host name of the stream URL; `audioBitrate` matters only for formats with audio.
   */
  datatype Format = Format(
    qualityLabel: string,
    hasVideo: bool,
    hasAudio: bool,
    audioBitrate: int,
    host: string,
    container: string)

  /** The stream URL's host names a manifest endpoint rather than a single file. */
  predicate IsManifest(f: Format) {
    Contains(f.host, "manifest")
  }

  /** What getVideoFormats accepts: video without audio, not served from a manifest. */
  predicate VideoMatch(f: Format) {
    f.hasVideo && !f.hasAudio && !IsManifest(f)
  }

  /** getVideoFormats' condition as written, with its clause about 8k, 4k and 2k labels. */
  predicate VideoMatchAsWritten(f: Format) {
    var is8k := "4320p" <= f.qualityLabel;
    var is2kOr4k := "2160p" <= f.qualityLabel || "1440p" <= f.qualityLabel;
    f.hasVideo && !f.hasAudio && !IsManifest(f) && (is8k || is2kOr4k || (!is8k && !is2kOr4k))
  }

  /** The tier clause is always true, so the label never decides whether a format matches. */
  lemma TierClauseIsTautology(f: Format)
    ensures VideoMatchAsWritten(f) <==> VideoMatch(f)
  {
  }

  /** `qualityLabel.split("p")[0]`: the quality number of a label such as "1080p60". */
  function VideoKey(f: Format): string {
    Split(f.qualityLabel, 'p')[0]
  }

  /** What getAudioFormats accepts: audio without video. */
  predicate AudioMatch(f: Format) {
    f.hasAudio && !f.hasVideo
  }

  /** getAudioFormats deduplicates on the bitrate. */
  function AudioKey(f: Format): int {
    f.audioBitrate
  }

  // ---------------------------------------------------------------------------
  // Keep-the-first-seen filtering, stated without the `done_set` the source uses

  /** fs[i] is accepted and no earlier accepted format has the same key. */
  predicate FirstOfKey<K(==)>(fs: seq<Format>, i: int, keep: Format -> bool, key: Format -> K)
    requires 0 <= i < |fs|
  {
    keep(fs[i]) && forall j :: 0 <= j < i && keep(fs[j]) ==> key(fs[j]) != key(fs[i])
  }

  /** The positions among the first n that a first-seen filter keeps, in increasing order. */
  function KeptIndices<K(==)>(fs: seq<Format>, n: int, keep: Format -> bool, key: Format -> K): (idx: seq<int>)
    requires 0 <= n <= |fs|
    ensures forall k :: 0 <= k < |idx| ==> 0 <= idx[k] < n
    ensures forall a, b :: 0 <= a < b < |idx| ==> idx[a] < idx[b]
    ensures forall i :: 0 <= i < n ==> (i in idx <==> FirstOfKey(fs, i, keep, key))
  {
    if n == 0 then []
    else KeptIndices(fs, n - 1, keep, key) + (if FirstOfKey(fs, n - 1, keep, key) then [n - 1] else [])
  }

  /** The formats among the first n that a first-seen filter keeps, in input order. */
  function KeptUpTo<K(==)>(fs: seq<Format>, n: int, keep: Format -> bool, key: Format -> K): seq<Format>
    requires 0 <= n <= |fs|
  {
    if n == 0 then []
    else KeptUpTo(fs, n - 1, keep, key) + (if FirstOfKey(fs, n - 1, keep, key) then [fs[n - 1]] else [])
  }

  /** The filter's output is the input read at the kept positions: order is preserved. */
  lemma {:induction false} KeptPicksIndices<K>(fs: seq<Format>, n: int, keep: Format -> bool, key: Format -> K)
    requires 0 <= n <= |fs|
    ensures |KeptUpTo(fs, n, keep, key)| == |KeptIndices(fs, n, keep, key)|
    ensures forall k :: 0 <= k < |KeptIndices(fs, n, keep, key)| ==>
              KeptUpTo(fs, n, keep, key)[k] == fs[KeptIndices(fs, n, keep, key)[k]]
  {
    if n > 0 {
      KeptPicksIndices(fs, n - 1, keep, key);
    }
  }

  /** Every accepted format has a first-seen format with its key at or before it. */
  lemma {:induction false} FirstSeenRepresentative<K>(fs: seq<Format>, i: int, keep: Format -> bool, key: Format -> K)
    returns (j: int)
    requires 0 <= i < |fs| && keep(fs[i])
    ensures 0 <= j <= i && FirstOfKey(fs, j, keep, key) && key(fs[j]) == key(fs[i])
    decreases i
  {
    if FirstOfKey(fs, i, keep, key) {
      j := i;
    } else {
      var e :| 0 <= e < i && keep(fs[e]) && key(fs[e]) == key(fs[i]);
      j := FirstSeenRepresentative(fs, e, keep, key);
    }
  }

  /**
   * What a first-seen filter promises: every kept format is accepted and comes from
   * the input, no two kept formats share a key, and every key of an accepted input
   * format is represented.
   */
  lemma KeptProperties<K>(fs: seq<Format>, keep: Format -> bool, key: Format -> K)
    ensures forall k :: 0 <= k < |KeptUpTo(fs, |fs|, keep, key)| ==>
              keep(KeptUpTo(fs, |fs|, keep, key)[k]) && KeptUpTo(fs, |fs|, keep, key)[k] in fs
    ensures forall a, b :: 0 <= a < b < |KeptUpTo(fs, |fs|, keep, key)| ==>
              key(KeptUpTo(fs, |fs|, keep, key)[a]) != key(KeptUpTo(fs, |fs|, keep, key)[b])
    ensures forall i :: 0 <= i < |fs| && keep(fs[i]) ==>
              exists k :: 0 <= k < |KeptUpTo(fs, |fs|, keep, key)| && key(KeptUpTo(fs, |fs|, keep, key)[k]) == key(fs[i])
  {
    var r := KeptUpTo(fs, |fs|, keep, key);
    var idx := KeptIndices(fs, |fs|, keep, key);
    KeptPicksIndices(fs, |fs|, keep, key);
    forall k | 0 <= k < |r|
      ensures keep(r[k]) && r[k] in fs
    {
      assert idx[k] in idx;
    }
    forall a, b | 0 <= a < b < |r|
      ensures key(r[a]) != key(r[b])
    {
      assert idx[b] in idx && FirstOfKey(fs, idx[b], keep, key);
      assert idx[a] in idx && keep(fs[idx[a]]);
    }
    forall i | 0 <= i < |fs| && keep(fs[i])
      ensures exists k :: 0 <= k < |r| && key(r[k]) == key(fs[i])
    {
      var j := FirstSeenRepresentative(fs, i, keep, key);
      assert j in idx;
      var k :| 0 <= k < |idx| && idx[k] == j;
      assert key(r[k]) == key(fs[i]);
    }
  }

  // ---------------------------------------------------------------------------
  // Sorting by descending bitrate (`sort((a, b) => b.audioBitrate - a.audioBitrate)`,
  // a stable sort)

  predicate BitratesDescending(s: seq<Format>) {
    forall a, b :: 0 <= a < b < |s| ==> s[a].audioBitrate >= s[b].audioBitrate
  }

  predicate BitratesStrictlyDescending(s: seq<Format>) {
    forall a, b :: 0 <= a < b < |s| ==> s[a].audioBitrate > s[b].audioBitrate
  }

  predicate DistinctBitrates(s: seq<Format>) {
    forall a, b :: 0 <= a < b < |s| ==> s[a].audioBitrate != s[b].audioBitrate
  }

  /** Places f before the first element whose bitrate is not higher, so ties keep input order. */
  function InsertByBitrate(f: Format, s: seq<Format>): seq<Format> {
    if s == [] || s[0].audioBitrate <= f.audioBitrate then [f] + s
    else [s[0]] + InsertByBitrate(f, s[1..])
  }

  function SortByBitrateDesc(s: seq<Format>): seq<Format> {
    if s == [] then [] else InsertByBitrate(s[0], SortByBitrateDesc(s[1..]))
  }

  lemma {:induction false} InsertPermutes(f: Format, s: seq<Format>)
    ensures multiset(InsertByBitrate(f, s)) == multiset(s) + multiset{f}
  {
    if s != [] && s[0].audioBitrate > f.audioBitrate {
      InsertPermutes(f, s[1..]);
      assert s == [s[0]] + s[1..];
    }
  }

  /** The sort is a permutation of its input. */
  lemma {:induction false} SortPermutes(s: seq<Format>)
    ensures multiset(SortByBitrateDesc(s)) == multiset(s)
  {
    if s != [] {
      SortPermutes(s[1..]);
      InsertPermutes(s[0], SortByBitrateDesc(s[1..]));
      assert s == [s[0]] + s[1..];
    }
  }

  lemma {:induction false} InsertKeepsDescending(f: Format, s: seq<Format>)
    requires BitratesDescending(s)
    ensures BitratesDescending(InsertByBitrate(f, s))
  {
    if s != [] && s[0].audioBitrate > f.audioBitrate {
      InsertKeepsDescending(f, s[1..]);
      InsertPermutes(f, s[1..]);
      var t := InsertByBitrate(f, s[1..]);
      forall k | 0 <= k < |t|
        ensures t[k].audioBitrate <= s[0].audioBitrate
      {
        assert t[k] in multiset(t);
        if t[k] != f {
          assert t[k] in multiset(s[1..]);
          var m :| 0 <= m < |s[1..]| && s[1..][m] == t[k];
          assert s[m + 1] == t[k];
        }
      }
    }
  }

  /** The sort orders by bitrate, highest first. */
  lemma {:induction false} SortDescending(s: seq<Format>)
    ensures BitratesDescending(SortByBitrateDesc(s))
  {
    if s != [] {
      SortDescending(s[1..]);
      InsertKeepsDescending(s[0], SortByBitrateDesc(s[1..]));
    }
  }

  /** Every element of an insertion is the inserted format or came from the list. */
  lemma {:induction false} InsertMembers(f: Format, s: seq<Format>)
    ensures forall k :: 0 <= k < |InsertByBitrate(f, s)| ==> InsertByBitrate(f, s)[k] == f || InsertByBitrate(f, s)[k] in s
  {
    if s != [] && s[0].audioBitrate > f.audioBitrate {
      InsertMembers(f, s[1..]);
    }
  }

  lemma {:induction false} SortMembers(s: seq<Format>)
    ensures forall k :: 0 <= k < |SortByBitrateDesc(s)| ==> SortByBitrateDesc(s)[k] in s
  {
    if s != [] {
      SortMembers(s[1..]);
      InsertMembers(s[0], SortByBitrateDesc(s[1..]));
    }
  }

  lemma {:induction false} InsertKeepsStrict(f: Format, s: seq<Format>)
    requires BitratesStrictlyDescending(s)
    requires forall k :: 0 <= k < |s| ==> s[k].audioBitrate != f.audioBitrate
    ensures BitratesStrictlyDescending(InsertByBitrate(f, s))
  {
    if s != [] && s[0].audioBitrate > f.audioBitrate {
      InsertKeepsStrict(f, s[1..]);
      InsertMembers(f, s[1..]);
      var t := InsertByBitrate(f, s[1..]);
      forall k | 0 <= k < |t|
        ensures t[k].audioBitrate < s[0].audioBitrate
      {
        if t[k] != f {
          var m :| 0 <= m < |s[1..]| && s[1..][m] == t[k];
          assert s[m + 1] == t[k];
        }
      }
    }
  }

  /** With no repeated bitrate in the input, the order is strict. */
  lemma {:induction false} SortStrictlyDescending(s: seq<Format>)
    requires DistinctBitrates(s)
    ensures BitratesStrictlyDescending(SortByBitrateDesc(s))
  {
    if s != [] {
      SortStrictlyDescending(s[1..]);
      SortMembers(s[1..]);
      var t := SortByBitrateDesc(s[1..]);
      forall k | 0 <= k < |t|
        ensures t[k].audioBitrate != s[0].audioBitrate
      {
        var m :| 0 <= m < |s[1..]| && s[1..][m] == t[k];
        assert s[m + 1] == t[k];
      }
      InsertKeepsStrict(s[0], t);
    }
  }

  /**
   * What getAudioFormats returns: the first-seen audio-only formats reordered by
   * strictly decreasing bitrate.
   */
  lemma AudioListOrdered(fs: seq<Format>, kept: seq<Format>, sorted: seq<Format>)
    requires kept == KeptUpTo(fs, |fs|, AudioMatch, AudioKey)
    requires sorted == SortByBitrateDesc(kept)
    ensures multiset(sorted) == multiset(kept)
    ensures forall k :: 0 <= k < |sorted| ==> AudioMatch(sorted[k]) && sorted[k] in fs
    ensures BitratesStrictlyDescending(sorted)
  {
    KeptProperties(fs, AudioMatch, AudioKey);
    SortPermutes(kept);
    SortMembers(kept);
    SortStrictlyDescending(kept);
  }

  /**
   * Every audio-only bitrate of the input is in getAudioFormats' list, and the first
   * entry has the highest bitrate of all.
   */
  lemma AudioListCoversBitrates(fs: seq<Format>, kept: seq<Format>, sorted: seq<Format>)
    requires kept == KeptUpTo(fs, |fs|, AudioMatch, AudioKey)
    requires sorted == SortByBitrateDesc(kept)
    ensures forall i :: 0 <= i < |fs| && AudioMatch(fs[i]) ==>
              exists k :: 0 <= k < |sorted| && sorted[k].audioBitrate == fs[i].audioBitrate
    ensures forall i :: 0 <= i < |fs| && AudioMatch(fs[i]) ==>
              |sorted| > 0 && fs[i].audioBitrate <= sorted[0].audioBitrate
  {
    AudioListOrdered(fs, kept, sorted);
    forall i | 0 <= i < |fs| && AudioMatch(fs[i])
      ensures exists k :: 0 <= k < |sorted| && sorted[k].audioBitrate == fs[i].audioBitrate
      ensures |sorted| > 0 && fs[i].audioBitrate <= sorted[0].audioBitrate
    {
      var k := BitrateInSorted(fs, kept, sorted, i);
      assert k == 0 || sorted[0].audioBitrate > sorted[k].audioBitrate;
    }
  }

  lemma BitrateInSorted(fs: seq<Format>, kept: seq<Format>, sorted: seq<Format>, i: int) returns (k: int)
    requires kept == KeptUpTo(fs, |fs|, AudioMatch, AudioKey)
    requires multiset(sorted) == multiset(kept)
    requires 0 <= i < |fs| && AudioMatch(fs[i])
    ensures 0 <= k < |sorted| && sorted[k].audioBitrate == fs[i].audioBitrate
  {
    var j := FirstSeenRepresentative(fs, i, AudioMatch, AudioKey);
    KeptPicksIndices(fs, |fs|, AudioMatch, AudioKey);
    var idx := KeptIndices(fs, |fs|, AudioMatch, AudioKey);
    assert j in idx;
    var m :| 0 <= m < |idx| && idx[m] == j;
    assert kept[m] == fs[j];
    assert kept[m] in multiset(sorted);
    k :| 0 <= k < |sorted| && sorted[k] == kept[m];
  }

  // ---------------------------------------------------------------------------
  // The filters

  /**
   * getVideoFormats: keeps the video-only formats that are not served from a manifest,
   * one per quality number (the first seen), in input order.
   */
  method GetVideoFormats(infoFormats: seq<Format>) returns (kept: seq<Format>)
    ensures kept == KeptUpTo(infoFormats, |infoFormats|, VideoMatch, VideoKey)
    ensures forall k :: 0 <= k < |kept| ==> VideoMatch(kept[k]) && kept[k] in infoFormats
    ensures forall a, b :: 0 <= a < b < |kept| ==> VideoKey(kept[a]) != VideoKey(kept[b])
    ensures forall i :: 0 <= i < |infoFormats| && VideoMatch(infoFormats[i]) ==>
              exists k :: 0 <= k < |kept| && VideoKey(kept[k]) == VideoKey(infoFormats[i])
  {
    var doneSet: set<string> := {};
    kept := [];
    for i := 0 to |infoFormats|
      invariant kept == KeptUpTo(infoFormats, i, VideoMatch, VideoKey)
      invariant doneSet == set j | 0 <= j < i && VideoMatch(infoFormats[j]) :: VideoKey(infoFormats[j])
    {
      var filter := infoFormats[i];
      var is8k := "4320p" <= filter.qualityLabel;
      var is2kOr4k := "2160p" <= filter.qualityLabel || "1440p" <= filter.qualityLabel;
      var matches := filter.hasVideo && !filter.hasAudio && !IsManifest(filter)
                     && (is8k || is2kOr4k || (!is8k && !is2kOr4k));
      var quality := VideoKey(filter);
      var isAdded := quality in doneSet;
      if matches && !isAdded {
        doneSet := doneSet + {quality};
        kept := kept + [filter];
      }
    }
    KeptProperties(infoFormats, VideoMatch, VideoKey);
  }

  /**
   * getAudioFormats: keeps the audio-only formats, one per bitrate (the first seen),
   * and orders them by strictly decreasing bitrate, so the first is the highest.
   */
  method GetAudioFormats(infoFormats: seq<Format>) returns (sorted: seq<Format>)
    ensures sorted == SortByBitrateDesc(KeptUpTo(infoFormats, |infoFormats|, AudioMatch, AudioKey))
    ensures multiset(sorted) == multiset(KeptUpTo(infoFormats, |infoFormats|, AudioMatch, AudioKey))
    ensures forall k :: 0 <= k < |sorted| ==> AudioMatch(sorted[k]) && sorted[k] in infoFormats
    ensures BitratesStrictlyDescending(sorted)
    ensures forall i :: 0 <= i < |infoFormats| && AudioMatch(infoFormats[i]) ==>
              exists k :: 0 <= k < |sorted| && sorted[k].audioBitrate == infoFormats[i].audioBitrate
    ensures forall i :: 0 <= i < |infoFormats| && AudioMatch(infoFormats[i]) ==>
              |sorted| > 0 && infoFormats[i].audioBitrate <= sorted[0].audioBitrate
  {
    var doneSet: set<int> := {};
    var kept: seq<Format> := [];
    for i := 0 to |infoFormats|
      invariant kept == KeptUpTo(infoFormats, i, AudioMatch, AudioKey)
      invariant doneSet == set j | 0 <= j < i && AudioMatch(infoFormats[j]) :: AudioKey(infoFormats[j])
    {
      var filter := infoFormats[i];
      var matches := filter.hasAudio && !filter.hasVideo;
      var key := filter.audioBitrate;
      var isAdded := key in doneSet;
      if matches && !isAdded {
        doneSet := doneSet + {key};
        kept := kept + [filter];
      }
    }
    sorted := SortByBitrateDesc(kept);
    AudioListOrdered(infoFormats, kept, sorted);
    AudioListCoversBitrates(infoFormats, kept, sorted);
  }
}
