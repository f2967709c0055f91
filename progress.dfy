/**
 * The progress arithmetic of src/routes/youtube/ytHelpers.ts: reading an
 * hh:mm:ss.xx time mark (videoDurationInSeconds), the converting percentage
 * (getConvertingStateProgress), the human-readable size (getFileSize), and what
 * each stage of updateSessionProgress does to a session record.
 *
 * Seconds are kept as integer hundredths, so every percentage is an exact floor.
 */
module Progress {
  import opened Text
  import opened Types

  // ---------------------------------------------------------------------------
  // Reading numbers and time marks

  /**
   * `+text` for the spellings a time mark uses, in hundredths: decimal digits with
   * at most two decimals; "" reads as 0 and "." as NaN (None). Every other spelling
   * is None here.
   */
  function NumberHundredths(text: string): (r: Option<nat>)
    ensures AllDigits(text) ==> r == Some(DigitsValue(text) * 100)
    ensures '.' !in text ==> (r.Some? <==> AllDigits(text))
    ensures r.Some? ==> forall i :: 0 <= i < |text| ==> IsDigit(text[i]) || text[i] == '.'
  {
    var parts := Split(text, '.');
    SplitAlone(text, '.');
    SplitAroundOne(text, '.');
    if AllDigits(text) then Some(DigitsValue(text) * 100)
    else if |parts| == 2 && AllDigits(parts[0]) && AllDigits(parts[1]) && |parts[1]| <= 2
         && (parts[0] != "" || parts[1] != "") then
      var frac := if |parts[1]| == 1 then DigitsValue(parts[1]) * 10 else DigitsValue(parts[1]);
      Some(DigitsValue(parts[0]) * 100 + frac)
    else None
  }

  /** videoDurationInSeconds, in hundredths: `+hr * 3600 + +min * 60 + +sec`; a missing part is NaN. */
  function DurationHundredths(duration: string): (r: Option<nat>)
    ensures ':' !in duration ==> r.None?
  {
    var parts := Split(duration, ':');
    SplitAlone(duration, ':');
    if |parts| < 3 then None
    else
      var hr := NumberHundredths(parts[0]);
      var min := NumberHundredths(parts[1]);
      var sec := NumberHundredths(parts[2]);
      if hr.None? || min.None? || sec.None? then None
      else Some(hr.value * 3600 + min.value * 60 + sec.value)
  }

  lemma DigitsHaveNoSeparator(s: string, sep: char)
    requires AllDigits(s) && !IsDigit(sep)
    ensures sep !in s
  {
  }

  /** A string of two digits denotes ten times the first plus the second. */
  lemma TwoDigitsValue(s: string)
    requires |s| == 2 && AllDigits(s)
    ensures DigitsValue(s) == DigitValue(s[0]) * 10 + DigitValue(s[1])
  {
    assert s[..1][..0] == [];
    assert s[..1][0] == s[0];
    assert DigitsValue(s[..1]) == DigitValue(s[0]);
  }

  /** `ss.ff` with a two-digit fraction reads as ss seconds and ff hundredths. */
  lemma {:induction false} SecondsHundredths(ss: string, ff: string)
    requires AllDigits(ss) && AllDigits(ff) && |ff| == 2
    ensures NumberHundredths(ss + "." + ff) == Some(DigitsValue(ss) * 100 + DigitsValue(ff))
  {
    DigitsHaveNoSeparator(ss, '.');
    DigitsHaveNoSeparator(ff, '.');
    SplitAtSeparator(ss, '.', ff);
    SplitWithoutSeparator(ff, '.');
    var text := ss + "." + ff;
    assert text == ss + ['.'] + ff;
    assert !IsDigit(text[|ss|]);
    assert Split(text, '.') == [ss, ff];
  }

  /** `hh:mm:ss.ff` splits on ':' into hh, mm and ss.ff. */
  lemma {:induction false} TimeMarkSplits(hh: string, mm: string, ss: string, ff: string)
    requires AllDigits(hh) && AllDigits(mm) && AllDigits(ss) && AllDigits(ff)
    ensures Split(hh + ":" + mm + ":" + ss + "." + ff, ':') == [hh, mm, ss + "." + ff]
  {
    var sec := ss + "." + ff;
    DigitsHaveNoSeparator(hh, ':');
    DigitsHaveNoSeparator(mm, ':');
    assert ':' !in sec by {
      DigitsHaveNoSeparator(ss, ':');
      DigitsHaveNoSeparator(ff, ':');
    }
    SplitWithoutSeparator(sec, ':');
    SplitAtSeparator(mm, ':', sec);
    SplitAtSeparator(hh, ':', mm + [':'] + sec);
    assert hh + ":" + mm + ":" + ss + "." + ff == hh + [':'] + (mm + [':'] + sec);
  }

  /** `hh:mm:ss.ff` maps to hh·3600 + mm·60 + ss seconds and ff hundredths. */
  lemma {:induction false} TimeMarkHundredths(hh: string, mm: string, ss: string, ff: string)
    requires AllDigits(hh) && AllDigits(mm) && AllDigits(ss) && AllDigits(ff) && |ff| == 2
    ensures DurationHundredths(hh + ":" + mm + ":" + ss + "." + ff)
            == Some(DigitsValue(hh) * 360000 + DigitsValue(mm) * 6000 + DigitsValue(ss) * 100 + DigitsValue(ff))
  {
    var text := hh + ":" + mm + ":" + ss + "." + ff;
    var sec := ss + "." + ff;
    var h, m, x := DigitsValue(hh) * 100, DigitsValue(mm) * 100, DigitsValue(ss) * 100 + DigitsValue(ff);
    TimeMarkSplits(hh, mm, ss, ff);
    SecondsHundredths(ss, ff);
    assert NumberHundredths(hh) == Some(h) && NumberHundredths(mm) == Some(m);
    DurationOfParts(text, hh, mm, sec, h, m, x);
  }

  /** A duration that splits into three readable parts is their weighted sum. */
  lemma {:induction false} DurationOfParts(duration: string, hr: string, min: string, sec: string, h: nat, m: nat, x: nat)
    requires Split(duration, ':') == [hr, min, sec]
    requires NumberHundredths(hr) == Some(h) && NumberHundredths(min) == Some(m) && NumberHundredths(sec) == Some(x)
    ensures DurationHundredths(duration) == Some(h * 3600 + m * 60 + x)
  {
  }

  // ---------------------------------------------------------------------------
  // Percentages

  /** getConvertingStateProgress: `floor(secs(timeMark) / secs(totalDuration) * 100)`; NaN and Infinity are NonFinite. */
  function ConvertPercent(timeMark: string, totalDuration: string): (r: Percent)
    ensures r.Finite? <==> && DurationHundredths(timeMark).Some? && DurationHundredths(totalDuration).Some?
                           && 0 < DurationHundredths(totalDuration).value
    ensures r.Finite? ==> IsFloorPercent(r.value, DurationHundredths(timeMark).value, DurationHundredths(totalDuration).value)
  {
    var t := DurationHundredths(timeMark);
    var d := DurationHundredths(totalDuration);
    if t.None? || d.None? || d.value == 0 then NonFinite
    else
      FloorOfShare(t.value, d.value);
      Finite(t.value * 100 / d.value)
  }

  /** The download stage's `floor(finish / total * 100)`. */
  function DownloadPercent(finish: nat, total: nat): (r: Percent)
    ensures r.Finite? <==> 0 < total
    ensures r.Finite? ==> IsFloorPercent(r.value, finish, total)
  {
    if total == 0 then NonFinite
    else
      FloorOfShare(finish, total);
      Finite(finish * 100 / total)
  }

  /** `p` is the floor of 100·part/whole. */
  predicate IsFloorPercent(p: int, part: nat, whole: nat)
    requires whole > 0
  {
    p * whole <= part * 100 < (p + 1) * whole
  }

  /** A product of two positive numbers is positive. */
  lemma {:induction false} PositiveProduct(x: nat, w: nat)
    requires 0 < x && 0 < w
    ensures 0 < x * w
  {
    if x > 1 {
      PositiveProduct(x - 1, w);
      assert x * w == (x - 1) * w + w;
    }
  }

  /** The sign of a multiple of a positive number is the sign of the multiplier. */
  lemma ProductSign(x: int, w: int)
    requires 0 < w
    ensures x * w < 0 ==> x < 0
    ensures x * w <= 0 ==> x <= 0
    ensures 0 <= x ==> 0 <= x * w
    ensures 0 < x * w ==> 0 < x
  {
    if x > 0 {
      PositiveProduct(x, w);
    } else if x < 0 {
      PositiveProduct(-x, w);
      assert x * w == -((-x) * w);
    }
  }

  lemma FloorOfShare(part: nat, whole: nat)
    requires 0 < whole
    ensures IsFloorPercent(part * 100 / whole, part, whole)
  {
    var p := part * 100 / whole;
    var r := (part * 100) % whole;
    assert part * 100 == p * whole + r;
    assert (p + 1) * whole == p * whole + whole;
  }

  /** There is only one floor percentage. */
  lemma FloorUnique(p: int, q: int, part: nat, whole: nat)
    requires 0 < whole && IsFloorPercent(p, part, whole) && IsFloorPercent(q, part, whole)
    ensures p == q
  {
    assert (p - q - 1) * whole == p * whole - (q + 1) * whole;
    assert (q - p - 1) * whole == q * whole - (p + 1) * whole;
    ProductSign(p - q - 1, whole);
    ProductSign(q - p - 1, whole);
  }

  /** A share of a positive whole, no larger than it, is a floor percentage in [0, 100], and 100 only for the whole. */
  lemma ShareInRange(part: nat, whole: nat)
    requires 0 < whole && part <= whole
    ensures 0 <= part * 100 / whole <= 100
    ensures part * 100 / whole == 100 <==> part == whole
    ensures IsFloorPercent(part * 100 / whole, part, whole)
  {
    var p := part * 100 / whole;
    FloorOfShare(part, whole);
    assert (p - 100) * whole == p * whole - 100 * whole;
    assert (p + 1) * whole == p * whole + whole;
    ProductSign(p - 100, whole);
    ProductSign(p + 1, whole);
    if part == whole {
      assert IsFloorPercent(100, part, whole);
      FloorUnique(p, 100, part, whole);
    } else {
      assert part * 100 <= 100 * whole - 100;
    }
  }

  /**
   * The converting percentage lies in [0, 100] whenever both marks read, the total
   * is positive and the time mark does not pass it; it is 100 only at the end.
   */
  lemma ConvertPercentInRange(timeMark: string, totalDuration: string)
    requires DurationHundredths(timeMark).Some? && DurationHundredths(totalDuration).Some?
    requires 0 < DurationHundredths(totalDuration).value
    requires DurationHundredths(timeMark).value <= DurationHundredths(totalDuration).value
    ensures ConvertPercent(timeMark, totalDuration).Finite?
    ensures 0 <= ConvertPercent(timeMark, totalDuration).value <= 100
    ensures ConvertPercent(timeMark, totalDuration).value == 100
            <==> DurationHundredths(timeMark) == DurationHundredths(totalDuration)
    ensures IsFloorPercent(ConvertPercent(timeMark, totalDuration).value,
                           DurationHundredths(timeMark).value, DurationHundredths(totalDuration).value)
  {
    ShareInRange(DurationHundredths(timeMark).value, DurationHundredths(totalDuration).value);
  }

  /** The percentage never goes down as the time mark advances. */
  lemma ConvertPercentMonotone(earlier: string, later: string, totalDuration: string)
    requires DurationHundredths(earlier).Some? && DurationHundredths(later).Some?
    requires DurationHundredths(totalDuration).Some? && 0 < DurationHundredths(totalDuration).value
    requires DurationHundredths(earlier).value <= DurationHundredths(later).value
    ensures ConvertPercent(earlier, totalDuration).Finite? && ConvertPercent(later, totalDuration).Finite?
    ensures ConvertPercent(earlier, totalDuration).value <= ConvertPercent(later, totalDuration).value
  {
    var d := DurationHundredths(totalDuration).value;
    var a := DurationHundredths(earlier).value;
    var b := DurationHundredths(later).value;
    assert a * 100 <= b * 100;
    DivMonotone(a * 100, b * 100, d);
  }

  lemma DivMonotone(x: nat, y: nat, d: nat)
    requires x <= y && 0 < d
    ensures x / d <= y / d
  {
    assert x == (x / d) * d + x % d;
    assert y == (y / d) * d + y % d;
    assert (x / d) * d <= y < (y / d + 1) * d;
    assert (x / d - y / d - 1) * d == (x / d) * d - (y / d + 1) * d;
    ProductSign(x / d - y / d - 1, d);
  }

  /** Without a readable duration (the default record's is "") the percentage is NaN. */
  lemma ConvertPercentWithoutDuration(timeMark: string)
    ensures ConvertPercent(timeMark, "") == NonFinite
  {
    assert Split("", ':') == [""];
  }

  lemma OneMinuteFortyParts()
    ensures DurationHundredths("00" + ":" + "01" + ":" + "40" + "." + "00") == Some(10000)
  {
    assert DigitsValue("00") == 0 by { TwoDigitsValue("00"); }
    assert DigitsValue("01") == 1 by { TwoDigitsValue("01"); }
    assert DigitsValue("40") == 40 by { TwoDigitsValue("40"); }
    TimeMarkHundredths("00", "01", "40", "00");
  }

  lemma OneMinuteFortyText()
    ensures "00:01:40.00" == "00" + ":" + "01" + ":" + "40" + "." + "00"
  {
  }

  lemma OneMinuteForty()
    ensures DurationHundredths("00:01:40.00") == Some(10000)
  {
    OneMinuteFortyText();
    OneMinuteFortyParts();
  }

  lemma ThreeMinutesTwentyParts()
    ensures DurationHundredths("00" + ":" + "03" + ":" + "20" + "." + "00") == Some(20000)
  {
    assert DigitsValue("00") == 0 by { TwoDigitsValue("00"); }
    assert DigitsValue("03") == 3 by { TwoDigitsValue("03"); }
    assert DigitsValue("20") == 20 by { TwoDigitsValue("20"); }
    TimeMarkHundredths("00", "03", "20", "00");
  }

  lemma ThreeMinutesTwentyText()
    ensures "00:03:20.00" == "00" + ":" + "03" + ":" + "20" + "." + "00"
  {
  }

  lemma ThreeMinutesTwenty()
    ensures DurationHundredths("00:03:20.00") == Some(20000)
  {
    ThreeMinutesTwentyText();
    ThreeMinutesTwentyParts();
  }

  /** Whatever the readings, the percentage is the one floor percentage of them. */
  lemma ConvertPercentOfReadings(timeMark: string, totalDuration: string, t: nat, d: nat, p: int)
    requires DurationHundredths(timeMark) == Some(t) && DurationHundredths(totalDuration) == Some(d)
    requires d > 0 && IsFloorPercent(p, t, d)
    ensures ConvertPercent(timeMark, totalDuration) == Finite(p)
  {
    FloorUnique(ConvertPercent(timeMark, totalDuration).value, p, t, d);
  }

  /** A time mark of 1:40 into a 3:20 video is 50 percent. */
  lemma HalfwayConvertIsFifty()
    ensures ConvertPercent("00:01:40.00", "00:03:20.00") == Finite(50)
  {
    OneMinuteForty();
    ThreeMinutesTwenty();
    ConvertPercentOfReadings("00:01:40.00", "00:03:20.00", 10000, 20000, 50);
  }

  /** The download percentage of `finish` out of a positive `total` no smaller than it. */
  lemma DownloadPercentInRange(finish: nat, total: nat)
    requires 0 < total && finish <= total
    ensures DownloadPercent(finish, total).Finite?
    ensures 0 <= DownloadPercent(finish, total).value <= 100
    ensures DownloadPercent(finish, total).value == 100 <==> finish == total
    ensures IsFloorPercent(DownloadPercent(finish, total).value, finish, total)
  {
    ShareInRange(finish, total);
  }

  // ---------------------------------------------------------------------------
  // getFileSize

  const MbInKb: nat := 1024
  const GbInKb: nat := 1024 * 1024

  /** `x >>> 0` for a non-negative number: truncate, then keep the low 32 bits. */
  function ToUint32(x: nat): (r: nat)
    ensures r < 0x1_0000_0000
    ensures x < 0x1_0000_0000 ==> r == x
  {
    x % 0x1_0000_0000
  }

  datatype SizeUnit = Kb | Mb | Gb

  /** The unit getFileSize chooses: gb when `GB >>> 0` is non-zero, else mb when `MB >>> 0` is, else kb. */
  function SizeUnitOf(sizeInKb: nat): (r: SizeUnit)
    ensures sizeInKb < MbInKb ==> r == Kb
    ensures r == Mb ==> MbInKb <= sizeInKb
    ensures r == Gb ==> GbInKb <= sizeInKb
  {
    var gb := ToUint32(sizeInKb / GbInKb);
    var mb := ToUint32((sizeInKb % GbInKb) / MbInKb);
    if gb != 0 then Gb else if mb != 0 then Mb else Kb
  }

  /** Below 2^52 kB the unit follows the thresholds: kb below 1024, mb below 1024·1024, gb from there. */
  lemma SizeUnitThresholds(sizeInKb: nat)
    requires sizeInKb < 0x10_0000_0000_0000
    ensures SizeUnitOf(sizeInKb) == Kb <==> sizeInKb < MbInKb
    ensures SizeUnitOf(sizeInKb) == Mb <==> MbInKb <= sizeInKb < GbInKb
    ensures SizeUnitOf(sizeInKb) == Gb <==> GbInKb <= sizeInKb
  {
    assert sizeInKb / GbInKb < 0x1_0000_0000;
    if sizeInKb < GbInKb {
      assert sizeInKb % GbInKb == sizeInKb;
    }
  }

  /** At exactly 2^52 kB, `GB >>> 0` wraps to 0 and MB is 0, so the size is printed in kb. */
  lemma SizeUnitWrapsAt2Pow52()
    ensures SizeUnitOf(0x10_0000_0000_0000) == Kb
  {
  }

  /** The n that `(num / den).toFixed(2)` prints as n/100: the nearest hundredth, ties rounded up. */
  function Fixed2Hundredths(num: nat, den: nat): nat
    requires den > 0
  {
    (200 * num + den) / (2 * den)
  }

  function Abs(x: int): nat {
    if x < 0 then -x else x
  }

  lemma MulAtLeast(k: int, den: nat)
    requires k >= 1 && den > 0
    ensures k * den >= den
  {
  }

  /**
   * Fixed2Hundredths meets the toFixed(2) rule: n/100 is at least as close to num/den
   * as any other hundredth m/100, and when two are equally close, n is the larger.
   */
  lemma Fixed2IsNearest(num: nat, den: nat, m: int)
    requires den > 0
    ensures Abs(100 * num - Fixed2Hundredths(num, den) * den) <= Abs(100 * num - m * den)
    ensures Abs(100 * num - Fixed2Hundredths(num, den) * den) == Abs(100 * num - m * den)
            ==> m <= Fixed2Hundredths(num, den)
  {
    var n := Fixed2Hundredths(num, den);
    var e := 100 * num - n * den;
    assert 2 * den * n <= 200 * num + den < 2 * den * n + 2 * den;
    var dn: int := den;
    assert -dn <= 2 * e < dn;
    var k := n - m;
    assert 100 * num - m * den == e + k * den;
    if k >= 1 {
      MulAtLeast(k, den);
      if k > 1 {
        MulAtLeast(k - 1, den);
        assert k * den == (k - 1) * den + den;
      }
    } else if k <= -1 {
      MulAtLeast(-k, den);
      assert k * den == -((-k) * den);
    }
  }

  /** Two decimal digits of n % 100. */
  function TwoDecimals(n: nat): (s: string)
    ensures |s| == 2 && AllDigits(s)
  {
    [DigitChar(n % 100 / 10), DigitChar(n % 10)]
  }

  /** `(num / den).toFixed(2)`. */
  function Fixed2(num: nat, den: nat): string
    requires den > 0
  {
    var n := Fixed2Hundredths(num, den);
    NatText(n / 100) + "." + TwoDecimals(n)
  }

  /** n printed with two decimals reads back as n hundredths. */
  lemma HundredthsTextReadsBack(n: nat)
    ensures NumberHundredths(NatText(n / 100) + "." + TwoDecimals(n)) == Some(n)
  {
    SecondsHundredths(NatText(n / 100), TwoDecimals(n));
    DigitsValueOfNatText(n / 100);
    TwoDecimalsValue(n);
  }

  lemma TwoDecimalsValue(n: nat)
    ensures DigitsValue(TwoDecimals(n)) == n % 100
  {
    var d := TwoDecimals(n);
    TwoDigitsValue(d);
    assert DigitValue(d[0]) == n % 100 / 10;
    assert DigitValue(d[1]) == n % 10;
    var m := n % 100;
    assert n == (n / 100) * 100 + m;
    assert n % 10 == m % 10 by {
      assert n == ((n / 100) * 10) * 10 + m;
    }
  }

  /** The printed size reads back as the hundredth it was rounded to. */
  lemma Fixed2ReadsBack(num: nat, den: nat)
    requires den > 0
    ensures NumberHundredths(Fixed2(num, den)) == Some(Fixed2Hundredths(num, den))
  {
    HundredthsTextReadsBack(Fixed2Hundredths(num, den));
  }

  /** getFileSize. */
  function FileSizeText(sizeInKb: nat): (r: string)
    ensures 3 < |r|
    ensures SizeUnitOf(sizeInKb) == Gb ==>
              r[|r| - 3..] == " gb" && NumberHundredths(r[..|r| - 3]) == Some(Fixed2Hundredths(sizeInKb, GbInKb))
    ensures SizeUnitOf(sizeInKb) == Mb ==>
              r[|r| - 3..] == " mb" && NumberHundredths(r[..|r| - 3]) == Some(Fixed2Hundredths(sizeInKb % GbInKb, MbInKb))
    ensures SizeUnitOf(sizeInKb) == Kb ==>
              r[|r| - 3..] == " kb" && NumberHundredths(r[..|r| - 3]) == Some(sizeInKb * 100)
  {
    match SizeUnitOf(sizeInKb)
      case Gb =>
        Fixed2ReadsBack(sizeInKb, GbInKb);
        UnitSuffix(Fixed2(sizeInKb, GbInKb), " gb")
      case Mb =>
        Fixed2ReadsBack(sizeInKb % GbInKb, MbInKb);
        UnitSuffix(Fixed2(sizeInKb % GbInKb, MbInKb), " mb")
      case Kb =>
        DigitsValueOfNatText(sizeInKb);
        UnitSuffix(NatText(sizeInKb), " kb")
  }

  /** A number followed by its unit: the unit is the last three characters, the number what precedes them. */
  function UnitSuffix(number: string, unit: string): (r: string)
    requires |unit| == 3
    ensures |r| == |number| + 3 && r[|r| - 3..] == unit && r[..|r| - 3] == number
  {
    number + unit
  }

  /** The size text ends in the unit SizeUnitOf chooses. */
  lemma FileSizeTextUnit(sizeInKb: nat)
    ensures SizeUnitOf(sizeInKb) == Gb ==> " gb" <= FileSizeText(sizeInKb)[|FileSizeText(sizeInKb)| - 3..]
    ensures SizeUnitOf(sizeInKb) == Mb ==> " mb" <= FileSizeText(sizeInKb)[|FileSizeText(sizeInKb)| - 3..]
    ensures SizeUnitOf(sizeInKb) == Kb ==> FileSizeText(sizeInKb) == NatText(sizeInKb) + " kb"
  {
  }

  /** 1536 kB prints as "1.50 mb". */
  lemma FileSizeOf1536()
    ensures FileSizeText(1536) == "1.50 mb"
  {
    assert SizeUnitOf(1536) == Mb;
    assert 1536 % GbInKb == 1536;
    assert Fixed2Hundredths(1536, MbInKb) == 150;
    assert TwoDecimals(150) == "50";
    assert NatText(1) == "1";
  }

  // ---------------------------------------------------------------------------
  // updateSessionProgress, as a function of the stored record

  /** What one stage of updateSessionProgress makes of a successfully read record. */
  function ApplyStage(rec: SessionInfoRecord, stage: ProgressStage): (r: SessionInfoRecord)
    ensures r.sessionID == rec.sessionID
    ensures r.progressState.downloadProgressState.total == rec.progressState.downloadProgressState.total
    ensures r.progressState.downloadProgressState.finish
            == rec.progressState.downloadProgressState.finish + (if stage.Download? then 1 else 0)
    ensures !stage.Duration? ==> r.clientInfo.state == Progress
    ensures stage.Duration? ==> r.clientInfo == rec.clientInfo
  {
    var ps := rec.progressState;
    match stage
      case Download =>
        var finish := ps.downloadProgressState.finish + 1;
        var total := ps.downloadProgressState.total;
        rec.(
          clientInfo := ClientInfo(Progress,
                                   "preparing...(" + NatText(finish) + "/" + NatText(total) + ")",
                                   DownloadPercent(finish, total)),
          progressState := ps.(downloadProgressState := DownloadProgressState(total, finish)))
      case Convert(info) =>
        rec.(
          clientInfo := ClientInfo(Progress,
                                   "converting...(" + FileSizeText(info.size) + ")",
                                   ConvertPercent(info.timeMark, ps.duration)),
          progressState := ps.(convertProgressState := info))
      case Duration(duration) =>
        rec.(progressState := ps.(duration := duration))
  }

  /**
   * The download stage counts exactly one more finished file, keeps every other
   * part of the progress state, and (with a file still outstanding) the count stays
   * within the total and the percentage within [0, 100].
   */
  lemma DownloadStageCounts(rec: SessionInfoRecord)
    ensures ApplyStage(rec, Download).progressState.downloadProgressState.finish
            == rec.progressState.downloadProgressState.finish + 1
    ensures ApplyStage(rec, Download).progressState.downloadProgressState.total
            == rec.progressState.downloadProgressState.total
    ensures ApplyStage(rec, Download).sessionID == rec.sessionID
    ensures ApplyStage(rec, Download).progressState.duration == rec.progressState.duration
    ensures ApplyStage(rec, Download).progressState.convertProgressState == rec.progressState.convertProgressState
    ensures ApplyStage(rec, Download).clientInfo.state == Progress
    ensures ApplyStage(rec, Download).clientInfo.msg
            == "preparing...(" + NatText(rec.progressState.downloadProgressState.finish + 1) + "/"
               + NatText(rec.progressState.downloadProgressState.total) + ")"
    ensures ApplyStage(rec, Download).clientInfo.progress
            == DownloadPercent(rec.progressState.downloadProgressState.finish + 1, rec.progressState.downloadProgressState.total)
    ensures 0 < rec.progressState.downloadProgressState.total ==>
              && ApplyStage(rec, Download).clientInfo.progress.Finite?
              && IsFloorPercent(ApplyStage(rec, Download).clientInfo.progress.value,
                                rec.progressState.downloadProgressState.finish + 1,
                                rec.progressState.downloadProgressState.total)
    ensures rec.progressState.downloadProgressState.finish < rec.progressState.downloadProgressState.total ==>
              && ApplyStage(rec, Download).progressState.downloadProgressState.finish
                 <= ApplyStage(rec, Download).progressState.downloadProgressState.total
              && ApplyStage(rec, Download).clientInfo.progress.Finite?
              && 0 <= ApplyStage(rec, Download).clientInfo.progress.value <= 100
  {
    var ds := rec.progressState.downloadProgressState;
    if ds.finish < ds.total {
      DownloadPercentInRange(ds.finish + 1, ds.total);
    }
  }

  /** The duration stage changes the duration and nothing else. */
  lemma DurationStageOnlyDuration(rec: SessionInfoRecord, duration: string)
    ensures ApplyStage(rec, Duration(duration)).progressState.duration == duration
    ensures ApplyStage(rec, Duration(duration)).(progressState := rec.progressState.(duration := duration))
            == ApplyStage(rec, Duration(duration))
    ensures ApplyStage(rec, Duration(duration)).clientInfo == rec.clientInfo
    ensures ApplyStage(rec, Duration(duration)).sessionID == rec.sessionID
    ensures ApplyStage(rec, Duration(duration)).progressState.downloadProgressState
            == rec.progressState.downloadProgressState
    ensures ApplyStage(rec, Duration(duration)).progressState.convertProgressState
            == rec.progressState.convertProgressState
  {
  }

  /**
   * The convert stage replaces the converting state and the client information,
   * keeps the session id, the duration and the download counts, and reports the size
   * with the unit getFileSize chooses.
   */
  lemma ConvertStageReplaces(rec: SessionInfoRecord, info: ConvertProgressState)
    ensures ApplyStage(rec, Convert(info)).progressState.convertProgressState == info
    ensures ApplyStage(rec, Convert(info)).sessionID == rec.sessionID
    ensures ApplyStage(rec, Convert(info)).progressState.duration == rec.progressState.duration
    ensures ApplyStage(rec, Convert(info)).progressState.downloadProgressState
            == rec.progressState.downloadProgressState
    ensures ApplyStage(rec, Convert(info)).clientInfo.state == Progress
    ensures ApplyStage(rec, Convert(info)).clientInfo.msg
            == "converting...(" + FileSizeText(info.size) + ")"
    ensures info.size < MbInKb ==>
              ApplyStage(rec, Convert(info)).clientInfo.msg == "converting...(" + NatText(info.size) + " kb)"
    ensures ApplyStage(rec, Convert(info)).clientInfo.progress
            == ConvertPercent(info.timeMark, rec.progressState.duration)
  {
    if info.size < MbInKb {
      SizeUnitThresholds(info.size);
      assert "converting...(" + (NatText(info.size) + " kb") + ")"
             == "converting...(" + NatText(info.size) + " kb)";
    }
  }

  /** The last of n downloads reports "preparing...(n/n)" at 100 percent. */
  lemma LastDownloadIsDone(rec: SessionInfoRecord, n: nat)
    requires 0 < n && rec.progressState.downloadProgressState == DownloadProgressState(n, n - 1)
    ensures ApplyStage(rec, Download).progressState.downloadProgressState == DownloadProgressState(n, n)
    ensures ApplyStage(rec, Download).clientInfo
            == ClientInfo(Progress, "preparing...(" + NatText(n) + "/" + NatText(n) + ")", Finite(100))
  {
    DownloadPercentInRange(n, n);
  }

  /** The first of two downloads reports "preparing...(1/2)" at 50 percent. */
  lemma FirstOfTwoDownloads(rec: SessionInfoRecord)
    requires rec.progressState.downloadProgressState == DownloadProgressState(2, 0)
    ensures ApplyStage(rec, Download).clientInfo == ClientInfo(Progress, "preparing...(1/2)", Finite(50))
  {
    assert NatText(1) == "1" && NatText(2) == "2";
  }
}
