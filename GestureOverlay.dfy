/**
 * The gesture feedback overlay (`GestureOverlayView`): for a gesture type and
 * a value it picks an icon, a line of text and whether a level bar is drawn.
 * All of it is computed from its two inputs.
 */
module Overlay {
  import opened Options
  import opened Doubles
  import opened Numerals
  import opened Clock
  import Controls

  datatype GestureType =
    | Volume
    | Brightness
    | Progress(currentTime: Double, totalTime: Double)

  const VolumeMutedIcon: string := "speaker.slash.fill"
  const VolumeLowIcon: string := "speaker.wave.1.fill"
  const VolumeMediumIcon: string := "speaker.wave.2.fill"
  const VolumeHighIcon: string := "speaker.wave.3.fill"
  const BrightnessIcon: string := "sun.max.fill"
  const ProgressIcon: string := "timer"

  const LowThreshold: Double := Finite(0.33)
  const HighThreshold: Double := Finite(0.66)

  /** `iconName`: a speaker icon for volume, chosen by the value, and one
      fixed icon for each of the other two gestures */
  function IconName(g: GestureType, value: Double): (r: string)
    ensures g.Volume? <==> r in VolumeIcons
    ensures g.Progress? <==> r == ProgressIcon
  {
    assert BrightnessIcon[0] == 's' && BrightnessIcon[1] == 'u' && ProgressIcon[0] == 't';
    assert forall i | 0 <= i < |VolumeIcons| :: VolumeIcons[i][1] == 'p';
    match g
    case Volume =>
      if Equal(value, Zero) then VolumeMutedIcon
      else if Less(value, LowThreshold) then VolumeLowIcon
      else if Less(value, HighThreshold) then VolumeMediumIcon
      else VolumeHighIcon
    case Brightness => BrightnessIcon
    case Progress(_, _) => ProgressIcon
  }

  /** The four volume icons, quietest first */
  const VolumeIcons: seq<string> :=
    [VolumeMutedIcon, VolumeLowIcon, VolumeMediumIcon, VolumeHighIcon]

  /** The volume band a value falls in, by interval rather than by the
      icon's chain of tests: 0 is muted, [0.66, ∞) high, [0.33, 0.66) medium,
      and every other value (below zero or in (0, 0.33)) low. */
  function VolumeLevel(v: real): (k: nat)
    ensures k < 4
  {
    if v == 0.0 then 0
    else if 0.66 <= v then 3
    else if 0.33 <= v then 2
    else 1
  }

  /** For a finite value the volume icon is the one of its band, so exactly
      one of the four icons is shown; bands of values above zero follow the
      interval bounds. */
  lemma VolumeIconByLevel(v: real)
    ensures IconName(Volume, Finite(v)) == VolumeIcons[VolumeLevel(v)]
    ensures 0.0 < v < 0.33 ==> VolumeLevel(v) == 1
    ensures 0.33 <= v < 0.66 ==> VolumeLevel(v) == 2
    ensures 0.66 <= v ==> VolumeLevel(v) == 3
  {
  }

  /** Distinct bands show distinct icons: the icon identifies the band. */
  lemma VolumeIconsDistinct(a: real, b: real)
    ensures IconName(Volume, Finite(a)) == IconName(Volume, Finite(b)) <==> VolumeLevel(a) == VolumeLevel(b)
  {
    VolumeIconByLevel(a);
    VolumeIconByLevel(b);
    assert VolumeMutedIcon[8] == 's' && VolumeLowIcon[8] == 'w';
    assert VolumeLowIcon[13] == '1' && VolumeMediumIcon[13] == '2' && VolumeHighIcon[13] == '3';
    assert VolumeMutedIcon != VolumeLowIcon && VolumeMutedIcon != VolumeMediumIcon;
    assert VolumeMutedIcon != VolumeHighIcon && VolumeLowIcon != VolumeMediumIcon;
    assert VolumeLowIcon != VolumeHighIcon && VolumeMediumIcon != VolumeHighIcon;
  }

  /** From zero upwards a louder value never shows a quieter icon. */
  lemma VolumeLevelMonotone(a: real, b: real)
    requires 0.0 <= a <= b
    ensures VolumeLevel(a) <= VolumeLevel(b)
  {
  }

  /** Below zero the bands are not monotone: a negative value shows the low
      icon, louder than the muted icon of zero. */
  lemma NegativeVolumeShowsLow(v: real)
    requires v < 0.0
    ensures IconName(Volume, Finite(v)) == VolumeLowIcon
    ensures VolumeLevel(v) > VolumeLevel(0.0)
  {
  }

  /** NaN passes none of the tests and shows the loudest icon; so do the
      infinities above, while minus infinity shows the low one. */
  lemma VolumeIconOfNonFinite()
    ensures IconName(Volume, NaN) == VolumeHighIcon
    ensures IconName(Volume, Infinity(false)) == VolumeHighIcon
    ensures IconName(Volume, Infinity(true)) == VolumeLowIcon
  {
  }

  /** Brightness and progress have one icon each, whatever the value. */
  lemma FixedIcons(value: Double, other: Double, c: Double, t: Double)
    ensures IconName(Brightness, value) == IconName(Brightness, other) == BrightnessIcon
    ensures IconName(Progress(c, t), value) == IconName(Progress(c, t), other) == ProgressIcon
  {
  }

  /** `Int(value * 100)` does not trap */
  predicate CanShowPercent(value: Double) {
    ConvertsToInt(Scale(value, 100.0))
  }

  /** `Int(value * 100)`, the percentage shown for volume and brightness */
  function Percent(value: Double): (p: int)
    requires CanShowPercent(value)
    ensures 0.0 <= value.value <= 1.0 ==> 0 <= p <= 100
    ensures 0.0 <= value.value <= 1.0 ==> (p == 100 <==> value.value == 1.0)
    ensures value.value >= 0.0 ==> p as real <= value.value * 100.0 < p as real + 1.0
  {
    ToInt(Scale(value, 100.0))
  }

  /** `formatTime` of the overlay: `"%d:%02d"`, minutes without padding and
      seconds two digits wide, each `Int` field shown by its low 32 bits as
      `%d` reads a C `int`. There is no guard, so the time must convert to
      `Int`. */
  function FormatTime(t: Double): (s: string)
    requires ConvertsToInt(t)
    ensures ClockChars(s)
    ensures |s| >= 1 && IsDigit(s[|s| - 1])
  {
    var n := ToInt(t);
    JoinedClockChars(Format(Int32Bits(Minutes(n)), 0), Format(Int32Bits(Seconds(n)), 2));
    Format(Int32Bits(Minutes(n)), 0) + ":" + Format(Int32Bits(Seconds(n)), 2)
  }

  /** The minutes and seconds `formatTime` shows for `t`: the seconds left
      over and the minutes as a 32-bit `int` holds them */
  function Shown(t: Double): (int, int)
    requires ConvertsToInt(t)
  {
    (Int32Bits(Minutes(ToInt(t))), Seconds(ToInt(t)))
  }

  /** The text reads back as the seconds left over and the minutes as a
      32-bit `int` holds them; whenever the minutes fit, the two make up
      the time. */
  lemma FormatTimeReadsBack(t: Double)
    requires ConvertsToInt(t)
    ensures ReadClock(FormatTime(t)) == Some(Shown(t))
    ensures Int32Min <= Minutes(ToInt(t)) <= Int32Max ==>
      IsClockSplit(ToInt(t), ReadClock(FormatTime(t)).value.0, ReadClock(FormatTime(t)).value.1)
  {
    var n := ToInt(t);
    ReadClockJoined(Int32Bits(Minutes(n)), 0, Int32Bits(Seconds(n)), 2);
    ClockFields(n);
  }

  /** For a time from zero up, the seconds field is two digits and the
      controls' text differs only by a leading zero on shown minutes
      from 0 to 9. */
  lemma FormatTimeAgainstControls(t: Double)
    requires ConvertsToInt(t) && ToInt(t) >= 0
    ensures var s := FormatTime(t); |s| >= 4 && s[|s| - 3] == ':' && AllDigits(s[|s| - 2..])
    ensures Controls.FormatTime(t) ==
      (if 0 <= Int32Bits(Minutes(ToInt(t))) < 10 then "0" else "") + FormatTime(t)
  {
    var n := ToInt(t);
    ClockFields(n);
    FormatPadOne(Int32Bits(Minutes(n)));
    FormatTwoDigits(Seconds(n));
    var m := Format(Int32Bits(Minutes(n)), 0);
    var sec := Format(Int32Bits(Seconds(n)), 2);
    assert |m| >= 1;
    assert FormatTime(t) == m + ":" + sec;
    assert FormatTime(t)[|FormatTime(t)| - 2..] == sec;
  }

  /** The separator between the two times of the progress text */
  const Separator: string := " / "
  const VolumeLabel: string := "音量 "
  const BrightnessLabel: string := "亮度 "

  /** `displayText` does not trap */
  predicate CanDisplay(g: GestureType, value: Double) {
    match g
    case Volume => CanShowPercent(value)
    case Brightness => CanShowPercent(value)
    case Progress(c, t) => ConvertsToInt(c) && ConvertsToInt(t)
  }

  /** `displayText`: a labelled percentage for volume and brightness, two
      clocks for progress; only the percentages end in `%`. */
  function DisplayText(g: GestureType, value: Double): (r: string)
    requires CanDisplay(g, value)
    ensures |r| >= 1 && (g.Progress? <==> r[|r| - 1] != '%')
    ensures g.Progress? ==> IsDigit(r[|r| - 1])
  {
    match g
    case Volume => VolumeLabel + Format(Percent(value), 0) + "%"
    case Brightness => BrightnessLabel + Format(Percent(value), 0) + "%"
    case Progress(c, t) => FormatTime(c) + Separator + FormatTime(t)
  }

  /** What a reader takes from the overlay's text */
  datatype Reading =
    | VolumePercent(percent: int)
    | BrightnessPercent(percent: int)
    | Elapsed(current: (int, int), total: (int, int))

  /** Reads a percentage after `prefix` and before a final `%`. */
  function ReadPercent(s: string, prefix: string): Option<int> {
    if |s| > |prefix| && s[..|prefix|] == prefix && s[|s| - 1] == '%'
    then ParseInt(s[|prefix|..|s| - 1])
    else None
  }

  /** Reads the two clocks around the separator. */
  function ReadElapsed(s: string): Option<((int, int), (int, int))> {
    match SplitAt(s, ' ')
    case None => None
    case Some((a, rest)) =>
      if |rest| >= 2 && rest[..2] == "/ " then
        match (ReadClock(a), ReadClock(rest[2..]))
        case (Some(c), Some(t)) => Some((c, t))
        case _ => None
      else None
  }

  /** Reads the overlay's text back. */
  function ReadDisplay(s: string): Option<Reading> {
    match ReadPercent(s, VolumeLabel)
    case Some(p) => Some(VolumePercent(p))
    case None =>
      match ReadPercent(s, BrightnessLabel)
      case Some(p) => Some(BrightnessPercent(p))
      case None =>
        match ReadElapsed(s)
        case Some((c, t)) => Some(Elapsed(c, t))
        case None => None
  }

  lemma ReadPercentOf(prefix: string, p: int)
    ensures ReadPercent(prefix + Format(p, 0) + "%", prefix) == Some(p)
  {
    var s := prefix + Format(p, 0) + "%";
    FormatRoundTrip(p, 0);
    assert s[..|prefix|] == prefix;
    assert s[|prefix|..|s| - 1] == Format(p, 0);
  }

  lemma ReadPercentWrongLabel(s: string, prefix: string, other: string)
    requires |prefix| == |other| && prefix != other
    requires |s| > |prefix| && s[..|prefix|] == prefix
    ensures ReadPercent(s, other) == None
  {
  }

  lemma ClockCharsHaveNoSpace(a: string)
    requires ClockChars(a)
    ensures ' ' !in a
  {
  }

  lemma ReadElapsedOf(a: string, b: string)
    requires ClockChars(a) && ReadClock(a).Some? && ReadClock(b).Some?
    ensures ReadElapsed(a + Separator + b) == Some((ReadClock(a).value, ReadClock(b).value))
  {
    ClockCharsHaveNoSpace(a);
    var rest := "/ " + b;
    assert a + Separator + b == a + [' '] + rest;
    SplitAtJoin(a, ' ', rest);
    assert rest[..2] == "/ " && rest[2..] == b;
  }

  /** Two clock texts around the separator read back as those clocks and as
      neither percentage. */
  lemma ClocksTextReadsBack(a: string, b: string)
    requires |a| >= 1 && ClockChars(a) && ReadClock(a).Some? && ReadClock(b).Some?
    ensures ReadDisplay(a + Separator + b) == Some(Elapsed(ReadClock(a).value, ReadClock(b).value))
  {
    var s := a + Separator + b;
    ReadElapsedOf(a, b);
    assert s[0] == a[0];
    assert a[0] == ':' || IsNumeralChar(a[0]);
    ReadPercentOtherStart(s, VolumeLabel);
    ReadPercentOtherStart(s, BrightnessLabel);
  }

  /** Text that does not start as the label does is no percentage after it. */
  lemma ReadPercentOtherStart(s: string, prefix: string)
    requires |s| >= 1 && |prefix| >= 1 && s[0] != prefix[0]
    ensures ReadPercent(s, prefix) == None
  {
  }

  /** The overlay's text reads back as what it shows: for volume and
      brightness the kind and `Int(value * 100)`, for progress the two clocks
      (`ProgressTextReadsBack`). */
  lemma DisplayTextReadsBack(g: GestureType, value: Double)
    requires CanDisplay(g, value)
    ensures g.Volume? ==> ReadDisplay(DisplayText(g, value)) == Some(VolumePercent(Percent(value)))
    ensures g.Brightness? ==> ReadDisplay(DisplayText(g, value)) == Some(BrightnessPercent(Percent(value)))
    ensures g.Progress? ==>
      ReadDisplay(DisplayText(g, value)) == Some(Elapsed(Shown(g.currentTime), Shown(g.totalTime)))
  {
    match g
    case Volume =>
      ReadPercentOf(VolumeLabel, Percent(value));
    case Brightness =>
      ReadPercentOf(BrightnessLabel, Percent(value));
      ReadPercentWrongLabel(DisplayText(g, value), BrightnessLabel, VolumeLabel);
    case Progress(c, t) =>
      ProgressTextReadsBack(c, t, value);
  }

  /** The progress text reads back as two clocks, the ones `formatTime`
      wrote, whose fields make up the current and total times whenever
      their minutes fit in 32 bits. */
  lemma ProgressTextReadsBack(c: Double, t: Double, value: Double)
    requires ConvertsToInt(c) && ConvertsToInt(t)
    ensures ReadDisplay(DisplayText(Progress(c, t), value)) == Some(Elapsed(Shown(c), Shown(t)))
    ensures var r := ReadDisplay(DisplayText(Progress(c, t), value)).value;
      && (Int32Min <= Minutes(ToInt(c)) <= Int32Max ==> IsClockSplit(ToInt(c), r.current.0, r.current.1))
      && (Int32Min <= Minutes(ToInt(t)) <= Int32Max ==> IsClockSplit(ToInt(t), r.total.0, r.total.1))
  {
    var a, b := FormatTime(c), FormatTime(t);
    FormatTimeReadsBack(c);
    FormatTimeReadsBack(t);
    ClocksTextReadsBack(a, b);
  }

  /** The level bar is drawn for volume and brightness and never for progress. */
  function ShowsLevelBar(g: GestureType): (r: bool)
    ensures r <==> !g.Progress?
  {
    match g
    case Volume => true
    case Brightness => true
    case Progress(_, _) => false
  }

  /** The bar goes with the level icons: it is drawn exactly when the icon
      is not the timer. */
  lemma LevelBarWithLevelIcon(g: GestureType, value: Double)
    ensures ShowsLevelBar(g) <==> IconName(g, value) != ProgressIcon
  {
    match g
    case Volume =>
      assert VolumeMutedIcon != ProgressIcon && VolumeLowIcon != ProgressIcon;
      assert VolumeMediumIcon != ProgressIcon && VolumeHighIcon != ProgressIcon;
    case Brightness =>
      assert BrightnessIcon != ProgressIcon;
    case Progress(_, _) =>
  }

  /** The bar goes with a percentage: it is drawn exactly when the text
      reads as a percentage rather than as two clocks. */
  lemma LevelBarWithPercent(g: GestureType, value: Double)
    requires CanDisplay(g, value)
    ensures ReadDisplay(DisplayText(g, value)).Some?
    ensures ShowsLevelBar(g) <==> !ReadDisplay(DisplayText(g, value)).value.Elapsed?
  {
    DisplayTextReadsBack(g, value);
  }
}
