/**
 * The transport controls (`PlayerControlsView`): the time labels, the seek
 * slider's range, the slider/seek synchronisation over `isSeeking` and
 * `sliderValue`, and the play/pause button.
 *
 * The view's `@State` variables become the fields of `PlayerControls`, and
 * each SwiftUI handler becomes a method. `PlayerScreen` stands for the SwiftUI
 * runtime that delivers the engine's notifications to the manager and then
 * runs the controls' `onChange(of: currentTime)` handler when the value
 * changed.
 */
module Controls {
  import opened Options
  import opened Doubles
  import opened Numerals
  import opened Clock
  import opened Playback

  /** What `formatTime` shows for a time that is NaN or infinite */
  const Placeholder: string := "--:--"

  /** `formatTime` does not trap: a finite time converts to `Int` */
  predicate CanFormat(t: Double) {
    t.Finite? ==> ConvertsToInt(t)
  }

  /** `formatTime`: `"%02d:%02d"` of the whole minutes and the remaining
      seconds, or the placeholder when the time is NaN or infinite. `%d` reads
      a C `int`, so each `Int` field is shown by its low 32 bits. */
  function FormatTime(t: Double): (s: string)
    requires CanFormat(t)
    ensures !t.Finite? ==> s == Placeholder
    ensures t.Finite? ==> ClockChars(s) && |s| >= 5
  {
    if t.NaN? || t.Infinity? then Placeholder
    else
      var n := ToInt(t);
      JoinedClockChars(Format(Int32Bits(Minutes(n)), 2), Format(Int32Bits(Seconds(n)), 2));
      Format(Int32Bits(Minutes(n)), 2) + ":" + Format(Int32Bits(Seconds(n)), 2)
  }

  /** The text reads back as two fields exactly when the time is finite: the
      seconds left over and the minutes as a 32-bit `int` holds them, which
      makes up the truncated time whenever the minutes fit in 32 bits. The
      placeholder reads as no time at all. */
  lemma FormatTimeReadsBack(t: Double)
    requires CanFormat(t)
    ensures ReadClock(FormatTime(t)).Some? <==> t.Finite?
    ensures t.Finite? ==>
      ReadClock(FormatTime(t)).value == (Int32Bits(Minutes(ToInt(t))), Seconds(ToInt(t)))
    ensures t.Finite? && Int32Min <= Minutes(ToInt(t)) <= Int32Max ==>
      IsClockSplit(ToInt(t), ReadClock(FormatTime(t)).value.0, ReadClock(FormatTime(t)).value.1)
  {
    if t.Finite? {
      var n := ToInt(t);
      ReadClockJoined(Int32Bits(Minutes(n)), 2, Int32Bits(Seconds(n)), 2);
      ClockFields(n);
    } else {
      assert SplitAt(Placeholder, ':') == Some(("--", "--")) by {
        SplitAtJoin("--", ':', "--");
      }
    }
  }

  /** Minutes past the 32-bit range wrap around: 2^31 minutes show as
      -2147483648 minutes. */
  lemma WideMinutesWrap()
    ensures ConvertsToInt(Finite(128849018880.0))
    ensures ReadClock(FormatTime(Finite(128849018880.0))) == Some((-0x8000_0000, 0))
  {
    var t := Finite(128849018880.0);
    assert Trunc(t.value) == 128849018880;
    assert Minutes(128849018880) == 0x8000_0000;
    FormatTimeReadsBack(t);
  }

  /** Below 100 minutes the text is five characters, `MM:SS`, both fields
      two digits wide. */
  lemma FormatTimeIsFiveChars(t: Double)
    requires ConvertsToInt(t) && 0 <= ToInt(t) < 6000
    ensures |FormatTime(t)| == 5 && FormatTime(t)[2] == ':'
    ensures AllDigits(FormatTime(t)[..2]) && AllDigits(FormatTime(t)[3..])
  {
    var n := ToInt(t);
    ClockFields(n);
    FormatTwoDigits(Minutes(n));
    FormatTwoDigits(Seconds(n));
    var s := FormatTime(t);
    assert s[..2] == Format(Minutes(n), 2);
    assert s[3..] == Format(Seconds(n), 2);
  }

  /** The slider's range `0...(duration > 0 ? duration : 1)`: its upper end
      is the duration when that is above zero and 1 otherwise (zero, negative
      or NaN), so the range is never empty or a single point. */
  function SliderUpperBound(duration: Double): (r: Double)
    ensures Greater(duration, Zero) ==> r == duration
    ensures !Greater(duration, Zero) ==> r == Finite(1.0)
    ensures Greater(r, Zero)
  {
    if Greater(duration, Zero) then duration else Finite(1.0)
  }

  /** A value the slider can hold, between 0 and its upper end */
  predicate InSliderRange(v: Double, upper: Double) {
    !v.NaN? && !Less(v, Zero) && !Greater(v, upper)
  }

  /** The one completion the controls hand to `seek`: `{ self.isSeeking = false }` */
  datatype Callback = EndSeeking

  class PlayerControls {
    const manager: PlayerManager<Callback>
    /** The user is dragging the slider or its seek has not finished */
    var isSeeking: bool
    /** The slider's position, in seconds */
    var sliderValue: Double

    constructor (manager: PlayerManager<Callback>)
      ensures this.manager == manager
      ensures !isSeeking && sliderValue == Zero
    {
      this.manager := manager;
      isSeeking := false;
      sliderValue := Zero;
    }

    function UpperBound(): Double
      reads this, manager
    {
      SliderUpperBound(manager.duration)
    }

    /** `onAppear`: the slider starts at the player's current time. */
    method OnAppear()
      modifies this
      ensures sliderValue == manager.currentTime
      ensures isSeeking == old(isSeeking)
    {
      sliderValue := manager.currentTime;
    }

    /** The slider's binding writes the position the user dragged to. */
    method OnSliderMoved(v: Double)
      requires InSliderRange(v, UpperBound())
      modifies this
      ensures sliderValue == v
      ensures isSeeking == old(isSeeking)
    {
      sliderValue := v;
    }

    /** `onEditingChanged`: a drag that begins only raises `isSeeking`; a drag
        that ends hands exactly one seek, to the slider's position, to the
        manager, with the completion that lowers `isSeeking` again. */
    method OnEditingChanged(editing: bool)
      modifies this, manager
      ensures editing ==> isSeeking && manager.inFlight == old(manager.inFlight)
      ensures !editing ==> isSeeking == old(isSeeking)
      ensures !editing ==>
        manager.inFlight == old(manager.inFlight) + [SeekRequest(sliderValue, Some(EndSeeking))]
      ensures sliderValue == old(sliderValue)
      ensures manager.isPlaying == old(manager.isPlaying)
      ensures manager.currentTime == old(manager.currentTime)
      ensures manager.duration == old(manager.duration)
    {
      if editing {
        isSeeking := true;
      } else {
        manager.Seek(sliderValue, Some(EndSeeking));
      }
    }

    /** `onChange(of: currentTime)`: the slider follows the player's time only
        while the user is not seeking. */
    method OnCurrentTimeChange()
      modifies this
      ensures sliderValue == if old(isSeeking) then old(sliderValue) else manager.currentTime
      ensures isSeeking == old(isSeeking)
    {
      if !isSeeking {
        sliderValue := manager.currentTime;
      }
    }

    /** Runs a completion the controls handed to `seek`. */
    method Run(c: Callback)
      modifies this
      ensures !isSeeking
      ensures sliderValue == old(sliderValue)
    {
      match c
      case EndSeeking => isSeeking := false;
    }

    /** The play/pause button: pauses a playing player and plays a paused
        one, so each press flips `isPlaying`. */
    method OnPlayPauseTapped()
      modifies manager
      ensures manager.isPlaying == !old(manager.isPlaying)
      ensures manager.currentTime == old(manager.currentTime)
      ensures manager.duration == old(manager.duration)
      ensures manager.inFlight == old(manager.inFlight)
    {
      if manager.isPlaying {
        manager.Pause();
      } else {
        manager.Play();
      }
    }
  }

  /** A manager with its controls, and the delivery of the engine's
      notifications to them. */
  class PlayerScreen {
    const manager: PlayerManager<Callback>
    const controls: PlayerControls

    ghost predicate Valid()
      reads this, controls
    {
      controls.manager == manager
    }

    constructor ()
      ensures Valid() && fresh(manager) && fresh(controls)
      ensures !manager.isPlaying && manager.currentTime == Zero && manager.duration == Zero
      ensures manager.inFlight == []
      ensures !controls.isSeeking && controls.sliderValue == Zero
    {
      var m := new PlayerManager<Callback>();
      manager := m;
      controls := new PlayerControls(m);
    }

    /** A time tick: the manager takes the time, and when it differs from the
        old one (Swift's `==`) the controls' `onChange` runs. */
    method EngineTick(t: Double)
      requires Valid()
      modifies manager, controls
      ensures manager.currentTime == t
      ensures manager.isPlaying == old(manager.isPlaying) && manager.duration == old(manager.duration)
      ensures manager.inFlight == old(manager.inFlight)
      ensures controls.isSeeking == old(controls.isSeeking)
      ensures controls.sliderValue ==
        if old(controls.isSeeking) || Equal(old(manager.currentTime), t)
        then old(controls.sliderValue) else t
    {
      var before := manager.currentTime;
      manager.OnTick(t);
      if !Equal(before, t) {
        controls.OnCurrentTimeChange();
      }
    }

    /** The engine answers the oldest seek; a finished seek of the controls
        runs their completion, which lowers `isSeeking`. */
    method EngineSeekResult(finished: bool)
      requires Valid() && manager.inFlight != []
      modifies manager, controls
      ensures manager.inFlight == old(manager.inFlight[1..])
      ensures manager.isPlaying == old(manager.isPlaying)
      ensures manager.currentTime == old(manager.currentTime)
      ensures manager.duration == old(manager.duration)
      ensures controls.isSeeking ==
        (old(controls.isSeeking) && !(finished && old(manager.inFlight[0].completion).Some?))
      ensures controls.sliderValue == old(controls.sliderValue)
    {
      var run := manager.OnSeekResult(finished);
      if run.Some? {
        controls.Run(run.value);
      }
    }

    /** The item reports its duration; nothing in the controls reacts. */
    method EngineDuration(d: Double)
      requires Valid()
      modifies manager
      ensures manager.duration == d
      ensures manager.isPlaying == old(manager.isPlaying)
      ensures manager.currentTime == old(manager.currentTime)
      ensures manager.inFlight == old(manager.inFlight)
    {
      manager.OnDuration(d);
    }

    /** The player reports its rate; nothing in the controls reacts. */
    method EngineRate(r: Double)
      requires Valid()
      modifies manager
      ensures manager.isPlaying <==> Greater(r, Zero)
      ensures manager.currentTime == old(manager.currentTime)
      ensures manager.duration == old(manager.duration)
      ensures manager.inFlight == old(manager.inFlight)
    {
      manager.OnRate(r);
    }
  }

  /** An engine notification other than a seek answer */
  datatype Notification = Tick(time: Double) | DurationKnown(duration: Double) | RateChanged(rate: Double)

  /** Delivers `n` to the screen: a tick sets the time and moves the slider
      to it when not seeking and the time changed, a duration or a rate
      notification reaches the manager alone, and none of them touches
      `isSeeking` or the seeks in flight. */
  method Deliver(screen: PlayerScreen, n: Notification)
    requires screen.Valid()
    modifies screen.manager, screen.controls
    ensures screen.controls.isSeeking == old(screen.controls.isSeeking)
    ensures screen.manager.inFlight == old(screen.manager.inFlight)
    ensures n.Tick? ==>
      && screen.manager.currentTime == n.time
      && screen.manager.isPlaying == old(screen.manager.isPlaying)
      && screen.manager.duration == old(screen.manager.duration)
      && screen.controls.sliderValue ==
           if old(screen.controls.isSeeking) || Equal(old(screen.manager.currentTime), n.time)
           then old(screen.controls.sliderValue) else n.time
    ensures n.DurationKnown? ==>
      && screen.manager.duration == n.duration
      && screen.manager.isPlaying == old(screen.manager.isPlaying)
      && screen.manager.currentTime == old(screen.manager.currentTime)
      && screen.controls.sliderValue == old(screen.controls.sliderValue)
    ensures n.RateChanged? ==>
      && (screen.manager.isPlaying <==> Greater(n.rate, Zero))
      && screen.manager.currentTime == old(screen.manager.currentTime)
      && screen.manager.duration == old(screen.manager.duration)
      && screen.controls.sliderValue == old(screen.controls.sliderValue)
    ensures old(screen.controls.isSeeking) ==> screen.controls.sliderValue == old(screen.controls.sliderValue)
  {
    match n
    case Tick(t) => screen.EngineTick(t);
    case DurationKnown(d) => screen.EngineDuration(d);
    case RateChanged(r) => screen.EngineRate(r);
  }

  /** A drag to `target`, begun with no earlier seek in flight, whose seek the
      engine reports not finished leaves `isSeeking` raised for good: whatever
      notifications follow, the slider stays where the user left it and no
      seek is in flight any more. */
  method UnfinishedSeekFreezesSlider(screen: PlayerScreen, target: Double, later: seq<Notification>)
    requires screen.Valid() && screen.manager.inFlight == []
    requires InSliderRange(target, screen.controls.UpperBound())
    modifies screen.manager, screen.controls
    ensures screen.controls.isSeeking && screen.controls.sliderValue == target
    ensures screen.manager.inFlight == []
  {
    var controls := screen.controls;
    controls.OnEditingChanged(true);
    controls.OnSliderMoved(target);
    controls.OnEditingChanged(false);
    screen.EngineSeekResult(false);
    var i := 0;
    while i < |later|
      invariant 0 <= i <= |later|
      invariant screen.Valid() && screen.controls == controls
      invariant controls.isSeeking && controls.sliderValue == target
      invariant screen.manager.inFlight == []
    {
      Deliver(screen, later[i]);
      i := i + 1;
    }
  }

  /** When the seek of a drag begun with no earlier seek in flight finishes,
      `isSeeking` falls, and the next tick moves the slider to its time if
      that differs from the player's time before the tick; a tick repeating
      that time does not fire `onChange`, so the slider keeps the dragged
      position. */
  method FinishedSeekReleasesSlider(screen: PlayerScreen, target: Double, t: Double)
    requires screen.Valid() && screen.manager.inFlight == []
    requires InSliderRange(target, screen.controls.UpperBound())
    modifies screen.manager, screen.controls
    ensures !screen.controls.isSeeking && screen.manager.inFlight == []
    ensures screen.controls.sliderValue == if Equal(old(screen.manager.currentTime), t) then target else t
  {
    var controls := screen.controls;
    controls.OnEditingChanged(true);
    controls.OnSliderMoved(target);
    controls.OnEditingChanged(false);
    screen.EngineSeekResult(true);
    screen.EngineTick(t);
  }

  /** While the user drags, no tick, duration or rate notification moves the
      slider, whatever seeks are in flight. (A seek answer can release the
      slider during a drag, so that the next tick moves it: see
      `StaleSeekMovesSliderMidDrag`.) */
  method DragHoldsSlider(screen: PlayerScreen, target: Double, during: seq<Notification>)
    requires screen.Valid()
    requires InSliderRange(target, screen.controls.UpperBound())
    modifies screen.manager, screen.controls
    ensures screen.controls.isSeeking && screen.controls.sliderValue == target
    ensures screen.manager.inFlight == old(screen.manager.inFlight)
  {
    var controls := screen.controls;
    controls.OnEditingChanged(true);
    controls.OnSliderMoved(target);
    var i := 0;
    while i < |during|
      invariant 0 <= i <= |during|
      invariant screen.Valid() && screen.controls == controls
      invariant controls.isSeeking && controls.sliderValue == target
      invariant screen.manager.inFlight == old(screen.manager.inFlight)
    {
      Deliver(screen, during[i]);
      i := i + 1;
    }
  }

  /** The completion of an earlier drag's seek lowers `isSeeking` in the
      middle of a later drag: the user releases at `first`, grabs the slider
      again and moves it to `second`, the first seek finishes, and the next
      tick pulls the slider from under the finger to the player's time. */
  method StaleSeekMovesSliderMidDrag(d: Double, first: Double, second: Double, t: Double)
    returns (seeking: bool, slider: Double)
    requires InSliderRange(first, SliderUpperBound(d)) && InSliderRange(second, SliderUpperBound(d))
    requires !Equal(Zero, t)
    ensures !seeking && slider == t
  {
    var screen := new PlayerScreen();
    var controls := screen.controls;
    screen.EngineDuration(d);
    controls.OnEditingChanged(true);
    controls.OnSliderMoved(first);
    controls.OnEditingChanged(false);
    controls.OnEditingChanged(true);
    controls.OnSliderMoved(second);
    screen.EngineSeekResult(true);
    screen.EngineTick(t);
    seeking, slider := controls.isSeeking, controls.sliderValue;
  }

  /** The completion a corrected slider hands to `seek`: it names the drag
      whose seek it ends. */
  datatype Ticket = EndDrag(drag: nat)

  /** The completion `c` was handed over before drag number `n` began. */
  predicate IssuedBefore(c: Option<Ticket>, n: nat) {
    c.Some? ==> c.value.drag < n
  }

  /** The controls with that race removed: drags are numbered, and a
      completion lowers `isSeeking` only when it ends the latest drag. The
      engine's notifications are delivered to these controls directly. */
  class GuardedControls {
    const manager: PlayerManager<Ticket>
    var isSeeking: bool
    var sliderValue: Double
    /** Drags begun so far; the latest drag has this number */
    var drags: nat
    /** The user's finger is on the slider */
    ghost var dragging: bool

    /** Every seek in flight belongs to a drag that has begun, and during a
        drag to an earlier one; a drag keeps `isSeeking` raised. */
    ghost predicate Valid()
      reads this, manager
    {
      && (dragging ==> isSeeking)
      && forall i | 0 <= i < |manager.inFlight| ::
           IssuedBefore(manager.inFlight[i].completion, if dragging then drags else drags + 1)
    }

    constructor ()
      ensures Valid() && fresh(manager)
      ensures manager.inFlight == [] && manager.currentTime == Zero && manager.duration == Zero
      ensures !manager.isPlaying
      ensures !isSeeking && !dragging && sliderValue == Zero && drags == 0
    {
      manager := new PlayerManager<Ticket>();
      isSeeking := false;
      sliderValue := Zero;
      drags := 0;
      dragging := false;
    }

    function UpperBound(): Double
      reads this, manager
    {
      SliderUpperBound(manager.duration)
    }

    /** A drag that begins gets the next number and raises `isSeeking`; a
        drag that ends seeks to the slider's position with a completion
        naming that drag. */
    method OnEditingChanged(editing: bool)
      requires Valid()
      modifies this, manager
      ensures Valid()
      ensures dragging == editing
      ensures editing ==> isSeeking && drags == old(drags) + 1 && manager.inFlight == old(manager.inFlight)
      ensures !editing ==> isSeeking == old(isSeeking) && drags == old(drags)
      ensures !editing ==>
        manager.inFlight == old(manager.inFlight) + [SeekRequest(sliderValue, Some(EndDrag(drags)))]
      ensures sliderValue == old(sliderValue)
      ensures manager.isPlaying == old(manager.isPlaying)
      ensures manager.currentTime == old(manager.currentTime) && manager.duration == old(manager.duration)
    {
      if editing {
        drags := drags + 1;
        isSeeking := true;
        dragging := true;
      } else {
        manager.Seek(sliderValue, Some(EndDrag(drags)));
        dragging := false;
      }
    }

    method OnSliderMoved(v: Double)
      requires Valid() && InSliderRange(v, UpperBound())
      modifies this
      ensures Valid()
      ensures sliderValue == v
      ensures isSeeking == old(isSeeking) && drags == old(drags) && dragging == old(dragging)
    {
      sliderValue := v;
    }

    /** A tick; the slider follows a changed time only while not seeking. */
    method EngineTick(t: Double)
      requires Valid()
      modifies this, manager
      ensures Valid()
      ensures manager.currentTime == t && manager.duration == old(manager.duration)
      ensures manager.isPlaying == old(manager.isPlaying)
      ensures manager.inFlight == old(manager.inFlight)
      ensures isSeeking == old(isSeeking) && drags == old(drags) && dragging == old(dragging)
      ensures sliderValue ==
        if old(isSeeking) || Equal(old(manager.currentTime), t) then old(sliderValue) else t
    {
      var before := manager.currentTime;
      manager.OnTick(t);
      if !Equal(before, t) && !isSeeking {
        sliderValue := manager.currentTime;
      }
    }

    /** The engine answers the oldest seek: its completion lowers `isSeeking`
        only if the seek finished and belongs to the latest drag, so during a
        drag no answer releases the slider. */
    method EngineSeekResult(finished: bool)
      requires Valid() && manager.inFlight != []
      modifies this, manager
      ensures Valid()
      ensures manager.inFlight == old(manager.inFlight[1..])
      ensures isSeeking ==
        (old(isSeeking) && !(finished && old(manager.inFlight[0].completion) == Some(EndDrag(drags))))
      ensures dragging ==> isSeeking
      ensures sliderValue == old(sliderValue) && drags == old(drags) && dragging == old(dragging)
      ensures manager.isPlaying == old(manager.isPlaying)
      ensures manager.currentTime == old(manager.currentTime) && manager.duration == old(manager.duration)
    {
      var run := manager.OnSeekResult(finished);
      if run.Some? && run.value.drag == drags {
        isSeeking := false;
      }
      assert forall i | 0 <= i < |manager.inFlight| ::
        manager.inFlight[i] == old(manager.inFlight)[i + 1];
    }
  }

  /** The same events as in `StaleSeekMovesSliderMidDrag` leave the corrected
      slider under the finger; once the second drag ends and its own seek
      finishes, `isSeeking` falls. */
  method GuardedDragHoldsSlider(d: Double, first: Double, second: Double, t: Double)
    returns (heldSeeking: bool, heldSlider: Double, releasedSeeking: bool)
    requires InSliderRange(first, SliderUpperBound(d)) && InSliderRange(second, SliderUpperBound(d))
    ensures heldSeeking && heldSlider == second
    ensures !releasedSeeking
  {
    var controls := new GuardedControls();
    controls.manager.OnDuration(d);
    controls.OnEditingChanged(true);
    controls.OnSliderMoved(first);
    controls.OnEditingChanged(false);
    controls.OnEditingChanged(true);
    controls.OnSliderMoved(second);
    controls.EngineSeekResult(true);
    controls.EngineTick(t);
    heldSeeking, heldSlider := controls.isSeeking, controls.sliderValue;
    controls.OnEditingChanged(false);
    controls.EngineSeekResult(true);
    releasedSeeking := controls.isSeeking;
  }
}
