/** The slideshow of src/app/be-mine/Slideshow.tsx: the slide shown is a pure
    function of the audio's playback time (a new slide every 4 beats at 92 BPM,
    the first slide held for 2 extra beats), and an animation-frame loop copies
    that index into the component state while the audio plays. */
module Slideshow {
  import opened Common

  const SlideCount: nat := 18
  const SecondsPerBeat: real := 60.0 / 92.0
  /** (4 + 2) beats. */
  const FirstSlideDuration: real := 6.0 * SecondsPerBeat
  /** 4 beats. */
  const SlideDuration: real := 4.0 * SecondsPerBeat

  /** `getSlideIndex(time)`. Both operands of `%` are non-negative here, so
      JavaScript's `%` and Dafny's agree. */
  function SlideIndex(time: real): (idx: int)
    ensures 0 <= idx < SlideCount
    ensures time < FirstSlideDuration ==> idx == 0
  {
    if time < FirstSlideDuration then 0
    else (1 + Floor((time - FirstSlideDuration) / SlideDuration)) % SlideCount
  }

  /** After the first slide, each slide lasts exactly `SlideDuration`: one slide
      duration later the next slide (cyclically) is shown. */
  lemma {:induction false} SlideAdvances(time: real)
    requires time >= FirstSlideDuration
    ensures SlideIndex(time + SlideDuration) == (SlideIndex(time) + 1) % SlideCount
  {
    var x := (time - FirstSlideDuration) / SlideDuration;
    assert (time + SlideDuration - FirstSlideDuration) / SlideDuration == x + 1.0;
    FloorShift(1, x);
    var f := Floor(x);
    assert f >= 0;
    assert SlideIndex(time + SlideDuration) == (f + 2) % 18;
    assert SlideIndex(time) == (f + 1) % 18;
  }

  /** The show repeats every 18 slides: 18 slide durations later the same
      slide is shown again. */
  lemma {:induction false} SlideRepeats(time: real)
    requires time >= FirstSlideDuration
    ensures SlideIndex(time + SlideCount as real * SlideDuration) == SlideIndex(time)
  {
    var x := (time - FirstSlideDuration) / SlideDuration;
    assert (time + SlideCount as real * SlideDuration - FirstSlideDuration) / SlideDuration == 18.0 + x;
    FloorShift(18, x);
    var f := Floor(x);
    assert f >= 0;
    assert SlideIndex(time + SlideCount as real * SlideDuration) == (f + 19) % 18;
  }

  /** The first slide gives way to slide 1 exactly at `FirstSlideDuration`. */
  lemma SecondSlideStart()
    ensures SlideIndex(FirstSlideDuration) == 1
  {
  }

  /** The audio element as the frame loop sees it (absent while not mounted). */
  datatype Audio = Audio(paused: bool, currentTime: real)

  class SlideshowView {
    /** The `current` state. */
    var current: int

    constructor ()
      ensures current == 0
    {
      current := 0;
    }

    /** One animation frame of `tick`: while the audio plays, `current` becomes
        the index for its playback time (the functional update keeps the old
        value when they agree); otherwise nothing changes. */
    method Tick(audio: Option<Audio>)
      modifies this
      ensures (audio.Some? && !audio.value.paused) ==> current == SlideIndex(audio.value.currentTime)
      ensures !(audio.Some? && !audio.value.paused) ==> current == old(current)
    {
      if audio.Some? && !audio.value.paused {
        var next := SlideIndex(audio.value.currentTime);
        current := if current != next then next else current;
      }
    }
  }
}
