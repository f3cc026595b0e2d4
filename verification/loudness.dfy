/**
 * The consecutive-loudness trigger shared by the cry detector (src/lina.py)
 * and the stream test script (src/custom/streamtest.py).
 *
 * Each audio frame contributes one peak value.  A frame whose peak is
 * strictly above the threshold extends the run of loud frames by one; any
 * other frame breaks it.  When the run reaches the trigger length the
 * action fires and the counter starts again from zero.  The peak itself is
 * an average over PyAudio samples; here it is an abstract integer input.
 */
module Loudness {

  /** Threshold and run length of one detector. */
  datatype Detector = Detector(threshold: int, trigger: nat)

  predicate Valid(d: Detector) {
    d.trigger >= 1
  }

  /** The cry detector of src/lina.py. */
  const Lina := Detector(23000, 5)

  /** The stream test of src/custom/streamtest.py. */
  const StreamTest := Detector(30000, 5)

  /** `int(10*44100/1024)`: Python truncates the positive quotient. */
  const StreamFrames: nat := 10 * 44100 / 1024

  predicate Loud(d: Detector, peak: int) {
    peak > d.threshold
  }

  /** One frame: the new counter and whether the action fired on it. */
  function Step(d: Detector, counter: nat, peak: int): (r: (nat, bool))
    requires Valid(d)
    ensures !Loud(d, peak) ==> r == (0, false)
    ensures r.1 <==> Loud(d, peak) && counter + 1 >= d.trigger
    ensures r.1 ==> r.0 == 0
    ensures Loud(d, peak) && !r.1 ==> r.0 == counter + 1
    ensures counter < d.trigger ==> r.0 < d.trigger
  {
    var c := if peak > d.threshold then counter + 1 else 0;
    if c >= d.trigger then (0, true) else (c, false)
  }

  /** The counter after all of `peaks`, and whether the last frame fired. */
  function Run(d: Detector, peaks: seq<int>): (nat, bool)
    requires Valid(d)
  {
    if peaks == [] then (0, false)
    else Step(d, Run(d, peaks[..|peaks| - 1]).0, peaks[|peaks| - 1])
  }

  /** Number of frames of `peaks` on which the action fired. */
  function FireCount(d: Detector, peaks: seq<int>): nat
    requires Valid(d)
  {
    if peaks == [] then 0
    else FireCount(d, peaks[..|peaks| - 1]) + (if Run(d, peaks).1 then 1 else 0)
  }

  /** Reference definition: the length of the run of loud frames ending the input. */
  function LoudRun(d: Detector, peaks: seq<int>): nat
  {
    if peaks == [] || !Loud(d, peaks[|peaks| - 1]) then 0
    else LoudRun(d, peaks[..|peaks| - 1]) + 1
  }

  lemma LoudRunSuffix(d: Detector, peaks: seq<int>)
    ensures LoudRun(d, peaks) <= |peaks|
    ensures forall i :: |peaks| - LoudRun(d, peaks) <= i < |peaks| ==> Loud(d, peaks[i])
  {
    if peaks != [] && Loud(d, peaks[|peaks| - 1]) {
      var init := peaks[..|peaks| - 1];
      LoudRunSuffix(d, init);
      forall i | |peaks| - LoudRun(d, peaks) <= i < |peaks|
        ensures Loud(d, peaks[i])
      {
        if i < |peaks| - 1 {
          assert peaks[i] == init[i];
        }
      }
    }
  }

  /**
   * The counter is the length of the current loud run modulo the trigger
   * length, and the action fires exactly when that run is a positive
   * multiple of the trigger length.
   */
  lemma {:induction false} CounterIsLoudRunModTrigger(d: Detector, peaks: seq<int>)
    requires Valid(d)
    ensures Run(d, peaks).0 == LoudRun(d, peaks) % d.trigger
    ensures Run(d, peaks).1 <==> LoudRun(d, peaks) > 0 && LoudRun(d, peaks) % d.trigger == 0
  {
    if peaks != [] {
      var init := peaks[..|peaks| - 1];
      CounterIsLoudRunModTrigger(d, init);
      CounterStep(d, LoudRun(d, init), peaks[|peaks| - 1]);
    }
  }

  /** One frame keeps the counter equal to the loud run modulo the trigger length. */
  lemma CounterStep(d: Detector, k: nat, peak: int)
    requires Valid(d)
    ensures var k' := if Loud(d, peak) then k + 1 else 0;
      && Step(d, k % d.trigger, peak).0 == k' % d.trigger
      && (Step(d, k % d.trigger, peak).1 <==> k' > 0 && k' % d.trigger == 0)
  {
    if Loud(d, peak) {
      ModSuccessor(k, d.trigger);
    }
  }

  lemma ModUnique(n: int, t: int, q: int, r: int)
    requires t >= 1 && 0 <= r < t && n == q * t + r
    ensures n % t == r
  {
    var x := q - n / t;
    assert x * t == n % t - r;
    if x >= 1 {
      assert false;
    } else if x <= -1 {
      assert false;
    }
  }

  lemma ModSuccessor(k: nat, t: nat)
    requires t >= 1
    ensures k % t + 1 >= t ==> (k + 1) % t == 0
    ensures k % t + 1 < t ==> (k + 1) % t == k % t + 1
  {
    var q := k / t;
    if k % t + 1 >= t {
      ModUnique(k + 1, t, q + 1, 0);
    } else {
      ModUnique(k + 1, t, q, k % t + 1);
    }
  }

  /** The action fires only after `trigger` consecutive loud frames. */
  lemma FireNeedsConsecutiveLoudFrames(d: Detector, peaks: seq<int>)
    requires Valid(d)
    requires Run(d, peaks).1
    ensures |peaks| >= d.trigger
    ensures forall i :: |peaks| - d.trigger <= i < |peaks| ==> Loud(d, peaks[i])
  {
    CounterIsLoudRunModTrigger(d, peaks);
    LoudRunSuffix(d, peaks);
  }

  /** Between fires the counter stays below the trigger, and each fire costs `trigger` frames. */
  lemma {:induction false} FireCountBound(d: Detector, peaks: seq<int>)
    requires Valid(d)
    ensures Run(d, peaks).0 < d.trigger
    ensures FireCount(d, peaks) * d.trigger + Run(d, peaks).0 <= |peaks|
  {
    if peaks != [] {
      FireCountBound(d, peaks[..|peaks| - 1]);
    }
  }

  /** Side effects of one frame of the cry detector. */
  datatype CryEffect = PrintTooLoud | PlayWave(path: string) | Say(text: string) | SleepSeconds(s: nat)

  /** One iteration of the `while True` loop of `LinstenForCry`, after the peak is known. */
  function LinaFrame(counter: nat, peak: int): (r: (nat, seq<CryEffect>))
    requires counter < Lina.trigger
    ensures r.0 < Lina.trigger
    ensures r.1 != [] <==> peak > 23000 && counter == 4
    ensures r.1 != [] ==> r.0 == 0 && Say("Lina, stop crying") in r.1
    // a fire prints, plays the ding, speaks and then pauses five seconds
    ensures r.1 != [] ==> |r.1| == 4 && r.1[0] == PrintTooLoud && r.1[1] == PlayWave("triggers/resources/ding.wav") && r.1[3] == SleepSeconds(5)
  {
    var (c, fired) := Step(Lina, counter, peak);
    if fired then
      (c, [PrintTooLoud, PlayWave("triggers/resources/ding.wav"), Say("Lina, stop crying"), SleepSeconds(5)])
    else (c, [])
  }

  /** The counter and the effects after the cry detector has seen `peaks`. */
  function LinaRun(peaks: seq<int>): (r: (nat, seq<CryEffect>))
    ensures r.0 == Run(Lina, peaks).0
    ensures r.0 < Lina.trigger
    ensures |r.1| == 4 * FireCount(Lina, peaks)
  {
    if peaks == [] then (0, [])
    else
      var prev := LinaRun(peaks[..|peaks| - 1]);
      var next := LinaFrame(prev.0, peaks[|peaks| - 1]);
      (next.0, prev.1 + next.1)
  }

  /**
   * The bounded loop of src/custom/streamtest.py over the first
   * `StreamFrames` frames of the stream; returns how often it printed its
   * message and the final counter.
   */
  method StreamTestLoop(peaks: seq<int>) returns (fires: nat, counter: nat)
    requires |peaks| >= StreamFrames
    ensures fires == FireCount(StreamTest, peaks[..StreamFrames])
    ensures counter == Run(StreamTest, peaks[..StreamFrames]).0
    ensures counter <= 4
    ensures fires <= 86
  {
    fires, counter := 0, 0;
    var i := 0;
    while i < StreamFrames
      invariant 0 <= i <= StreamFrames
      invariant counter == Run(StreamTest, peaks[..i]).0
      invariant fires == FireCount(StreamTest, peaks[..i])
    {
      assert peaks[..i + 1][..i] == peaks[..i];
      if peaks[i] > StreamTest.threshold {
        counter := counter + 1;
      } else {
        counter := 0;
      }
      if counter >= 5 {
        fires := fires + 1;
        counter := 0;
      }
      i := i + 1;
    }
    assert peaks[..i] == peaks[..StreamFrames];
    FireCountBound(StreamTest, peaks[..StreamFrames]);
  }
}
