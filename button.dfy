/**
 * The button hold detector of the FreeRTOS concurrency example
 * (A06P/Concurrency_Challenge/Concurrency_Challenge_FreeRTOS/Porting_FreeRTOS/src/BUTTON/button.c):
 * a press counts once the button has been held for 1000 ticks, and the timer
 * restarts on release and after every counted press.
 *
 * Each read of the tick count is an input: `now` for the first read of a call
 * and `nowAgain` for the read that restarts the timer after a counted press.
 */
module Button {
  import opened Machine

  const ButtonPressTime: u32 := 1000

  /** The statics pressTime and startTime. */
  datatype Detector = Detector(pressTime: u32, startTime: u32)

  /** InitButtonTask. */
  function Restart(now: u32): Detector {
    Detector(0, now)
  }

  /** The outcome of one call: the new statics and whether `*flag` was set to 1. */
  datatype Outcome = Outcome(detector: Detector, fired: bool)

  /**
   * One call of ButtonTask: while the pin is low the press time is the
   * wrapping tick count since the start; a high pin restarts the timer. A press
   * time of 1000 or more sets the flag and restarts the timer.
   */
  function Step(d: Detector, pinLow: bool, now: u32, nowAgain: u32): Outcome {
    var d1 := if pinLow then d.(pressTime := Sub32(now, d.startTime)) else Restart(now);
    if d1.pressTime >= ButtonPressTime then Outcome(Restart(nowAgain), true) else Outcome(d1, false)
  }

  /**
   * A call fires exactly when the button is held and 1000 ticks or more have
   * passed since the timer started; after firing the timer restarts at the
   * second tick read, and otherwise a held button keeps its start time.
   */
  lemma FiresIffHeldLongEnough(d: Detector, pinLow: bool, now: u32, nowAgain: u32)
    ensures var o := Step(d, pinLow, now, nowAgain);
      (o.fired <==> pinLow && Sub32(now, d.startTime) >= ButtonPressTime) &&
      (o.fired ==> o.detector == Detector(0, nowAgain)) &&
      (pinLow && !o.fired ==> o.detector == Detector(Sub32(now, d.startTime), d.startTime))
  {
  }

  /** A released button never fires and restarts the timer, whatever came before. */
  lemma ReleaseNeverFires(d: Detector, now: u32, nowAgain: u32)
    ensures Step(d, false, now, nowAgain) == Outcome(Restart(now), false)
  {
  }

  /**
   * A button held from `t0` on fires once per period: the calls before 1000
   * ticks have passed do not fire, the first call at or past it does, and
   * the timer then starts again from that call's second tick read.
   */
  lemma HeldFiresOncePerPeriod(t0: u32, times: seq<u32>, next: u32)
    requires forall k | 0 <= k < |times| :: Sub32(times[k], t0) < ButtonPressTime
    ensures Held(Restart(t0), times) == Restart(t0).(pressTime := if |times| == 0 then 0 else Sub32(times[|times| - 1], t0))
    ensures forall k | 0 <= k < |times| :: !Step(Held(Restart(t0), times[..k]), true, times[k], times[k]).fired
    ensures Sub32(next, t0) >= ButtonPressTime ==> Step(Held(Restart(t0), times), true, next, next) == Outcome(Restart(next), true)
  {
    HeldPrefix(t0, times, |times|);
    forall k | 0 <= k < |times|
      ensures !Step(Held(Restart(t0), times[..k]), true, times[k], times[k]).fired
    {
      HeldPrefix(t0, times, k);
    }
  }

  /** The detector after a run of calls with the button held throughout, each reading its tick twice alike. */
  function Held(d: Detector, times: seq<u32>): Detector
    decreases |times|
  {
    if |times| == 0 then d
    else
      var last := times[|times| - 1];
      Step(Held(d, times[..|times| - 1]), true, last, last).detector
  }

  lemma {:induction false} HeldPrefix(t0: u32, times: seq<u32>, n: nat)
    requires n <= |times|
    requires forall k | 0 <= k < |times| :: Sub32(times[k], t0) < ButtonPressTime
    ensures Held(Restart(t0), times[..n]) == Restart(t0).(pressTime := if n == 0 then 0 else Sub32(times[n - 1], t0))
  {
    if n > 0 {
      HeldPrefix(t0, times, n - 1);
      assert times[..n][..n - 1] == times[..n - 1];
    }
  }

  /** The detector's statics, updated in place. */
  class ButtonDetector {
    var pressTime: u32
    var startTime: u32

    function Abs(): Detector
      reads this
    {
      Detector(pressTime, startTime)
    }

    /** The statics as InitButtonTask leaves them. */
    constructor (now: u32)
      ensures Abs() == Restart(now)
    {
      startTime := now;
      pressTime := 0;
    }

    /** InitButtonTask. */
    method InitButtonTask(now: u32)
      modifies this
      ensures Abs() == Restart(now)
    {
      startTime := now;
      pressTime := 0;
    }

    /**
     * ButtonTask: `flag` is the caller's int; it is set to 1 on a counted
     * press and otherwise left as it was, never cleared.
     */
    method ButtonTask(flag: int, pinLow: bool, now: u32, nowAgain: u32) returns (flagOut: int)
      modifies this
      ensures Abs() == Step(old(Abs()), pinLow, now, nowAgain).detector
      ensures flagOut == if Step(old(Abs()), pinLow, now, nowAgain).fired then 1 else flag
    {
      flagOut := flag;
      var buttonHeldActive := pinLow;
      if buttonHeldActive {
        pressTime := Sub32(now, startTime);
      } else {
        InitButtonTask(now);
      }
      if pressTime >= ButtonPressTime {
        flagOut := 1;
        InitButtonTask(nowAgain);
      }
    }
  }
}
