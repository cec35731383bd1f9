/**
 * The blinking LED of the concurrency example
 * (A06P/concurrency-example/concurrency-challenge/src/led.c): an INIT / ON /
 * OFF cycle timed against the system tick, whose half-period steps through
 * three frequencies each time the button task reports a press.
 *
 * The enums are kept as numbers so that the `default` branches of the C
 * switches, which an out-of-range value reaches, are part of the model. Each
 * call of SystickGet is an input: `now` for the first read of a pass and
 * `nowAgain` for the second read that restarts the timer. Times are ticks of
 * one millisecond.
 */
module BlinkLed {
  import opened Machine

  // enum ledControlState
  const InitState: nat := 0
  const OnState: nat := 1
  const OffState: nat := 2
  const MaxStates: nat := 3

  // enum ledFrequencies
  const Freq1: nat := 0
  const Freq2: nat := 1
  const Freq3: nat := 2
  const MaxFreqNum: nat := 3

  const OnOffTime2000: u32 := 2000
  const OnOffTime1000: u32 := 1000
  const OnOffTime500: u32 := 500

  /**
   * GetLedTargetTime: the half-period of a frequency; 2000 ms for FREQ_1 and
   * for any value outside the enum.
   */
  function TargetTime(freq: nat): (t: u32)
    ensures freq == Freq1 ==> t == 2000
    ensures freq == Freq2 ==> t == 1000
    ensures freq == Freq3 ==> t == 500
    ensures freq >= MaxFreqNum ==> t == 2000
  {
    if freq == Freq1 then OnOffTime2000
    else if freq == Freq2 then OnOffTime1000
    else if freq == Freq3 then OnOffTime500
    else OnOffTime2000
  }

  /**
   * LedGetNextFrequency: FREQ_1 to FREQ_2 to FREQ_3 and back; its default
   * returns the time LED_ONOFF_TIME_2000MS, 2000, in place of a frequency.
   */
  function NextFrequency(freq: nat): nat {
    if freq == Freq1 then Freq2
    else if freq == Freq2 then Freq3
    else if freq == Freq3 then Freq1
    else OnOffTime2000 as nat
  }

  /**
   * The rotation: a listed frequency goes to a listed one and comes back after
   * three steps, and each step changes the half-period; an unlisted value goes
   * to 2000, which is unlisted too and stays there, keeping the 2000 ms
   * half-period from then on.
   */
  lemma NextFrequencyCycle(freq: nat)
    ensures freq < MaxFreqNum ==>
      NextFrequency(freq) < MaxFreqNum && NextFrequency(NextFrequency(NextFrequency(freq))) == freq &&
      TargetTime(NextFrequency(freq)) != TargetTime(freq)
    ensures freq >= MaxFreqNum ==>
      NextFrequency(freq) == 2000 && NextFrequency(2000) == 2000 && TargetTime(NextFrequency(freq)) == 2000
  {
  }

  /** The task's statics: ledState, currentFrequency, receivedButtonMessage, initialTime, targetDeltaTime and the LED pin's level. */
  datatype Blink = Blink(state: nat, freq: nat, pending: bool, initialTime: u32, target: u32, pinHigh: bool)

  /** InitLedTask. */
  function Init(b: Blink): Blink {
    b.(state := InitState, freq := Freq1, pending := false)
  }

  /** LedSetChange. */
  function SetChange(b: Blink): Blink {
    b.(pending := true)
  }

  /**
   * ON (pin low) or OFF (pin high): the state flips and the timer restarts
   * when the wrapping 32-bit time since `initialTime` reaches the target.
   */
  function Timed(b: Blink, level: bool, next: nat, now: u32, nowAgain: u32): Blink {
    var b1 := b.(pinHigh := level);
    if Sub32(now, b.initialTime) >= b.target then b1.(initialTime := nowAgain, state := next) else b1
  }

  /** One call of LedTask. */
  function Step(b: Blink, now: u32, nowAgain: u32): Blink {
    var b1 := if b.pending then b.(freq := NextFrequency(b.freq), state := InitState, pending := false) else b;
    if b1.state == InitState then b1.(initialTime := now, target := TargetTime(b1.freq), state := OnState)
    else if b1.state == OnState then Timed(b1, false, OffState, now, nowAgain)
    else if b1.state == OffState then Timed(b1, true, OnState, now, nowAgain)
    else b1.(state := InitState)
  }

  /** The statics describe a listed state, a listed frequency and that frequency's target time. */
  predicate Listed(b: Blink) {
    b.state < MaxStates && b.freq < MaxFreqNum && (b.state != InitState ==> b.target == TargetTime(b.freq))
  }

  /** InitLedTask and LedSetChange lead to listed statics, and every call of LedTask keeps them listed. */
  lemma StepKeepsListed(b: Blink, now: u32, nowAgain: u32)
    ensures Listed(Init(b))
    ensures Listed(b) ==> Listed(SetChange(b)) && Listed(Step(b, now, nowAgain))
  {
    NextFrequencyCycle(b.freq);
  }

  /**
   * After LedSetChange, the next call advances the frequency exactly once,
   * clears the message, and runs INIT: the timer starts at `now` with the new
   * frequency's target and the state becomes ON.
   */
  lemma ChangeAdvancesOnce(b: Blink, now: u32, nowAgain: u32)
    ensures var r := Step(SetChange(b), now, nowAgain);
      r.freq == NextFrequency(b.freq) && !r.pending && r.state == OnState &&
      r.initialTime == now && r.target == TargetTime(NextFrequency(b.freq)) && r.pinHigh == b.pinHigh
    ensures !b.pending ==> Step(b, now, nowAgain).freq == b.freq && !Step(b, now, nowAgain).pending
  {
  }

  /**
   * ON drives the pin low and OFF drives it high; each moves to the other and
   * restarts the timer at the second tick read exactly when the wrapping
   * elapsed time reaches the target, and otherwise keeps its state and timer.
   * Any state outside the enum returns to INIT.
   */
  lemma OnOffCycle(b: Blink, now: u32, nowAgain: u32)
    requires !b.pending
    ensures var r := Step(b, now, nowAgain);
      var due := Sub32(now, b.initialTime) >= b.target;
      (b.state == OnState ==>
        (!r.pinHigh && (r.state == OffState <==> due) && (r.state == OnState <==> !due) &&
         r.initialTime == (if due then nowAgain else b.initialTime))) &&
      (b.state == OffState ==>
        (r.pinHigh && (r.state == OnState <==> due) && (r.state == OffState <==> !due) &&
         r.initialTime == (if due then nowAgain else b.initialTime))) &&
      (b.state >= MaxStates ==> r == b.(state := InitState))
  {
  }

  /**
   * The elapsed time survives the tick counter wrapping: 0x100 ticks after
   * the wrap, a timer started 0x100 ticks before it has seen 512 ticks, enough
   * for the 500 ms half-period of FREQ_3.
   */
  lemma WrappingElapsedTime()
    ensures var b := Blink(OnState, Freq3, false, 0xFFFF_FF00, 500, false);
      Step(b, 0x100, 0x100).state == OffState
  {
    assert Sub32(0x100, 0xFFFF_FF00) == 512;
  }

  /** The LED task's statics, updated in place. */
  class LedBlinker {
    var ledState: nat
    var currentFrequency: nat
    var receivedButtonMessage: bool
    var initialTime: u32
    var targetDeltaTime: u32
    /** The output level of LED_0_PIN; the LED is lit when it is low. */
    var pinHigh: bool

    function Abs(): Blink
      reads this
    {
      Blink(ledState, currentFrequency, receivedButtonMessage, initialTime, targetDeltaTime, pinHigh)
    }

    /** The statics before InitLedTask: zero, as C gives them; the pin at whatever level it has. */
    constructor (pinHigh: bool)
      ensures Abs() == Blink(0, 0, false, 0, 0, pinHigh)
    {
      ledState := 0;
      currentFrequency := 0;
      receivedButtonMessage := false;
      initialTime := 0;
      targetDeltaTime := 0;
      this.pinHigh := pinHigh;
    }

    /** InitLedTask. */
    method InitLedTask()
      modifies this
      ensures Abs() == Init(old(Abs()))
    {
      ledState := InitState;
      currentFrequency := Freq1;
      receivedButtonMessage := false;
    }

    /** LedSetChange. */
    method LedSetChange()
      modifies this
      ensures Abs() == SetChange(old(Abs()))
    {
      receivedButtonMessage := true;
    }

    /** GetLedTargetTime. */
    static method GetLedTargetTime(freq: nat) returns (t: u32)
      ensures t == TargetTime(freq)
    {
      if freq == Freq1 {
        t := OnOffTime2000;
      } else if freq == Freq2 {
        t := OnOffTime1000;
      } else if freq == Freq3 {
        t := OnOffTime500;
      } else {
        t := OnOffTime2000;
      }
    }

    /** LedTask: one call, with the two tick reads it may make. */
    method LedTask(now: u32, nowAgain: u32)
      modifies this
      ensures Abs() == Step(old(Abs()), now, nowAgain)
    {
      if receivedButtonMessage {
        currentFrequency := NextFrequency(currentFrequency);
        ledState := InitState;
        receivedButtonMessage := false;
      }
      if ledState == InitState {
        initialTime := now;
        targetDeltaTime := GetLedTargetTime(currentFrequency);
        ledState := OnState;
      } else if ledState == OnState {
        pinHigh := false;
        if Sub32(now, initialTime) >= targetDeltaTime {
          initialTime := nowAgain;
          ledState := OffState;
        }
      } else if ledState == OffState {
        pinHigh := true;
        if Sub32(now, initialTime) >= targetDeltaTime {
          initialTime := nowAgain;
          ledState := OnState;
        }
      } else {
        ledState := InitState;
      }
    }
  }
}
