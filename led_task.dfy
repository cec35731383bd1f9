/**
 * The bike-light task (A12G/Application/src/LED_Task/led_task.c): the mode
 * and direction the other tasks set, the theft alert latched in lock mode,
 * and what one pass of the task loop asks of the LED stick.
 *
 * The LED stick driver calls and the task delays the loop makes are recorded
 * in order as `LedCommand`s; the driver itself is modelled in LedStrip. One
 * pass of the loop takes as inputs whether the accelerometer had new data and,
 * if so, the sample in milli-g (the float conversion from raw counts is not
 * part of this model). Ticks are milliseconds (a 1 kHz FreeRTOS tick).
 *
 * `Pass` gives one pass of the loop as a function of the task's state; the
 * class `BikeLight` runs it on the task's statics and is proved to agree.
 */
module LedTask {
  import opened Machine
  import LedStrip

  /** enum system_states. */
  datatype SystemState = ModeBike | ModeLock | ModeFun

  /** enum direction_states. */
  datatype Direction = TurnLeft | TurnRight | Stopping

  /** enum lock_states. */
  datatype LockState = AlertInactive | AlertActive

  /** struct ImuDataPacket: the acceleration on each axis, in milli-g. */
  datatype ImuSample = ImuSample(xmg: i16, ymg: i16, zmg: i16)

  /** A call into the LED stick driver, or a task delay, in the order the task makes them. */
  datatype LedCommand =
    | ColorIndex(number: nat, red: u8, green: u8, blue: u8)   // setLEDColor_index
    | ColorAll(red: u8, green: u8, blue: u8)                  // setLEDColor_all
    | BrightnessAll(brightness: nat)                          // setLEDBrightness_all
    | AllOff                                                  // LEDOff
    | Delay(ticks: nat)                                       // vTaskDelay

  const LedBrightness: nat := 10
  const LockThreshold: int := 1100
  const ImuMax: int := 2048
  const ImuMin: int := -2048
  const LedMax: int := 255
  const LedMin: int := 0
  const LeftLedStart: nat := 0
  const LeftLedEnd: nat := 2
  const RightLedStart: nat := 7
  const RightLedEnd: nat := 9

  // ---------------------------------------------------------------------------
  // map
  // ---------------------------------------------------------------------------

  /**
   * map: (x - in_min) * (out_max - out_min) in 64 bits, divided by
   * (in_max - in_min) with C's truncating division, plus out_min, cast to
   * uint8_t.
   */
  function Map(x: int, inMin: int, inMax: int, outMin: int, outMax: int): u8
    requires inMax != inMin
  {
    ToU8(TruncDiv((x - inMin) * (outMax - outMin), inMax - inMin) + outMin)
  }

  /** The map the fun mode applies to each axis: -2048..2048 onto 0..255. */
  function MapImu(x: int): u8 {
    Map(x, ImuMin, ImuMax, LedMin, LedMax)
  }

  /** The floor of (x + 2048) * 255 / 4096: the map's value on the IMU range. */
  function Scaled(x: int): int {
    (x + 2048) * 255 / 4096
  }

  /** On the IMU range the map is `Scaled`: no truncation to a byte happens. */
  lemma MapImuInRange(x: int)
    requires ImuMin <= x <= ImuMax
    ensures MapImu(x) as int == Scaled(x)
  {
    assert 0 <= (x + 2048) * 255 <= 4096 * 255;
  }

  /** The ends of the IMU range go to the ends of the LED range. */
  lemma MapImuEnds()
    ensures MapImu(ImuMin) == 0 && MapImu(ImuMax) == 255
  {
    MapImuInRange(ImuMin);
    MapImuInRange(ImuMax);
  }

  lemma ScaledMonotone(x: int, y: int)
    requires ImuMin <= x <= y <= ImuMax
    ensures Scaled(x) <= Scaled(y)
  {
    assert (x + 2048) * 255 <= (y + 2048) * 255;
  }

  /** On the IMU range the map never decreases. */
  lemma MapImuMonotone(x: int, y: int)
    requires ImuMin <= x <= y <= ImuMax
    ensures MapImu(x) <= MapImu(y)
  {
    MapImuInRange(x);
    MapImuInRange(y);
    ScaledMonotone(x, y);
  }

  /** Past the top of the range the uint8_t cast wraps: 2065 mg maps to 0, not to 255. */
  lemma MapImuWrapsAbove()
    ensures MapImu(2065) == 0
  {
    assert (2065 - ImuMin) * (LedMax - LedMin) == 1048815;
    assert TruncDiv(1048815, 4096) == 256;
  }

  // ---------------------------------------------------------------------------
  // The lighting patterns
  // ---------------------------------------------------------------------------

  /** blink_red: all red for 250 ms, then all dark for 250 ms. */
  const BlinkRed: seq<LedCommand> := [ColorAll(255, 0, 0), Delay(250), ColorAll(0, 0, 0), Delay(250)]

  /** stop_signal: blink red while decelerating harder than 10 mg on z, otherwise solid red. */
  function StopSignal(imu: ImuSample): (cmds: seq<LedCommand>)
    ensures imu.zmg < -10 ==> cmds == BlinkRed
    ensures imu.zmg >= -10 ==> cmds == [ColorAll(255, 0, 0)]
  {
    if imu.zmg < -10 then BlinkRed else [ColorAll(255, 0, 0)]
  }

  /** setLEDColor_index(i, red, green, blue) for i from `first` to `last`, in order. */
  function RangeColor(first: nat, last: nat, red: u8, green: u8, blue: u8): (cmds: seq<LedCommand>)
    ensures |cmds| == if last < first then 0 else last - first + 1
    ensures forall k | 0 <= k < |cmds| :: cmds[k] == ColorIndex(first + k, red, green, blue)
  {
    seq(if last < first then 0 else last - first + 1, k requires k >= 0 => ColorIndex(first + k, red, green, blue))
  }

  /** The LED range of a turn signal and the range of the opposite side. */
  function ActiveRange(dir: Direction): (nat, nat) {
    if dir == TurnLeft then (LeftLedStart, LeftLedEnd) else (RightLedStart, RightLedEnd)
  }

  function OppositeRange(dir: Direction): (nat, nat) {
    if dir == TurnLeft then (RightLedStart, RightLedEnd) else (LeftLedStart, LeftLedEnd)
  }

  /**
   * turn_indicator for a turn: the opposite side's three LEDs cleared, 10
   * ticks, the turning side's three LEDs amber (255, 165, 0) when `on` and dark
   * otherwise, then 1000 ticks.
   */
  function TurnCommands(dir: Direction, on: bool): seq<LedCommand>
    requires dir != Stopping
  {
    var (s, e) := ActiveRange(dir);
    var (os, oe) := OppositeRange(dir);
    RangeColor(os, oe, 0, 0, 0) + [Delay(10)]
      + RangeColor(s, e, if on then 255 else 0, if on then 165 else 0, 0) + [Delay(1000)]
  }

  /** The sides of the two turn signals. */
  lemma TurnCommandsSides(dir: Direction, on: bool)
    requires dir != Stopping
    ensures var cmds := TurnCommands(dir, on);
      var amber := if on then ColorIndex(0, 255, 165, 0) else ColorIndex(0, 0, 0, 0);
      |cmds| == 8 && cmds[3] == Delay(10) && cmds[7] == Delay(1000) &&
      (dir == TurnLeft ==>
        cmds[..3] == [ColorIndex(7, 0, 0, 0), ColorIndex(8, 0, 0, 0), ColorIndex(9, 0, 0, 0)] &&
        cmds[4..7] == [amber.(number := 0), amber.(number := 1), amber.(number := 2)]) &&
      (dir == TurnRight ==>
        cmds[..3] == [ColorIndex(0, 0, 0, 0), ColorIndex(1, 0, 0, 0), ColorIndex(2, 0, 0, 0)] &&
        cmds[4..7] == [amber.(number := 7), amber.(number := 8), amber.(number := 9)])
  {
  }

  // ---------------------------------------------------------------------------
  // One pass of the task loop, as a function of the task's state
  // ---------------------------------------------------------------------------

  /**
   * The statics the loop reads and writes: current_state, bike_mode_state,
   * lock_alert, turn_indicator's led_state, and the loop's imudataVar.
   */
  datatype Light = Light(mode: SystemState, dir: Direction, alert: LockState, ledOn: bool, imu: ImuSample)

  /** The outcome of one pass: the new state and the LED commands issued. */
  datatype PassOutcome = PassOutcome(light: Light, cmds: seq<LedCommand>)

  /** Some axis is strictly above the lock threshold. */
  predicate Shaken(imu: ImuSample) {
    imu.xmg > LockThreshold || imu.ymg > LockThreshold || imu.zmg > LockThreshold
  }

  /**
   * One pass of the LedTask loop: the sample replaces imudataVar when the
   * accelerometer had data; then the mode decides the pattern.
   */
  function Pass(l: Light, dataReady: bool, sample: ImuSample): PassOutcome {
    var imu := if dataReady then sample else l.imu;
    var l1 := l.(imu := imu);
    match l.mode
    case ModeBike =>
      if l.dir == Stopping then PassOutcome(l1.(alert := AlertInactive), StopSignal(imu))
      else PassOutcome(l1.(alert := AlertInactive, ledOn := !l.ledOn), TurnCommands(l.dir, l.ledOn))
    case ModeLock =>
      if l.alert == AlertActive then PassOutcome(l1, BlinkRed)
      else if Shaken(imu) then PassOutcome(l1.(alert := AlertActive), [])
      else PassOutcome(l1, [AllOff])
    case ModeFun =>
      PassOutcome(l1.(alert := AlertInactive),
                  [ColorAll(MapImu(imu.xmg), MapImu(imu.ymg), MapImu(imu.zmg)), Delay(10)])
  }

  /**
   * The theft alert: in lock mode it is raised exactly when it was raised
   * already or some axis of the current sample exceeds 1100 mg, so once raised
   * it stays raised while the mode stays lock; bike and fun mode lower it.
   * The mode and direction are never changed by the task itself.
   */
  lemma AlertLatch(l: Light, dataReady: bool, sample: ImuSample)
    ensures var r := Pass(l, dataReady, sample).light;
      var imu := if dataReady then sample else l.imu;
      r.mode == l.mode && r.dir == l.dir && r.imu == imu &&
      (l.mode == ModeLock ==> (r.alert == AlertActive <==> l.alert == AlertActive || Shaken(imu))) &&
      (l.mode != ModeLock ==> r.alert == AlertInactive)
  {
  }

  /**
   * Lock mode's LEDs: a raised alert blinks red; the pass that raises it drives
   * no LED; otherwise the LEDs are switched off.
   */
  lemma LockModeLights(l: Light, dataReady: bool, sample: ImuSample)
    requires l.mode == ModeLock
    ensures var o := Pass(l, dataReady, sample);
      var imu := if dataReady then sample else l.imu;
      (l.alert == AlertActive ==> o.cmds == BlinkRed) &&
      (l.alert == AlertInactive && Shaken(imu) ==> o.cmds == [] && o.light.alert == AlertActive) &&
      (l.alert == AlertInactive && !Shaken(imu) ==> o.cmds == [AllOff])
  {
  }

  /**
   * Bike mode: while stopping, the lights blink red under deceleration and are
   * solid red otherwise; while turning, successive passes alternate lit and
   * dark on the turning side, starting from the shared led_state.
   */
  lemma BikeModeLights(l: Light, dataReady: bool, sample: ImuSample)
    requires l.mode == ModeBike
    ensures var o := Pass(l, dataReady, sample);
      var imu := if dataReady then sample else l.imu;
      (l.dir == Stopping ==> o.cmds == StopSignal(imu) && o.light.ledOn == l.ledOn) &&
      (l.dir != Stopping ==>
        o.cmds == TurnCommands(l.dir, l.ledOn) && o.light.ledOn == !l.ledOn &&
        Pass(o.light, dataReady, sample).cmds == TurnCommands(l.dir, !l.ledOn))
  {
  }

  /**
   * Fun mode: one all-LED colour whose red, green and blue follow the x, y and
   * z acceleration, then 10 ticks. An axis inside the IMU range gives its
   * scaled value; a sample with every axis at -2048 mg lights nothing.
   */
  lemma FunModeLights(l: Light, dataReady: bool, sample: ImuSample)
    requires l.mode == ModeFun
    ensures var o := Pass(l, dataReady, sample);
      var imu := if dataReady then sample else l.imu;
      |o.cmds| == 2 && o.cmds[0].ColorAll? && o.cmds[1] == Delay(10) &&
      (ImuMin <= imu.xmg <= ImuMax ==> o.cmds[0].red as int == Scaled(imu.xmg)) &&
      (ImuMin <= imu.ymg <= ImuMax ==> o.cmds[0].green as int == Scaled(imu.ymg)) &&
      (ImuMin <= imu.zmg <= ImuMax ==> o.cmds[0].blue as int == Scaled(imu.zmg)) &&
      (imu == ImuSample(ImuMin, ImuMin, ImuMin) ==> o.cmds[0] == ColorAll(0, 0, 0))
  {
    var imu := if dataReady then sample else l.imu;
    assert Pass(l, dataReady, sample).cmds == [ColorAll(MapImu(imu.xmg), MapImu(imu.ymg), MapImu(imu.zmg)), Delay(10)];
    AxisColour(imu.xmg);
    AxisColour(imu.ymg);
    AxisColour(imu.zmg);
  }

  /** One axis of the fun-mode colour. */
  lemma AxisColour(x: int)
    ensures ImuMin <= x <= ImuMax ==> MapImu(x) as int == Scaled(x)
    ensures x == ImuMin ==> MapImu(x) == 0
  {
    if ImuMin <= x <= ImuMax {
      MapImuInRange(x);
    }
    MapImuEnds();
  }

  // ---------------------------------------------------------------------------
  // The task, in place
  // ---------------------------------------------------------------------------

  class BikeLight {
    var currentState: SystemState
    var bikeModeState: Direction
    var lockAlert: LockState
    /** The static led_state of turn_indicator. */
    var ledState: bool
    /** The loop's imudataVar. */
    var imudata: ImuSample
    /** Every LED driver call and delay made so far. */
    var cmds: seq<LedCommand>

    function State(): Light
      reads this
    {
      Light(currentState, bikeModeState, lockAlert, ledState, imudata)
    }

    /**
     * The task's start-up: LEDOff, all-LED brightness PER_BRIGHTNESS(10) = 3,
     * mode BIKE and direction STOPPING. `imudata` is what the uninitialised
     * imudataVar holds until the first sample.
     */
    constructor Start(imudata: ImuSample)
      ensures State() == Light(ModeBike, Stopping, AlertInactive, true, imudata)
      ensures cmds == [Delay(100), AllOff, BrightnessAll(3)]
    {
      this.imudata := imudata;
      lockAlert := AlertInactive;
      ledState := true;
      cmds := [Delay(100)];
      cmds := cmds + [AllOff];
      cmds := cmds + [BrightnessAll(LedStrip.PerBrightness(LedBrightness))];
      currentState := ModeBike;
      bikeModeState := Stopping;
    }

    /** set_bike_mode_state_LED. */
    method SetBikeModeState(state: Direction)
      modifies this`bikeModeState
      ensures bikeModeState == state
    {
      bikeModeState := state;
    }

    /** set_system_state_LED. */
    method SetSystemState(state: SystemState)
      modifies this`currentState
      ensures currentState == state
    {
      currentState := state;
    }

    /** get_system_state_LED. */
    method GetSystemState() returns (state: SystemState)
      ensures state == currentState
    {
      state := currentState;
    }

    /** get_bike_mode_state_LED. */
    method GetBikeModeState() returns (state: Direction)
      ensures state == bikeModeState
    {
      state := bikeModeState;
    }

    /** get_lock_state. */
    method GetLockState() returns (state: LockState)
      ensures state == lockAlert
    {
      state := lockAlert;
    }

    /** setLEDColor_index for every LED from `first` to `last`. */
    method ColorRange(first: nat, last: nat, red: u8, green: u8, blue: u8)
      modifies this`cmds
      ensures cmds == old(cmds) + RangeColor(first, last, red, green, blue)
    {
      var i := first;
      while i <= last
        invariant first <= i <= if last < first then first else last + 1
        invariant cmds == old(cmds) + RangeColor(first, last, red, green, blue)[..i - first]
      {
        cmds := cmds + [ColorIndex(i, red, green, blue)];
        i := i + 1;
      }
    }

    /** turn_indicator: a turn signal, or nothing for any other direction; led_state flips on each signal. */
    method TurnIndicator(state: Direction)
      modifies this`cmds, this`ledState
      ensures state != Stopping ==> cmds == old(cmds) + TurnCommands(state, old(ledState)) && ledState == !old(ledState)
      ensures state == Stopping ==> cmds == old(cmds) && ledState == old(ledState)
    {
      if state == TurnLeft || state == TurnRight {
        var start := if state == TurnLeft then LeftLedStart else RightLedStart;
        var end := if state == TurnLeft then LeftLedEnd else RightLedEnd;
        var oppositeStart := if state == TurnLeft then RightLedStart else LeftLedStart;
        var oppositeEnd := if state == TurnLeft then RightLedEnd else LeftLedEnd;
        ColorRange(oppositeStart, oppositeEnd, 0, 0, 0);
        cmds := cmds + [Delay(10)];
        ColorRange(start, end, if ledState then 255 else 0, if ledState then 165 else 0, 0);
        ledState := !ledState;
        cmds := cmds + [Delay(1000)];
      }
    }

    /** blink_red. */
    method BlinkRedLights()
      modifies this`cmds
      ensures cmds == old(cmds) + BlinkRed
    {
      cmds := cmds + [ColorAll(255, 0, 0)];
      cmds := cmds + [Delay(250)];
      cmds := cmds + [ColorAll(0, 0, 0)];
      cmds := cmds + [Delay(250)];
    }

    /** stop_signal. */
    method StopSignalLights()
      modifies this`cmds
      ensures cmds == old(cmds) + StopSignal(imudata)
    {
      if imudata.zmg < -10 {
        BlinkRedLights();
      } else {
        cmds := cmds + [ColorAll(255, 0, 0)];
      }
    }

    /** One pass of the LedTask loop. */
    method RunPass(dataReady: bool, sample: ImuSample)
      modifies this
      ensures |cmds| >= |old(cmds)| && cmds[..|old(cmds)|] == old(cmds)
      ensures PassOutcome(State(), cmds[|old(cmds)|..]) == Pass(old(State()), dataReady, sample)
    {
      if dataReady {
        imudata := sample;
      }
      match currentState {
        case ModeBike =>
          lockAlert := AlertInactive;
          if bikeModeState == Stopping {
            StopSignalLights();
          } else {
            TurnIndicator(bikeModeState);
          }
        case ModeLock =>
          if lockAlert == AlertActive {
            BlinkRedLights();
          } else if imudata.xmg > LockThreshold || imudata.ymg > LockThreshold || imudata.zmg > LockThreshold {
            lockAlert := AlertActive;
          } else {
            cmds := cmds + [AllOff];
          }
        case ModeFun =>
          lockAlert := AlertInactive;
          var r := MapImu(imudata.xmg);
          var g := MapImu(imudata.ymg);
          var b := MapImu(imudata.zmg);
          cmds := cmds + [ColorAll(r, g, b)];
          cmds := cmds + [Delay(10)];
      }
    }
  }
}
