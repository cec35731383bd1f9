/**
 * The haptic task (A12G/Application/src/HapticTask/haptic_task.c): from the
 * mode, the direction and the lock alert the bike-light task publishes, and the
 * two infrared side sensors, the choice of which vibration motor to fire.
 *
 * The task has no state of its own, so each pass is a function from its inputs
 * to the calls it makes, in order: `Go(d)` for HapticGo_dir(d) and `Wait(t)`
 * for vTaskDelay(t). What HapticGo_dir does on the motor driver is not part of
 * this model.
 */
module HapticTask {
  import opened LedTask

  /** enum direction: the motor HapticGo_dir selects. */
  datatype Motor = Left | Right | NoneSelect

  /** struct SensorData: whether each side's sensor is set. */
  datatype SensorData = SensorData(leftSide: bool, rightSide: bool)

  datatype HapticCommand = Go(motor: Motor) | Wait(ticks: nat)

  const LongDelay: nat := 3000
  const PassDelay: nat := 200

  /** select_dir: fire `motor`, then wait 3000 ticks only when `delay` is 1. */
  function SelectDir(motor: Motor, delay: nat): (cmds: seq<HapticCommand>)
    ensures |cmds| >= 1 && cmds[0] == Go(motor)
    ensures cmds[1..] == (if delay == 1 then [Wait(LongDelay)] else [])
  {
    [Go(motor)] + if delay == 1 then [Wait(LongDelay)] else []
  }

  /**
   * haptic_vibrate: for a turn, fire the motor of the turning side; the
   * 3000-tick wait follows only when that side's sensor is not set. Any other
   * direction does nothing.
   */
  function HapticVibrate(data: SensorData, dir: Direction): (cmds: seq<HapticCommand>)
    ensures dir == Stopping <==> cmds == []
    ensures dir == TurnLeft ==>
      cmds[0] == Go(Left) && (|cmds| == 2 <==> !data.leftSide) && (|cmds| == 2 ==> cmds[1] == Wait(LongDelay))
    ensures dir == TurnRight ==>
      cmds[0] == Go(Right) && (|cmds| == 2 <==> !data.rightSide) && (|cmds| == 2 ==> cmds[1] == Wait(LongDelay))
    ensures |cmds| <= 2
  {
    match dir
    case TurnLeft => if data.leftSide then SelectDir(Left, 0) else SelectDir(Left, 1)
    case TurnRight => if data.rightSide then SelectDir(Right, 0) else SelectDir(Right, 1)
    case Stopping => []
  }

  /**
   * One pass of the HapticTask loop. The lock alert is read only in lock
   * mode; every pass ends with a 200-tick wait.
   */
  function HapticPass(mode: SystemState, dir: Direction, alert: LockState, sensors: SensorData): seq<HapticCommand> {
    var actions :=
      match mode
      case ModeBike => if dir != Stopping then HapticVibrate(sensors, dir) else []
      case ModeLock =>
        if alert == AlertActive then
          var forced := sensors.(leftSide := true, rightSide := true);
          HapticVibrate(forced, TurnLeft) + HapticVibrate(forced, TurnRight)
        else []
      case ModeFun => [];
    actions + [Wait(PassDelay)]
  }

  /**
   * What a pass does: in bike mode a turn fires the turning side's motor and
   * waits 3000 ticks when that side's sensor is clear, and stopping fires
   * nothing; a raised lock alert fires left then right with no long wait
   * whatever the sensors say; lock mode without an alert and fun mode fire
   * nothing. Every pass ends with the 200-tick wait.
   */
  lemma HapticPassActions(mode: SystemState, dir: Direction, alert: LockState, sensors: SensorData)
    ensures var cmds := HapticPass(mode, dir, alert, sensors);
      |cmds| >= 1 && cmds[|cmds| - 1] == Wait(PassDelay) &&
      (mode == ModeBike && dir == TurnLeft ==>
        cmds == [Go(Left)] + (if sensors.leftSide then [] else [Wait(LongDelay)]) + [Wait(PassDelay)]) &&
      (mode == ModeBike && dir == TurnRight ==>
        cmds == [Go(Right)] + (if sensors.rightSide then [] else [Wait(LongDelay)]) + [Wait(PassDelay)]) &&
      (mode == ModeBike && dir == Stopping ==> cmds == [Wait(PassDelay)]) &&
      (mode == ModeLock && alert == AlertActive ==> cmds == [Go(Left), Go(Right), Wait(PassDelay)]) &&
      (mode == ModeLock && alert == AlertInactive ==> cmds == [Wait(PassDelay)]) &&
      (mode == ModeFun ==> cmds == [Wait(PassDelay)])
  {
    if mode == ModeBike && dir != Stopping {
      var v := HapticVibrate(sensors, dir);
      assert v == [v[0]] + v[1..];
    }
  }

  /** No pass fires the motor while the rider is stopping, or in fun mode, whatever the alert and the sensors. */
  lemma NoVibrationWhenIdle(mode: SystemState, dir: Direction, alert: LockState, sensors: SensorData)
    requires (mode == ModeBike && dir == Stopping) || mode == ModeFun || (mode == ModeLock && alert == AlertInactive)
    ensures forall k | 0 <= k < |HapticPass(mode, dir, alert, sensors)| :: HapticPass(mode, dir, alert, sensors)[k].Wait?
  {
    HapticPassActions(mode, dir, alert, sensors);
  }
}
