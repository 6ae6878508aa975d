/** One iteration of the PPM control loop on its static variables (applications/app_ppm.c:60-69, 164-563).
    The decoded servo value after deadband, throttle curve and ramp is an arbitrary input. */
module PpmApp {
  import opened Reals

  const MIN_PULSES_WITHOUT_POWER := 50

  datatype CtrlType =
    | NoCtrl | Current | CurrentNoRev | CurrentNoRevBrake | Duty | DutyNoRev | Pid | PidNoRev
    | CurrentBrakeRevHyst | CurrentSmartRev | PidPosition180 | PidPosition360

  datatype SafeStart = Disabled | Regular | NoFault

  datatype Config = Config(
    ctrlType: CtrlType, safeStart: SafeStart, maxErpmForDir: real, pidMaxErpm: real,
    multiEsc: bool, tc: bool, tcMaxDiff: real, smartRevMaxDuty: real)

  // Everything an iteration reads from elsewhere.
  datatype Input = Input(
    outputDisabled: bool, timedOut: bool, fault: bool, timeoutBrake: real,
    servo: real, rpmNow: real, rpmLocal: real, rpmLowest: real,
    loCurrentMax: real, loCurrentMin: real, lMaxDuty: real, ccMinCurrent: real,
    posMode: bool, pidPosNow: real,
    dutyNow: real, smartRevAllowed: bool, smartRevStep: real)

  // The last command of the iteration to the local motor.
  datatype Command =
    | Silence | TimeoutBrake(current: real)
    | BrakeCurrent(current: real) | SetCurrent(current: real) | SetDuty(duty: real)
    | SetPidSpeed(erpm: real) | SetPidPos(angle: real)

  datatype State = State(
    config: Config, directionHyst: real,
    pulses: int, pulsesBefore: int, servoError: bool,
    forceBrake: bool, didIdleOnce: int,
    wasDutyControl: bool, dutyRev: real)

  predicate Idle(c: Config, servo: real) {
    Abs(servo) < if c.ctrlType.PidPosition180? || c.ctrlType.PidPosition360? then 0.02 else 0.001
  }

  // The position that the input asks for, between 0 and 360 degrees.
  function Angle(c: Config, servo: real): real {
    NormAngle(if c.ctrlType.PidPosition180? then servo * 180.0 else servo * 360.0)
  }

  // Position control is entered only near the present position.
  function Position(s: State, i: Input): Command {
    var angle := Angle(s.config, i.servo);
    if Engaged(s) || (!i.posMode && 10.0 <= Abs(angle - i.pidPosNow)) then Silence else SetPidPos(angle)
  }

  // The counter is below its threshold and counts.
  predicate Engaged(s: State) { s.pulses < MIN_PULSES_WITHOUT_POWER && !s.config.safeStart.Disabled? }

  function Configure(s: State, c: Config): State {
    s.(config := c, pulses := 0, directionHyst := c.maxErpmForDir * 0.2)
  }

  // What the switch over the control type decides.
  datatype Verdict = Verdict(currentMode: bool, brake: bool, current: real, cmd: Command)

  // Hysteresis of 20 % around the speed up to which the direction may change.
  function ForceBrake(s: State, rpm: real): bool {
    if s.forceBrake then !(rpm < s.config.maxErpmForDir - s.directionHyst)
    else rpm > s.config.maxErpmForDir + s.directionHyst
  }

  function DidIdle(s: State, i: Input): int {
    var force := ForceBrake(s, i.rpmLocal);
    var did := if force != s.forceBrake then 0 else s.didIdleOnce;
    var slow := i.rpmLocal > -s.config.maxErpmForDir;
    if i.servo == 0.0 then (if did == 1 && !force then 2 else did)
    else if 0.0 < i.servo then (if slow then 0 else did)
    else if force then did
    else if slow then (if did != 2 then 1 else 2)
    else if did == 1 then 1 else 2
  }

  // A negative input brakes unless the idle in between has been seen.
  predicate HystBrakes(s: State, i: Input) {
    i.servo < 0.0 && (ForceBrake(s, i.rpmLocal) || DidIdle(s, i) != 2)
  }

  // The current of the types that only go forward: a negative input brakes.
  function OneWayCurrent(i: Input): real {
    if 0.0 <= i.servo && 0.0 < i.rpmNow then Times(i.servo, i.loCurrentMax) else Abs(Times(i.servo, i.loCurrentMin))
  }

  function Setpoint(s: State, cmd: Command): Verdict { Verdict(false, false, 0.0, if Engaged(s) then Silence else cmd) }

  function Counted(s: State, i: Input): State { if Idle(s.config, i.servo) then s.(pulses := s.pulses + 1) else s }

  function Switch(s: State, i: Input): (res: (State, Verdict))
    requires !s.config.ctrlType.NoCtrl?
  {
    var c, v := s.config, i.servo;
    var counted := Counted(s, i);
    match c.ctrlType
    case CurrentBrakeRevHyst =>
      var brake := HystBrakes(s, i);
      (counted.(forceBrake := ForceBrake(s, i.rpmLocal), didIdleOnce := DidIdle(s, i)),
       Verdict(true, brake,
               if 0.0 <= v then (if 0.0 <= i.rpmNow then Times(v, i.loCurrentMax) else Times(v, Abs(i.loCurrentMin)))
               else if brake then Abs(Times(v, i.loCurrentMin))
               else Times(v, Abs(i.loCurrentMin)),
               Silence))
    case CurrentNoRevBrake =>
      (counted, Verdict(true, v < 0.0, OneWayCurrent(i), Silence))
    case CurrentSmartRev =>
      (counted, Verdict(true, v < 0.0, OneWayCurrent(i), Silence))
    case Duty => (counted, Setpoint(counted, SetDuty(Map(v, -1.0, 1.0, -i.lMaxDuty, i.lMaxDuty))))
    case DutyNoRev => (counted, Setpoint(counted, SetDuty(Map(v, -1.0, 1.0, -i.lMaxDuty, i.lMaxDuty))))
    case Pid => (counted, Setpoint(counted, SetPidSpeed(Times(v, c.pidMaxErpm))))
    case PidNoRev => (counted, Setpoint(counted, SetPidSpeed(Times(v, c.pidMaxErpm))))
    case PidPosition180 => (counted, Verdict(false, false, 0.0, Position(counted, i)))
    case PidPosition360 => (counted, Verdict(false, false, 0.0, Position(counted, i)))
    case _ =>   // Current and CurrentNoRev
      var accelerate := (0.0 <= v && 0.0 <= i.rpmNow) || (v < 0.0 && i.rpmNow <= 0.0);
      var current := if accelerate then Times(v, i.loCurrentMax) else Times(v, Abs(i.loCurrentMin));
      (counted, Verdict(true, false, current, Silence))
  }

  // The counter after the safe start check: no progress in this iteration starts it over.
  function CheckSafeStart(s: State): State {
    if Engaged(s) then
      var n := if s.pulses == s.pulsesBefore then 0 else s.pulses;
      s.(pulses := n, pulsesBefore := n)
    else s.(servoError := false)
  }

  predicate SmartRevDuty(s: State, i: Input) {
    (i.servo < -0.92 && i.smartRevAllowed) || (s.wasDutyControl && i.servo < -0.1)
  }

  // The current for the local motor, after traction control.
  function LocalCurrent(c: Config, i: Input, current: real): real {
    var rev := current < 0.0;
    var magnitude := Abs(current);
    var diff := if rev then -i.rpmLocal + i.rpmLowest else i.rpmLocal - i.rpmLowest;
    var out := if c.multiEsc && c.tc && 1.0 < c.tcMaxDiff then
                 var mapped := Map(diff, 0.0, c.tcMaxDiff, magnitude, 0.0);
                 if mapped < i.ccMinCurrent then 0.0 else mapped
               else magnitude;
    if rev then -out else out
  }

  function Drive(s: State, i: Input, v: Verdict): (res: (State, Command)) {
    if s.config.ctrlType.CurrentSmartRev? && SmartRevDuty(s, i) then
      var rev := StepTowards(s.dutyRev, -Times(s.config.smartRevMaxDuty, -i.servo), i.smartRevStep);
      (s.(wasDutyControl := true, dutyRev := rev), SetDuty(rev))
    else
      var s1 := if s.config.ctrlType.CurrentSmartRev? then s.(wasDutyControl := false, dutyRev := i.dutyNow) else s;
      (s1, if !v.currentMode then v.cmd
           else if v.brake then BrakeCurrent(Abs(v.current))
           else SetCurrent(LocalCurrent(s.config, i, v.current)))
  }

  // A fault starts the counter over unless the mode says otherwise.
  function AfterFault(s: State, i: Input): State {
    if i.fault && !s.config.safeStart.NoFault? then s.(pulses := 0) else s
  }

  // The iteration reaches the switch with a control type.
  predicate Processed(s: State, i: Input) { !i.outputDisabled && !i.timedOut && !s.config.ctrlType.NoCtrl? }

  function Iterate(s: State, i: Input): (res: (State, Command)) {
    if i.outputDisabled then (s, Silence)
    else if i.timedOut then (s.(pulses := 0, servoError := true), TimeoutBrake(i.timeoutBrake))
    else
      var s0 := AfterFault(s, i);
      if s.config.ctrlType.NoCtrl? then (s0, Silence)
      else
        var (s1, v) := Switch(s0, i);
        var s2 := CheckSafeStart(s1);
        if Engaged(s1) && s1.servoError then (s2, v.cmd)
        else Drive(s2, i, if Engaged(s1) then v.(current := 0.0) else v)
  }

  class PpmThread {
    var config: Config
    var directionHyst: real
    var pulsesWithoutPower: int
    var pulsesWithoutPowerBefore: int
    var servoError: bool
    var forceBrake: bool
    var didIdleOnce: int
    var wasDutyControl: bool
    var dutyRev: real

    ghost function Value(): State
      reads this
    {
      State(config, directionHyst, pulsesWithoutPower, pulsesWithoutPowerBefore, servoError,
            forceBrake, didIdleOnce, wasDutyControl, dutyRev)
    }

    // The static initialisers.
    constructor (c: Config)
      ensures Value() == Initial(c)
    {
      config, directionHyst := c, 0.0;
      pulsesWithoutPower, pulsesWithoutPowerBefore, servoError := 0, 0, false;
      forceBrake, didIdleOnce, wasDutyControl, dutyRev := true, 0, false, 0.0;
    }

    method Reconfigure(c: Config)
      modifies this
      ensures Value() == Configure(old(Value()), c)
    {
      config := c;
      pulsesWithoutPower := 0;
      directionHyst := config.maxErpmForDir * 0.2;
    }

    method CountIdle(servo: real)
      modifies this`pulsesWithoutPower
      ensures pulsesWithoutPower == old(pulsesWithoutPower) + if Idle(config, servo) then 1 else 0
    {
      if config.ctrlType == PidPosition180 || config.ctrlType == PidPosition360 {
        if Abs(servo) < 0.02 {
          pulsesWithoutPower := pulsesWithoutPower + 1;
        }
      } else if Abs(servo) < 0.001 {
        pulsesWithoutPower := pulsesWithoutPower + 1;
      }
    }

    // case PPM_CTRL_TYPE_CURRENT_BRAKE_REV_HYST
    method BrakeRevHyst(i: Input) returns (brake: bool, current: real)
      requires config.ctrlType.CurrentBrakeRevHyst?
      modifies this`forceBrake, this`didIdleOnce, this`pulsesWithoutPower
      ensures (Value(), Verdict(true, brake, current, Silence)) == Switch(old(Value()), i)
    {
      hide Times, Abs;
      brake := false;
      if forceBrake {
        if i.rpmLocal < config.maxErpmForDir - directionHyst {
          forceBrake, didIdleOnce := false, 0;
        }
      } else {
        if i.rpmLocal > config.maxErpmForDir + directionHyst {
          forceBrake, didIdleOnce := true, 0;
        }
      }
      if i.servo >= 0.0 {
        if i.servo == 0.0 {
          if didIdleOnce == 1 && !forceBrake {
            didIdleOnce := 2;
          }
        } else {
          if i.rpmLocal > -config.maxErpmForDir {
            didIdleOnce := 0;
          }
        }
        if i.rpmNow >= 0.0 {
          current := Times(i.servo, i.loCurrentMax);
        } else {
          current := Times(i.servo, Abs(i.loCurrentMin));
        }
      } else {
        if forceBrake {
          brake := true;
        } else {
          if i.rpmLocal > -config.maxErpmForDir {
            if didIdleOnce != 2 {
              didIdleOnce := 1;
              brake := true;
            }
          } else {
            if didIdleOnce == 1 {
              brake := true;
            } else {
              didIdleOnce := 2;
            }
          }
        }
        if brake {
          current := Abs(Times(i.servo, i.loCurrentMin));
        } else {
          current := Times(i.servo, Abs(i.loCurrentMin));
        }
      }
      CountIdle(i.servo);
    }

    // The other current types.
    method CurrentControl(i: Input) returns (v: Verdict)
      requires config.ctrlType.Current? || config.ctrlType.CurrentNoRev?
               || config.ctrlType.CurrentNoRevBrake? || config.ctrlType.CurrentSmartRev?
      modifies this`pulsesWithoutPower
      ensures (Value(), v) == Switch(old(Value()), i)
    {
      hide Times, Abs;
      var current;
      if config.ctrlType == Current || config.ctrlType == CurrentNoRev {
        if (i.servo >= 0.0 && i.rpmNow >= 0.0) || (i.servo < 0.0 && i.rpmNow <= 0.0) {
          current := Times(i.servo, i.loCurrentMax);
        } else {
          current := Times(i.servo, Abs(i.loCurrentMin));
        }
        v := Verdict(true, false, current, Silence);
      } else {
        if i.servo >= 0.0 && i.rpmNow > 0.0 {
          current := Times(i.servo, i.loCurrentMax);
        } else {
          current := Abs(Times(i.servo, i.loCurrentMin));
        }
        v := Verdict(true, i.servo < 0.0, current, Silence);
      }
      CountIdle(i.servo);
    }

    // Duty cycle, speed and position: commanded inside the switch unless the safe start is engaged.
    method SetpointControl(i: Input) returns (v: Verdict)
      requires config.ctrlType.Duty? || config.ctrlType.DutyNoRev? || config.ctrlType.Pid? || config.ctrlType.PidNoRev?
               || config.ctrlType.PidPosition180? || config.ctrlType.PidPosition360?
      modifies this`pulsesWithoutPower
      ensures (Value(), v) == Switch(old(Value()), i)
    {
      hide Times, Map, Abs, NormAngle;
      var cmd := Silence;
      CountIdle(i.servo);
      if !(pulsesWithoutPower < MIN_PULSES_WITHOUT_POWER && config.safeStart != Disabled) {
        if config.ctrlType == Duty || config.ctrlType == DutyNoRev {
          cmd := SetDuty(Map(i.servo, -1.0, 1.0, -i.lMaxDuty, i.lMaxDuty));
        } else if config.ctrlType == Pid || config.ctrlType == PidNoRev {
          cmd := SetPidSpeed(Times(i.servo, config.pidMaxErpm));
        } else {
          var angle := if config.ctrlType == PidPosition180 then i.servo * 180.0 else i.servo * 360.0;
          angle := NormAngle(angle);
          if !i.posMode {
            if Abs(angle - i.pidPosNow) < 10.0 {
              cmd := SetPidPos(angle);
            }
          } else {
            cmd := SetPidPos(angle);
          }
        }
      }
      v := Verdict(false, false, 0.0, cmd);
    }

    method SwitchControl(i: Input) returns (v: Verdict)
      requires !config.ctrlType.NoCtrl?
      modifies this`forceBrake, this`didIdleOnce, this`pulsesWithoutPower
      ensures (Value(), v) == Switch(old(Value()), i)
    {
      hide Switch;
      var t := config.ctrlType;
      if t.CurrentBrakeRevHyst? {
        var brake, current := BrakeRevHyst(i);
        v := Verdict(true, brake, current, Silence);
      } else if t.Current? || t.CurrentNoRev? || t.CurrentNoRevBrake? || t.CurrentSmartRev? {
        v := CurrentControl(i);
      } else {
        v := SetpointControl(i);
      }
    }

    // The safe start check; `drive` is false where the source continues with the next iteration.
    method CheckIdlePulses() returns (engaged: bool, drive: bool)
      modifies this`pulsesWithoutPower, this`pulsesWithoutPowerBefore, this`servoError
      ensures engaged == Engaged(old(Value())) && drive == !(engaged && old(servoError))
      ensures Value() == CheckSafeStart(old(Value()))
    {
      drive := true;
      engaged := pulsesWithoutPower < MIN_PULSES_WITHOUT_POWER && config.safeStart != Disabled;
      if engaged {
        if pulsesWithoutPower == pulsesWithoutPowerBefore {
          pulsesWithoutPower := 0;
        }
        pulsesWithoutPowerBefore := pulsesWithoutPower;
        if servoError {
          drive := false;
        }
      } else {
        servoError := false;
      }
    }

    method DriveMotor(i: Input, v: Verdict) returns (cmd: Command)
      modifies this`wasDutyControl, this`dutyRev
      ensures (Value(), cmd) == Drive(old(Value()), i, v)
    {
      hide Times, Map, Abs;
      cmd := v.cmd;
      var currentMode := v.currentMode;
      if config.ctrlType == CurrentSmartRev {
        var dutyControl := i.servo < -0.92 && i.smartRevAllowed;
        if dutyControl || (wasDutyControl && i.servo < -0.1) {
          wasDutyControl := true;
          var goal := Times(config.smartRevMaxDuty, -i.servo);
          dutyRev := StepTowards(dutyRev, -goal, i.smartRevStep);
          cmd := SetDuty(dutyRev);
          currentMode := false;
        } else {
          dutyRev, wasDutyControl := i.dutyNow, false;
        }
      }
      if currentMode {
        if v.brake {
          cmd := BrakeCurrent(Abs(v.current));
        } else {
          var out := TractionControl(i, v.current);
          cmd := SetCurrent(out);
        }
      }
    }

    method TractionControl(i: Input, current: real) returns (out: real)
      ensures out == LocalCurrent(config, i, current)
    {
      var cur, rpmLocal, rpmLowest, isReverse := current, i.rpmLocal, i.rpmLowest, false;
      if current < 0.0 {
        isReverse := true;
        cur, rpmLocal, rpmLowest := -current, -rpmLocal, -rpmLowest;
      }
      out := cur;
      if config.multiEsc {
        if config.tc && config.tcMaxDiff > 1.0 {
          var diff := rpmLocal - rpmLowest;
          out := Map(diff, 0.0, config.tcMaxDiff, cur, 0.0);
          if out < i.ccMinCurrent {
            out := 0.0;
          }
        }
      }
      if isReverse {
        out := -out;
      }
    }

    method RunOnce(i: Input) returns (cmd: Command)
      modifies this
      ensures (Value(), cmd) == Iterate(old(Value()), i)
    {
      cmd := Silence;
      if i.outputDisabled {
        return;
      }
      if i.timedOut {
        pulsesWithoutPower, servoError := 0, true;
        cmd := TimeoutBrake(i.timeoutBrake);
        return;
      } else if i.fault && config.safeStart != NoFault {
        pulsesWithoutPower := 0;
      }
      if config.ctrlType == NoCtrl {
        return;
      }
      var v := SwitchControl(i);
      var engaged, drive := CheckIdlePulses();
      if !drive {
        cmd := v.cmd;
        return;
      }
      if engaged {
        v := v.(current := 0.0);
      }
      cmd := DriveMotor(i, v);
    }
  }

  function Initial(c: Config): State { State(c, 0.0, 0, 0, false, true, 0, false, 0.0) }
}
