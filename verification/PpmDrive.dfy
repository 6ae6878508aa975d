/** What an iteration of the PPM loop commands to the local motor, written out in the values it reads
    (applications/app_ppm.c:171-188, 227-401, 432-559). */
module PpmDrive {
  import opened Reals
  import opened PpmApp
  import PpmSafety

  // ---- A released motor ----

  // The safe start does not hold the motor back, and traction control does not apply.
  predicate Free(s: State, i: Input) {
    && !i.outputDisabled && !i.timedOut
    && (s.config.safeStart == Disabled || (50 <= s.pulses && (i.fault ==> s.config.safeStart == NoFault)))
    && !(s.config.multiEsc && s.config.tc && 1.0 < s.config.tcMaxDiff)
  }

  lemma FreeIsDriven(s: State, i: Input)
    requires Free(s, i) && !s.config.ctrlType.NoCtrl?
    ensures var (s1, v) := Switch(AfterFault(s, i), i);
            !Engaged(s1) && Iterate(s, i).1 == Drive(CheckSafeStart(s1), i, v).1
  {
    PpmSafety.SwitchCounts(AfterFault(s, i), i);
    hide Switch, Drive, Idle;
  }

  lemma HalfRange(v: real, d: real)
    ensures Map(v, -1.0, 1.0, -d, d) == v * d
  {
    assert (v - -1.0) * (d - -d) == 2.0 * (v * d) + 2.0 * d;
  }

  // The types that set a duty cycle or a speed: the input times the configured limit.
  lemma SetpointCommand(s: State, i: Input)
    requires Free(s, i)
    ensures s.config.ctrlType.Duty? || s.config.ctrlType.DutyNoRev? ==> Iterate(s, i).1 == SetDuty(i.servo * i.lMaxDuty)
    ensures s.config.ctrlType.Pid? || s.config.ctrlType.PidNoRev? ==>
              Iterate(s, i).1 == SetPidSpeed(i.servo * s.config.pidMaxErpm)
  {
    HalfRange(i.servo, i.lMaxDuty);
    hide Map, Drive, Abs;
    if s.config.ctrlType in {Duty, DutyNoRev, Pid, PidNoRev} {
      FreeIsDriven(s, i);
      SetpointPasses(CheckSafeStart(Switch(AfterFault(s, i), i).0), i, Switch(AfterFault(s, i), i).1);
    }
  }

  lemma SetpointPasses(s: State, i: Input, v: Verdict)
    requires !s.config.ctrlType.CurrentSmartRev? && !v.currentMode
    ensures Drive(s, i, v).1 == v.cmd
  {
  }

  // The types that set a position: the angle of the input, up to whole turns, if the motor is near it or
  // already holds a position, and nothing otherwise.
  lemma PositionCommand(s: State, i: Input)
    returns (angle: real, turns: int)
    requires Free(s, i) && (s.config.ctrlType.PidPosition180? || s.config.ctrlType.PidPosition360?)
    ensures angle == i.servo * (if s.config.ctrlType.PidPosition180? then 180.0 else 360.0) + turns as real * 360.0
    ensures 0.0 <= angle < 360.0
    ensures Iterate(s, i).1
         == if i.posMode || -10.0 < angle - i.pidPosNow < 10.0 then SetPidPos(angle) else Silence
  {
    hide NormAngle, Drive, Trunc;
    var wanted := i.servo * if s.config.ctrlType.PidPosition180? then 180.0 else 360.0;
    angle := NormAngle(wanted);
    turns := NormTurns(wanted);
    FreeIsDriven(s, i);
    SetpointPasses(CheckSafeStart(Switch(AfterFault(s, i), i).0), i, Switch(AfterFault(s, i), i).1);
  }

  lemma NormTurns(wanted: real) returns (turns: int)
    ensures NormAngle(wanted) == wanted + turns as real * 360.0
  {
    var q := Trunc(wanted / 360.0);
    turns := if wanted - 360.0 * q as real < 0.0 then 1 - q else -q;
  }

  lemma CurrentPasses(s: State, i: Input, v: Verdict)
    requires v.currentMode && !(s.config.multiEsc && s.config.tc && 1.0 < s.config.tcMaxDiff)
    requires s.config.ctrlType.CurrentSmartRev? ==> !SmartRevDuty(s, i)
    ensures Drive(s, i, v).1
         == if v.brake then BrakeCurrent(if v.current < 0.0 then -v.current else v.current) else SetCurrent(v.current)
  {
  }

  // The two-way current types: the motor limit if input and speed agree in sign, else the brake limit.
  lemma TwoWayCommand(s: State, i: Input)
    requires Free(s, i) && (s.config.ctrlType.Current? || s.config.ctrlType.CurrentNoRev?)
    ensures var v, min := i.servo, if i.loCurrentMin < 0.0 then -i.loCurrentMin else i.loCurrentMin;
            Iterate(s, i).1 ==
            if 0.0 <= v && 0.0 <= i.rpmNow then SetCurrent(v * i.loCurrentMax)
            else if v < 0.0 && i.rpmNow <= 0.0 then SetCurrent(v * i.loCurrentMax)
            else SetCurrent(v * min)
  {
    FreeIsDriven(s, i);
    var (s1, v) := Switch(AfterFault(s, i), i);
    CurrentPasses(CheckSafeStart(s1), i, v);
    hide Drive;
  }

  lemma TimesMagnitude(v: real, x: real)
    ensures var a, b := if v < 0.0 then -v else v, if x < 0.0 then -x else x; Abs(Times(v, x)) == a * b
  {
    var a := if v < 0.0 then -v else v;
    assert a * -x == -(a * x) && -v * x == -(v * x);
    if 0.0 <= v && 0.0 <= x {
      assert 0.0 <= v * x by { ProductSign(v, x); }
    } else if 0.0 <= v {
      assert 0.0 <= v * -x by { ProductSign(v, -x); }
    } else if 0.0 <= x {
      assert 0.0 <= -v * x by { ProductSign(-v, x); }
    } else {
      assert 0.0 <= -v * -x by { ProductSign(-v, -x); }
      assert -v * -x == v * x;
    }
  }

  lemma ProductSign(a: real, b: real)
    requires 0.0 <= a && 0.0 <= b
    ensures 0.0 <= a * b
  {
  }

  // The forward types: a negative input brakes with its share of the brake limit.
  lemma OneWayCommand(s: State, i: Input)
    requires Free(s, i)
    requires s.config.ctrlType.CurrentNoRevBrake?
             || (s.config.ctrlType.CurrentSmartRev?
                 && !(i.servo < -0.92 && i.smartRevAllowed) && !(s.wasDutyControl && i.servo < -0.1))
    ensures var v, min := i.servo, if i.loCurrentMin < 0.0 then -i.loCurrentMin else i.loCurrentMin;
            Iterate(s, i).1 ==
            if v < 0.0 then BrakeCurrent(-v * min)
            else if 0.0 < i.rpmNow then SetCurrent(v * i.loCurrentMax)
            else SetCurrent(v * min)
  {
    hide Switch, Drive, Iterate, CheckSafeStart, SmartRevDuty;
    FreeIsDriven(s, i);
    OneWayVerdict(AfterFault(s, i), i);
    var (s1, v) := Switch(AfterFault(s, i), i);
    CheckKeepsConfig(s, i);
    SameSmartRev(s, CheckSafeStart(s1), i);
    CurrentPasses(CheckSafeStart(s1), i, v);
    TimesMagnitude(i.servo, i.loCurrentMin);
    BrakeMagnitude(i.servo, i.loCurrentMin);
  }

  lemma SameSmartRev(s: State, t: State, i: Input)
    requires s.wasDutyControl == t.wasDutyControl
    ensures SmartRevDuty(t, i) == ((i.servo < -0.92 && i.smartRevAllowed) || (s.wasDutyControl && i.servo < -0.1))
  {
  }

  lemma OneWayVerdict(s: State, i: Input)
    requires s.config.ctrlType.CurrentNoRevBrake? || s.config.ctrlType.CurrentSmartRev?
    ensures var v := Switch(s, i).1;
            && v.currentMode && (v.brake <==> i.servo < 0.0)
            && v.current == if 0.0 <= i.servo && 0.0 < i.rpmNow then i.servo * i.loCurrentMax
                            else Abs(Times(i.servo, i.loCurrentMin))
  {
    hide Abs, Idle;
  }

  lemma HystVerdict(s: State, i: Input)
    requires s.config.ctrlType.CurrentBrakeRevHyst?
    ensures var v, max, hyst := Switch(s, i).1, s.config.maxErpmForDir, s.directionHyst;
            var forced := if s.forceBrake then max - hyst <= i.rpmLocal else max + hyst < i.rpmLocal;
            var did := if forced == s.forceBrake then s.didIdleOnce else 0;
            && v.currentMode
            && (v.brake <==> i.servo < 0.0 && (forced || if -max < i.rpmLocal then did != 2 else did == 1))
            && v.current == if 0.0 <= i.servo then
                              Times(i.servo, if 0.0 <= i.rpmNow then i.loCurrentMax else Abs(i.loCurrentMin))
                            else if v.brake then Abs(Times(i.servo, i.loCurrentMin))
                            else Times(i.servo, Abs(i.loCurrentMin))
  {
    hide Times, Abs, Idle;
  }

  // The hysteresis type. Braking is forced above the speed up to which the direction may change, with
  // hysteresis; a negative input also brakes until an idle or a fast reverse has been seen.
  lemma HystCommand(s: State, i: Input)
    requires Free(s, i) && s.config.ctrlType.CurrentBrakeRevHyst?
    ensures var v, min := i.servo, if i.loCurrentMin < 0.0 then -i.loCurrentMin else i.loCurrentMin;
            var max, hyst := s.config.maxErpmForDir, s.directionHyst;
            var forced := if s.forceBrake then max - hyst <= i.rpmLocal else max + hyst < i.rpmLocal;
            var did := if forced == s.forceBrake then s.didIdleOnce else 0;
            Iterate(s, i).1 ==
            if 0.0 <= v then SetCurrent(v * if 0.0 <= i.rpmNow then i.loCurrentMax else min)
            else if forced || (if -max < i.rpmLocal then did != 2 else did == 1) then BrakeCurrent(-v * min)
            else SetCurrent(v * min)
  {
    hide Switch, Drive, Iterate, CheckSafeStart;
    FreeIsDriven(s, i);
    HystVerdict(AfterFault(s, i), i);
    var (s1, v) := Switch(AfterFault(s, i), i);
    CheckKeepsConfig(s, i);
    CurrentPasses(CheckSafeStart(s1), i, v);
    TimesMagnitude(i.servo, i.loCurrentMin);
    BrakeMagnitude(i.servo, i.loCurrentMin);
  }

  // How far the way into reverse has come: 1 after a brake, 2 after an idle or when already fast in reverse,
  // 0 after a change of the forced braking or a forward input.
  lemma HystProgress(s: State, i: Input)
    requires !i.outputDisabled && !i.timedOut && s.config.ctrlType.CurrentBrakeRevHyst?
    ensures var max, hyst := s.config.maxErpmForDir, s.directionHyst;
            var forced := if s.forceBrake then max - hyst <= i.rpmLocal else max + hyst < i.rpmLocal;
            var did := if forced == s.forceBrake then s.didIdleOnce else 0;
            && Iterate(s, i).0.forceBrake == forced
            && Iterate(s, i).0.didIdleOnce ==
               if 0.0 < i.servo then (if -max < i.rpmLocal then 0 else did)
               else if forced then did
               else if i.servo == 0.0 then (if did == 1 then 2 else did)
               else if -max < i.rpmLocal then (if did == 2 then 2 else 1)
               else (if did == 1 then 1 else 2)
  {
    PpmSafety.IterateMovesInterlock(s, i);
    hide Iterate;
  }

  // After a forward input a negative one brakes first, whatever was earned before.
  lemma ForwardForgetsReverse(s: State, i: Input, j: Input)
    requires s.config.ctrlType.CurrentBrakeRevHyst?
    requires !i.outputDisabled && !i.timedOut && 0.0 < i.servo && -s.config.maxErpmForDir < i.rpmLocal
    requires !j.outputDisabled && !j.timedOut && j.servo < 0.0 && -s.config.maxErpmForDir < j.rpmLocal
    ensures !Iterate(Iterate(s, i).0, j).1.SetCurrent?
  {
    HystProgress(s, i);
    PpmSafety.IterateKeepsConfig(s, i);
    var s1 := Iterate(s, i).0;
    PpmSafety.SwitchMovesInterlock(AfterFault(s1, j), j);
    SwitchSetsNoCurrent(AfterFault(s1, j), j);
    hide Switch, LocalCurrent;
  }

  lemma SwitchSetsNoCurrent(s: State, i: Input)
    requires !s.config.ctrlType.NoCtrl?
    ensures !Switch(s, i).1.cmd.SetCurrent?
  {
    hide Times, Map, Abs, Angle, Idle, ForceBrake, DidIdle, HystBrakes, OneWayCurrent;
  }

  lemma CheckKeepsConfig(s: State, i: Input)
    requires !s.config.ctrlType.NoCtrl?
    ensures var s1 := CheckSafeStart(Switch(AfterFault(s, i), i).0);
            s1.config == s.config && s1.wasDutyControl == s.wasDutyControl
  {
    PpmSafety.SwitchCounts(AfterFault(s, i), i);
    PpmSafety.SwitchKeepsDuty(AfterFault(s, i), i);
    hide Switch, Idle;
  }

  // A magnitude is its own magnitude.
  lemma BrakeMagnitude(v: real, x: real)
    ensures 0.0 <= Abs(Times(v, x))
    ensures Abs(x) == if x < 0.0 then -x else x
    ensures Times(v, Abs(x)) == v * if x < 0.0 then -x else x
  {
  }

  // Smart reverse: a full negative input, from standstill or continued, moves the duty cycle by at most
  // one step towards the configured share of the input.
  lemma SmartRevCommand(s: State, i: Input)
    requires !i.outputDisabled && !i.timedOut && s.config.ctrlType.CurrentSmartRev? && !s.servoError
    requires 0.0 <= i.smartRevStep
    requires (i.servo < -0.92 && i.smartRevAllowed) || (s.wasDutyControl && i.servo < -0.1)
    ensures var goal, duty := s.config.smartRevMaxDuty * i.servo, Iterate(s, i).0.dutyRev;
            && Iterate(s, i).1 == SetDuty(duty) && Iterate(s, i).0.wasDutyControl
            && (goal - s.dutyRev > i.smartRevStep ==> duty == s.dutyRev + i.smartRevStep)
            && (s.dutyRev - goal > i.smartRevStep ==> duty == s.dutyRev - i.smartRevStep)
            && (-i.smartRevStep <= goal - s.dutyRev <= i.smartRevStep ==> duty == goal)
  {
    var s0 := AfterFault(s, i);
    PpmSafety.SwitchCounts(s0, i);
    PpmSafety.SwitchKeepsDuty(s0, i);
    assert s.config.smartRevMaxDuty * i.servo == -Times(s.config.smartRevMaxDuty, -i.servo);
    hide Switch, Idle;
  }

  // Otherwise it remembers the present duty cycle to start from.
  lemma SmartRevLeft(s: State, i: Input)
    requires Free(s, i) && s.config.ctrlType.CurrentSmartRev?
    requires !(i.servo < -0.92 && i.smartRevAllowed) && !(s.wasDutyControl && i.servo < -0.1)
    ensures Iterate(s, i).0.dutyRev == i.dutyNow && !Iterate(s, i).0.wasDutyControl
  {
    var s0 := AfterFault(s, i);
    PpmSafety.SwitchCounts(s0, i);
    PpmSafety.SwitchKeepsDuty(s0, i);
    hide Switch, Idle, LocalCurrent;
  }

  // Traction control scales the current down with how much faster the local wheel is than the slowest
  // one, in the direction of the current, and drops it below the least current.
  lemma TractionShare(c: Config, i: Input, current: real)
    requires c.multiEsc && c.tc && 1.0 < c.tcMaxDiff
    ensures var sign := if current < 0.0 then -1.0 else 1.0;
            var magnitude := current * sign * (1.0 - (i.rpmLocal - i.rpmLowest) * sign / c.tcMaxDiff);
            LocalCurrent(c, i, current) == if magnitude < i.ccMinCurrent then 0.0 else sign * magnitude
  {
    var m := if current < 0.0 then -current else current;
    MapToZero(if current < 0.0 then -i.rpmLocal + i.rpmLowest else i.rpmLocal - i.rpmLowest, c.tcMaxDiff, m);
  }

  lemma MapToZero(x: real, max: real, y: real)
    requires max != 0.0
    ensures Map(x, 0.0, max, y, 0.0) == y * (1.0 - x / max)
  {
    var q := x / max;
    assert q * max == x;
    var r := (x - 0.0) * (0.0 - y) / max;
    assert r * max == x * -y;
    assert (r - q * -y) * max == 0.0 by {
      assert q * -y * max == q * max * -y;
    }
  }

  // ---- A motor held back ----

  // The counter counts the iterations whose input is idle.
  lemma IdlesAreSmall(s: State, i: Input)
    requires !i.outputDisabled && !i.timedOut && !s.config.ctrlType.NoCtrl?
    requires 50 <= s.pulses && (i.fault ==> s.config.safeStart == NoFault)
    ensures var bound := if s.config.ctrlType.PidPosition180? || s.config.ctrlType.PidPosition360? then 0.02 else 0.001;
            Iterate(s, i).0.pulses == s.pulses + if -bound < i.servo < bound then 1 else 0
  {
    PpmSafety.SwitchCounts(s, i);
    var (s1, v) := Switch(s, i);
    PpmSafety.DriveKeepsCounter(CheckSafeStart(s1), i, v);
    hide Switch, Drive;
  }

  // After a timeout the motor is not commanded at all while the counter is below its threshold and
  // counts, and no longer than that.
  lemma ErrorLasts(s: State, i: Input)
    requires !i.outputDisabled && !i.timedOut && !s.config.ctrlType.NoCtrl?
    ensures var bound := if s.config.ctrlType.PidPosition180? || s.config.ctrlType.PidPosition360? then 0.02 else 0.001;
            var before := if i.fault && s.config.safeStart != NoFault then 0 else s.pulses;
            var counted := before + if -bound < i.servo < bound then 1 else 0;
            var held := s.servoError && counted < 50 && s.config.safeStart != Disabled;
            (Iterate(s, i).0.servoError <==> held) && (held ==> Iterate(s, i).1 == Silence)
  {
    var s0 := AfterFault(s, i);
    PpmSafety.SwitchCounts(s0, i);
    var (s1, v) := Switch(s0, i);
    if Engaged(s1) {
      PpmSafety.SwitchIsSilent(s0, i);
    }
    hide Switch;
  }

  // A timeout brakes with its own current and starts the counter over, and the next iteration commands nothing.
  lemma TimeoutHoldsBack(s: State, i: Input, j: Input)
    requires !i.outputDisabled && i.timedOut
    requires s.config.safeStart != Disabled && !j.timedOut
    ensures Iterate(s, i).1 == TimeoutBrake(i.timeoutBrake)
    ensures Iterate(s, i).0.pulses == 0 && Iterate(s, i).0.servoError
    ensures Iterate(Iterate(s, i).0, j).1 == Silence
  {
    var s1 := Iterate(s, i).0;
    if !j.outputDisabled && !s.config.ctrlType.NoCtrl? {
      PpmSafety.SwitchCounts(AfterFault(s1, j), j);
      PpmSafety.SwitchIsSilent(AfterFault(s1, j), j);
    }
    hide Switch, Drive, Idle;
  }

  // So does a fault, unless the mode exempts it: the motor gets no current, duty cycle, speed or position.
  lemma FaultHoldsBack(s: State, i: Input)
    requires i.fault && s.config.safeStart == Regular && !i.outputDisabled && !i.timedOut
    requires !s.config.ctrlType.CurrentSmartRev?
    ensures Iterate(s, i).1 in {Silence, SetCurrent(0.0), BrakeCurrent(0.0)}
    ensures Iterate(s, i).0.pulses <= 1
  {
    if !s.config.ctrlType.NoCtrl? {
      var s0 := AfterFault(s, i);
      PpmSafety.SwitchCounts(s0, i);
      PpmSafety.SwitchIsSilent(s0, i);
      PpmSafety.ZeroStaysZero(s.config, i);
      var (s1, v) := Switch(s0, i);
      PpmSafety.DriveKeepsCounter(CheckSafeStart(s1), i, v.(current := 0.0));
      hide Switch, LocalCurrent, Idle;
    }
  }
}
