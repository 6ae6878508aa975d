/** The control loop of the SkyPUFF winch (applications/app_skypuff.c:159-237, 306-335, 368-548).
    The rope position is the tachometer; prev_abs_tac is the peak while unwinding and the valley while rewinding. */
module Winch {
  import opened Bytes

  datatype Mode = Uninitialized | Braking | Slowing | Slow | Unwinding | Rewinding

  datatype Config = Config(
    brakingLength: int, overwinding: int, slowingLength: int, slowErpm: real,
    rewindingTrigger: int, unwindingTrigger: int,
    brakeCurrent: real, unwindingCurrent: real, rewindingCurrent: real, slowMaxCurrent: real)
  {
    // The end of the braking zone that winding stops at.
    function Inner(): int { brakingLength - overwinding }
  }

  datatype MotorCommand = NoCommand | BrakeWith(current: real) | PullWith(current: real) | Release | Speed(erpm: real)

  datatype State = State(mode: Mode, prevAbsTac: int, prevErpm: real, cmd: MotorCommand)

  // One reading of the motor per loop.
  datatype Reading = Reading(tac: int, erpm: real, current: real)

  function AbsInt(n: int): (a: nat)
    ensures a == n || a == -n
  {
    if n < 0 then -n else n
  }

  // abs() of the C library applied to a float: truncated towards zero first.
  function AbsTrunc(x: real): (t: int)
    ensures var a := if x < 0.0 then -x else x; t as real <= a < t as real + 1.0
  {
    if x < 0.0 then (-x).Floor else x.Floor
  }

  function Toward(tac: int, strength: real): real { if tac < 0 then strength else -strength }

  function Brake(c: Config, s: State, tac: int): State {
    s.(mode := Braking, prevAbsTac := AbsInt(tac), cmd := BrakeWith(c.brakeCurrent))
  }

  function Unwind(c: Config, s: State, tac: int): State {
    s.(mode := Unwinding, prevAbsTac := AbsInt(tac), cmd := PullWith(Toward(tac, c.unwindingCurrent)))
  }

  function Rewind(c: Config, s: State, tac: int): State {
    s.(mode := Rewinding, prevAbsTac := AbsInt(tac), cmd := PullWith(Toward(tac, c.rewindingCurrent)))
  }

  function SlowDown(s: State): State { s.(mode := Slowing, cmd := Release) }

  function GoSlow(c: Config, s: State, tac: int, erpm: real): State {
    s.(mode := Slow, prevErpm := erpm, cmd := Speed(Toward(tac, c.slowErpm)))
  }

  predicate InBrakingZone(c: Config, r: Reading) { AbsInt(r.tac) < c.Inner() }

  predicate TooFastForZone(c: Config, r: Reading) {
    && AbsInt(r.tac) < c.brakingLength + c.slowingLength
    && if r.tac < 0 then r.erpm > c.slowErpm else r.erpm < -c.slowErpm
  }

  function Max(a: int, b: int): int { if a < b then b else a }

  function InMode(c: Config, s: State, r: Reading): State {
    var a := AbsInt(r.tac);
    match s.mode
    case Uninitialized => if a < c.brakingLength then Brake(c, s, r.tac) else Unwind(c, s, r.tac)
    case Braking =>
      if c.brakingLength < a then Unwind(c, s, r.tac) else if a != s.prevAbsTac then Brake(c, s, r.tac) else s
    case Unwinding =>
      if InBrakingZone(c, r) then Brake(c, s, r.tac)
      else if TooFastForZone(c, r) then SlowDown(s)
      else
        var s1 := s.(prevAbsTac := Max(s.prevAbsTac, a));
        if a < s1.prevAbsTac - c.rewindingTrigger then Rewind(c, s1, r.tac) else s1
    case Rewinding =>
      if InBrakingZone(c, r) then Brake(c, s, r.tac)
      else if TooFastForZone(c, r) then SlowDown(s)
      else
        var s1 := s.(prevAbsTac := Min(s.prevAbsTac, a));
        if s1.prevAbsTac + c.unwindingTrigger < a then Unwind(c, s1, r.tac) else s1
    case Slowing =>
      if InBrakingZone(c, r) then Brake(c, s, r.tac)
      else if AbsTrunc(r.erpm) as real < c.slowErpm then GoSlow(c, s, r.tac, r.erpm)
      else s
    case Slow =>
      if (s.prevErpm < 0.0 && 0.0 <= r.erpm) || (0.0 < s.prevErpm && r.erpm <= 0.0) then Brake(c, s, r.tac)
      else
        var s1 := s.(prevErpm := r.erpm);
        if AbsTrunc(r.current) as real > c.slowMaxCurrent then
          (if InBrakingZone(c, r) then Brake(c, s1, r.tac) else Unwind(c, s1, r.tac))
        else if (0.0 < r.erpm && c.Inner() < r.tac) || (r.erpm < 0.0 && r.tac < -c.Inner()) then Brake(c, s1, r.tac)
        else s1
  }

  class Skypuff {
    const config: Config
    var mode: Mode
    var prevAbsTac: int
    var prevErpm: real
    var cmd: MotorCommand

    ghost function Value(): State
      reads this
    {
      State(mode, prevAbsTac, prevErpm, cmd)
    }

    // app_custom_start
    constructor (config: Config)
      ensures this.config == config && Value() == Start()
    {
      this.config := config;
      mode, prevAbsTac, prevErpm, cmd := Uninitialized, 0, 0.0, NoCommand;
    }

    method DoBrake(curTac: int)
      modifies this
      ensures Value() == Brake(config, old(Value()), curTac)
    {
      mode := Braking;
      prevAbsTac := AbsInt(curTac);
      cmd := BrakeWith(config.brakeCurrent);
    }

    method DoUnwind(curTac: int)
      modifies this
      ensures Value() == Unwind(config, old(Value()), curTac)
    {
      var current := if curTac < 0 then config.unwindingCurrent else -config.unwindingCurrent;
      mode := Unwinding;
      prevAbsTac := AbsInt(curTac);
      cmd := PullWith(current);
    }

    method DoRewind(curTac: int)
      modifies this
      ensures Value() == Rewind(config, old(Value()), curTac)
    {
      var current := if curTac < 0 then config.rewindingCurrent else -config.rewindingCurrent;
      mode := Rewinding;
      prevAbsTac := AbsInt(curTac);
      cmd := PullWith(current);
    }

    method DoSlowing()
      modifies this
      ensures Value() == SlowDown(old(Value()))
    {
      mode := Slowing;
      cmd := Release;
    }

    method DoSlow(curTac: int, erpm: real)
      modifies this
      ensures Value() == GoSlow(config, old(Value()), curTac, erpm)
    {
      var constantErpm := if curTac < 0 then config.slowErpm else -config.slowErpm;
      mode := Slow;
      prevErpm := erpm;
      cmd := Speed(constantErpm);
    }

    // brake_or_slowing; true if the mode changed.
    method BrakeOrSlowing(curTac: int, absTac: int, r: Reading) returns (changed: bool)
      requires curTac == r.tac && absTac == AbsInt(curTac)
      modifies this
      ensures changed == (InBrakingZone(config, r) || TooFastForZone(config, r))
      ensures Value() == if InBrakingZone(config, r) then Brake(config, old(Value()), curTac)
                         else if TooFastForZone(config, r) then SlowDown(old(Value()))
                         else old(Value())
    {
      if absTac < config.brakingLength - config.overwinding {
        DoBrake(curTac);
        return true;
      }
      if absTac < config.brakingLength + config.slowingLength {
        if curTac < 0 && r.erpm > config.slowErpm {
          DoSlowing();
          return true;
        } else if curTac >= 0 && r.erpm < -config.slowErpm {
          DoSlowing();
          return true;
        }
      }
      return false;
    }

    // One pass of the loop in my_thread.
    method Loop(r: Reading)
      modifies this
      ensures Value() == InMode(config, old(Value()), r)
    {
      var curTac := r.tac;
      var absTac := AbsInt(curTac);
      match mode
      case Uninitialized =>
        if absTac < config.brakingLength {
          DoBrake(curTac);
        } else {
          DoUnwind(curTac);
        }
      case Braking =>
        if absTac <= config.brakingLength {
          if absTac != prevAbsTac {
            DoBrake(curTac);
          }
        } else {
          DoUnwind(curTac);
        }
      case Unwinding =>
        var changed := BrakeOrSlowing(curTac, absTac, r);
        if changed {
          return;
        }
        if absTac > prevAbsTac {
          prevAbsTac := absTac;
        }
        if absTac < prevAbsTac - config.rewindingTrigger {
          DoRewind(curTac);
        }
      case Rewinding =>
        var changed := BrakeOrSlowing(curTac, absTac, r);
        if changed {
          return;
        }
        if absTac < prevAbsTac {
          prevAbsTac := absTac;
        }
        if absTac > prevAbsTac + config.unwindingTrigger {
          DoUnwind(curTac);
        }
      case Slowing =>
        if absTac < config.brakingLength - config.overwinding {
          DoBrake(curTac);
          return;
        }
        var absErpm := AbsTrunc(r.erpm) as real;
        if absErpm < config.slowErpm {
          DoSlow(curTac, r.erpm);
        }
      case Slow => SlowLoop(curTac, absTac, r);
    }

    method SlowLoop(curTac: int, absTac: int, r: Reading)
      requires mode == Slow && curTac == r.tac && absTac == AbsInt(curTac)
      modifies this
      ensures Value() == InMode(config, old(Value()), r)
    {
      var absCurrent := AbsTrunc(r.current) as real;
      if (prevErpm < 0.0 && r.erpm >= 0.0) || (prevErpm > 0.0 && r.erpm <= 0.0) {
        DoBrake(curTac);
        return;
      }
      prevErpm := r.erpm;
      if absCurrent > config.slowMaxCurrent {
        if absTac < config.brakingLength - config.overwinding {
          DoBrake(curTac);
        } else {
          DoUnwind(curTac);
        }
        return;
      }
      if (r.erpm > 0.0 && curTac > config.brakingLength - config.overwinding)
         || (r.erpm < 0.0 && curTac < -config.brakingLength + config.overwinding) {
        DoBrake(curTac);
      }
    }
  }

  function Start(): State { State(Uninitialized, 0, 0.0, NoCommand) }

  function After(c: Config, run: seq<Reading>, n: nat): State
    requires n <= |run|
  {
    if n == 0 then Start() else InMode(c, After(c, run, n - 1), run[n - 1])
  }

  // ---- What a loop does, in plain terms ----

  // The mode after a loop.
  lemma NextMode(c: Config, s: State, r: Reading)
    ensures var a, inner := if r.tac < 0 then -r.tac else r.tac, c.brakingLength - c.overwinding;
            var tooFast := a < c.brakingLength + c.slowingLength
                           && if r.tac < 0 then r.erpm > c.slowErpm else r.erpm < -c.slowErpm;
            var peak := if s.prevAbsTac < a then a else s.prevAbsTac;
            var valley := if a < s.prevAbsTac then a else s.prevAbsTac;
            var turned := (s.prevErpm < 0.0 && 0.0 <= r.erpm) || (0.0 < s.prevErpm && r.erpm <= 0.0);
            var passed := (0.0 < r.erpm && inner < r.tac) || (r.erpm < 0.0 && r.tac < -inner);
            InMode(c, s, r).mode ==
            match s.mode
            case Uninitialized => if a < c.brakingLength then Braking else Unwinding
            case Braking => if a <= c.brakingLength then Braking else Unwinding
            case Unwinding =>
              if a < inner then Braking else if tooFast then Slowing
              else if a < peak - c.rewindingTrigger then Rewinding else Unwinding
            case Rewinding =>
              if a < inner then Braking else if tooFast then Slowing
              else if valley + c.unwindingTrigger < a then Unwinding else Rewinding
            case Slowing =>
              if a < inner then Braking else if AbsTrunc(r.erpm) as real < c.slowErpm then Slow else Slowing
            case Slow =>
              if turned then Braking
              else if AbsTrunc(r.current) as real > c.slowMaxCurrent then (if a < inner then Braking else Unwinding)
              else if passed then Braking else Slow
  {
  }

  // The command of a loop that changes the mode: a current or a speed against the side of the rope, a
  // brake or a release; and of one that does not.
  lemma NextCommand(c: Config, s: State, r: Reading)
    ensures var s1 := InMode(c, s, r);
            if s1.mode == s.mode then
              s1.cmd == s.cmd || (s.mode.Braking? && s1.cmd == BrakeWith(c.brakeCurrent))
            else
              match s1.mode
              case Uninitialized => false
              case Braking => s1.cmd == BrakeWith(c.brakeCurrent)
              case Slowing => s1.cmd == Release
              case Slow => s1.cmd == Speed(if 0 <= r.tac then -c.slowErpm else c.slowErpm)
              case Unwinding => s1.cmd == PullWith(if 0 <= r.tac then -c.unwindingCurrent else c.unwindingCurrent)
              case Rewinding => s1.cmd == PullWith(if 0 <= r.tac then -c.rewindingCurrent else c.rewindingCurrent)
    // Braking is commanded again whenever the rope has moved.
    ensures s.mode.Braking? && InMode(c, s, r).mode.Braking? && s.prevAbsTac != r.tac && s.prevAbsTac != -r.tac ==>
              InMode(c, s, r).cmd == BrakeWith(c.brakeCurrent)
  {
    hide AbsTrunc, TooFastForZone;
  }

  // In every run the command in force is one of the mode.
  lemma {:induction false} CommandFitsMode(c: Config, run: seq<Reading>, n: nat)
    requires n <= |run|
    ensures var s := After(c, run, n);
            match s.mode
            case Uninitialized => n == 0
            case Braking => s.cmd == BrakeWith(c.brakeCurrent)
            case Slowing => s.cmd == Release
            case Slow => s.cmd == Speed(c.slowErpm) || s.cmd == Speed(-c.slowErpm)
            case Unwinding => s.cmd == PullWith(c.unwindingCurrent) || s.cmd == PullWith(-c.unwindingCurrent)
            case Rewinding => s.cmd == PullWith(c.rewindingCurrent) || s.cmd == PullWith(-c.rewindingCurrent)
  {
    hide InMode;
    if n > 0 {
      CommandFitsMode(c, run, n - 1);
      NextCommand(c, After(c, run, n - 1), run[n - 1]);
      NextMode(c, After(c, run, n - 1), run[n - 1]);
    }
  }

  // What a loop remembers for the next one: the speed in the slow mode, the distance while braking.
  lemma {:induction false} RemembersLastLoop(c: Config, run: seq<Reading>, n: nat)
    requires 0 < n <= |run|
    ensures After(c, run, n).mode.Slow? ==> After(c, run, n).prevErpm == run[n - 1].erpm
    ensures After(c, run, n).mode.Braking? ==> After(c, run, n).prevAbsTac in {run[n - 1].tac, -run[n - 1].tac}
  {
    hide AbsTrunc, InBrakingZone, TooFastForZone;
  }

  // So the slow mode ends in braking when the rope stops or turns round between two loops.
  lemma SlowStopsAtTurn(c: Config, run: seq<Reading>, n: nat)
    requires 0 < n < |run| && After(c, run, n).mode.Slow?
    requires (run[n - 1].erpm < 0.0 && 0.0 <= run[n].erpm) || (0.0 < run[n - 1].erpm && run[n].erpm <= 0.0)
    ensures After(c, run, n + 1).mode.Braking?
  {
    RemembersLastLoop(c, run, n);
    NextMode(c, After(c, run, n), run[n]);
    hide InMode;
  }

  // ---- Peak and valley ----

  // The distances read since the present mode was entered.
  function Since(c: Config, run: seq<Reading>, n: nat): seq<int>
    requires n <= |run|
  {
    if n == 0 then []
    else
      var a := AbsInt(run[n - 1].tac);
      if After(c, run, n).mode == After(c, run, n - 1).mode then Since(c, run, n - 1) + [a] else [a]
  }

  predicate IsMax(m: int, xs: seq<int>) { m in xs && forall x <- xs :: x <= m }

  predicate IsMin(m: int, xs: seq<int>) { m in xs && forall x <- xs :: m <= x }

  lemma MaxGrows(m: int, xs: seq<int>, a: int)
    requires IsMax(m, xs)
    ensures IsMax(Max(m, a), xs + [a])
  {
    assert (xs + [a])[|xs|] == a;
  }

  lemma MinShrinks(m: int, xs: seq<int>, a: int)
    requires IsMin(m, xs)
    ensures IsMin(Min(m, a), xs + [a])
  {
    assert (xs + [a])[|xs|] == a;
  }

  ghost predicate Extreme(s: State, xs: seq<int>) {
    && (s.mode.Unwinding? ==> IsMax(s.prevAbsTac, xs))
    && (s.mode.Rewinding? ==> IsMin(s.prevAbsTac, xs))
  }

  lemma StepKeepsExtreme(c: Config, s: State, xs: seq<int>, r: Reading)
    requires Extreme(s, xs)
    ensures var s1, a := InMode(c, s, r), AbsInt(r.tac);
            Extreme(s1, if s1.mode == s.mode then xs + [a] else [a])
  {
    var a := AbsInt(r.tac);
    if s.mode.Unwinding? {
      MaxGrows(s.prevAbsTac, xs, a);
    } else if s.mode.Rewinding? {
      MinShrinks(s.prevAbsTac, xs, a);
    }
    assert IsMax(a, [a]) && IsMin(a, [a]);
    hide IsMax, IsMin, AbsTrunc, TooFastForZone, InBrakingZone;
  }

  // prev_abs_tac is the greatest distance since unwinding began, the least since rewinding began.
  lemma {:induction false} PeakOrValley(c: Config, run: seq<Reading>, n: nat)
    requires n <= |run|
    ensures After(c, run, n).mode.Unwinding? ==> IsMax(After(c, run, n).prevAbsTac, Since(c, run, n))
    ensures After(c, run, n).mode.Rewinding? ==> IsMin(After(c, run, n).prevAbsTac, Since(c, run, n))
  {
    if n > 0 {
      hide InMode, IsMax, IsMin;
      PeakOrValley(c, run, n - 1);
      StepKeepsExtreme(c, After(c, run, n - 1), Since(c, run, n - 1), run[n - 1]);
    }
  }

  // So unwinding turns into rewinding exactly when the rope is more than the trigger below its peak
  // and neither braking nor slowing applies.
  lemma RewindsBelowPeak(c: Config, run: seq<Reading>, n: nat, peak: int)
    requires n < |run| && After(c, run, n).mode.Unwinding?
    requires IsMax(peak, Since(c, run, n) + [AbsInt(run[n].tac)])
    ensures After(c, run, n + 1).mode.Rewinding? <==>
              && !InBrakingZone(c, run[n]) && !TooFastForZone(c, run[n])
              && AbsInt(run[n].tac) < peak - c.rewindingTrigger
  {
    PeakOrValley(c, run, n);
    MaxGrows(After(c, run, n).prevAbsTac, Since(c, run, n), AbsInt(run[n].tac));
    assert peak == Max(After(c, run, n).prevAbsTac, AbsInt(run[n].tac));
  }

  lemma UnwindsAboveValley(c: Config, run: seq<Reading>, n: nat, valley: int)
    requires n < |run| && After(c, run, n).mode.Rewinding?
    requires IsMin(valley, Since(c, run, n) + [AbsInt(run[n].tac)])
    ensures After(c, run, n + 1).mode.Unwinding? <==>
              && !InBrakingZone(c, run[n]) && !TooFastForZone(c, run[n])
              && valley + c.unwindingTrigger < AbsInt(run[n].tac)
  {
    PeakOrValley(c, run, n);
    MinShrinks(After(c, run, n).prevAbsTac, Since(c, run, n), AbsInt(run[n].tac));
    assert valley == Min(After(c, run, n).prevAbsTac, AbsInt(run[n].tac));
  }

  // ---- Pull direction ----

  predicate Winding(s: State) { s.mode.Unwinding? || s.mode.Rewinding? }

  function Strength(c: Config, s: State): real { if s.mode.Unwinding? then c.unwindingCurrent else c.rewindingCurrent }

  // The tachometer moves by less than the inner braking distance per loop.
  ghost predicate Gradual(c: Config, run: seq<Reading>) {
    forall k :: 0 < k < |run| ==> AbsInt(run[k].tac - run[k - 1].tac) < c.Inner()
  }

  predicate PullsBack(c: Config, s: State, tac: int) {
    s.cmd == PullWith(Toward(tac, Strength(c, s)))
  }

  lemma StepPullsBack(c: Config, s: State, tac: int, r: Reading)
    requires Winding(s) ==> PullsBack(c, s, tac) && AbsInt(r.tac - tac) < c.Inner()
    requires Winding(InMode(c, s, r))
    ensures PullsBack(c, InMode(c, s, r), r.tac)
    ensures 0 <= c.overwinding ==> c.Inner() <= AbsInt(r.tac)
  {
    hide AbsTrunc, TooFastForZone;
  }

  lemma {:induction false} KeepsPulling(c: Config, run: seq<Reading>, n: nat)
    requires 0 < n <= |run| && Gradual(c, run) && Winding(After(c, run, n))
    ensures PullsBack(c, After(c, run, n), run[n - 1].tac)
    ensures 0 <= c.overwinding ==> c.Inner() <= AbsInt(run[n - 1].tac)
  {
    hide InMode, PullsBack;
    var s := After(c, run, n - 1);
    if 1 < n {
      if Winding(s) {
        KeepsPulling(c, run, n - 1);
      }
      StepPullsBack(c, s, run[n - 2].tac, run[n - 1]);
    } else {
      StepPullsBack(c, Start(), 0, run[0]);
    }
  }

  // While winding, the last current is that of the mode and against the present side of the rope, and
  // the rope is outside the inner braking zone if the overwinding is not negative.
  lemma {:induction false} PullsTowardZero(c: Config, run: seq<Reading>, n: nat)
    requires 0 < n <= |run| && Gradual(c, run) && Winding(After(c, run, n))
    ensures var s, tac := After(c, run, n), run[n - 1].tac;
            && (s.mode.Unwinding? && 0 <= tac ==> s.cmd == PullWith(-c.unwindingCurrent))
            && (s.mode.Unwinding? && tac < 0 ==> s.cmd == PullWith(c.unwindingCurrent))
            && (s.mode.Rewinding? && 0 <= tac ==> s.cmd == PullWith(-c.rewindingCurrent))
            && (s.mode.Rewinding? && tac < 0 ==> s.cmd == PullWith(c.rewindingCurrent))
    ensures 0 <= c.overwinding ==>
              c.brakingLength - c.overwinding <= run[n - 1].tac || run[n - 1].tac <= c.overwinding - c.brakingLength
  {
    KeepsPulling(c, run, n);
  }

  // The current and the tachometer have opposite signs: the motor pulls towards zero, with no more and no
  // less than the current of its mode.
  lemma PullOpposesTachometer(c: Config, run: seq<Reading>, n: nat, current: real)
    requires 0 < n <= |run| && Gradual(c, run) && Winding(After(c, run, n))
    requires 0.0 <= c.unwindingCurrent && 0.0 <= c.rewindingCurrent
    requires After(c, run, n).cmd == PullWith(current)
    ensures if 0 <= run[n - 1].tac then current <= 0.0 else 0.0 <= current
    ensures var mode := After(c, run, n).mode;
            var strength := if mode.Unwinding? then c.unwindingCurrent else c.rewindingCurrent;
            current == strength || current == -strength
  {
    PullsTowardZero(c, run, n);
  }

  ghost predicate KeepsDistance(c: Config, run: seq<Reading>, n: nat) {
    0 < n <= |run| && Gradual(c, run) && Winding(After(c, run, n)) ==> c.Inner() <= AbsInt(run[n - 1].tac)
  }

  // The distance bound holds in all gradual runs iff the overwinding is not negative.
  lemma DistanceBoundIff(c: Config)
    requires 0 < c.Inner()
    ensures 0 <= c.overwinding <==> forall run, n: nat :: KeepsDistance(c, run, n)
  {
    if 0 <= c.overwinding {
      forall run, n: nat
        ensures KeepsDistance(c, run, n)
      {
        if 0 < n <= |run| && Gradual(c, run) && Winding(After(c, run, n)) {
          KeepsPulling(c, run, n);
        }
      }
    } else {
      var run := [Reading(Max(c.brakingLength, 0), 0.0, 0.0)];
      assert After(c, run, 0) == Start();
      assert !KeepsDistance(c, run, 1);
    }
  }

  // ---- Quiescence ----

  function Rest(c: Config, s: State, tac: int, n: nat): State {
    if n == 0 then s else InMode(c, Rest(c, s, tac, n - 1), Reading(tac, 0.0, 0.0))
  }

  // A mode that a motionless rope does not leave.
  predicate Settled(c: Config, s: State, tac: int) {
    var a := AbsInt(tac);
    match s.mode
    case Uninitialized => false
    case Braking => a <= c.brakingLength
    case Slowing => false
    case Slow => s.prevErpm == 0.0 && 0.0 <= c.slowMaxCurrent
    case Unwinding => c.Inner() <= a && s.prevAbsTac - c.rewindingTrigger <= a
    case Rewinding => c.Inner() <= a <= s.prevAbsTac + c.unwindingTrigger
  }

  lemma SettledStays(c: Config, s: State, tac: int)
    requires 0 <= c.overwinding && 0 <= c.rewindingTrigger && 0 <= c.unwindingTrigger && 0.0 < c.slowErpm
    requires Settled(c, s, tac)
    ensures var s1 := InMode(c, s, Reading(tac, 0.0, 0.0)); s1.mode == s.mode && Settled(c, s1, tac)
  {
  }

  lemma SettlesInTwo(c: Config, s: State, tac: int)
    requires 0 <= c.overwinding && 0 <= c.rewindingTrigger && 0 <= c.unwindingTrigger && 0.0 < c.slowErpm
    ensures Settled(c, Rest(c, s, tac, 2), tac)
  {
    assert !TooFastForZone(c, Reading(tac, 0.0, 0.0));
    hide TooFastForZone;
    assert Rest(c, s, tac, 0) == s;
    assert Rest(c, s, tac, 1) == InMode(c, s, Reading(tac, 0.0, 0.0));
  }

  // From any state a motionless winch changes its mode in the first two loops at most, and never again.
  lemma {:induction false} ComesToRest(c: Config, s: State, tac: int, n: nat)
    requires 0 <= c.overwinding && 0 <= c.rewindingTrigger && 0 <= c.unwindingTrigger && 0.0 < c.slowErpm
    requires 2 <= n
    ensures Rest(c, s, tac, n).mode == Rest(c, s, tac, 2).mode
    ensures Settled(c, Rest(c, s, tac, n), tac)
  {
    if n == 2 {
      SettlesInTwo(c, s, tac);
    } else {
      ComesToRest(c, s, tac, n - 1);
      SettledStays(c, Rest(c, s, tac, n - 1), tac);
    }
  }
}
