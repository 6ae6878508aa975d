/** What the PPM loop guarantees over whole runs: the safe start and the reverse interlock
    (applications/app_ppm.c:60-74, 171-188, 227-401, 486-560). */
module PpmSafety {
  import opened Reals
  import opened PpmApp

  // app_ppm_start, app_ppm_configure and the iterations of the thread.
  datatype Event = Started | Reconfigured(config: Config) | Iterated(input: Input)

  // Starting the thread leaves the static variables as they are.
  function Step(s: State, e: Event): (res: (State, Command)) {
    match e
    case Started => (s, Silence)
    case Reconfigured(c) => (Configure(s, c), Silence)
    case Iterated(i) => Iterate(s, i)
  }

  // A run begins with a start of the thread in state s0; the first start finds Initial.
  function After(s0: State, run: seq<Event>, n: nat): State
    requires n <= |run|
  {
    if n == 0 then s0 else Step(After(s0, run, n - 1), run[n - 1]).0
  }

  // ---- Safe start ----

  // What the safe start has seen since the last start of the thread, reconfiguration, timeout or fault:
  // the counter it found then, and for each iteration that got as far as the switch, was its input idle?
  datatype History = History(carried: int, seen: seq<bool>)

  function Note(s: State, e: Event, h: History): History {
    match e
    case Started => History(s.pulses, [])
    case Reconfigured(c) => History(0, [])
    case Iterated(i) =>
      if i.outputDisabled then h
      else if i.timedOut then History(0, [])
      else
        var kept := Kept(s, i, h);
        if s.config.ctrlType.NoCtrl? then kept else kept.(seen := kept.seen + [Idle(s.config, i.servo)])
  }

  function Kept(s: State, i: Input, h: History): History {
    if i.fault && !s.config.safeStart.NoFault? then History(0, []) else h
  }

  function Hist(s0: State, run: seq<Event>, n: nat): History
    requires n <= |run|
  {
    if n == 0 then History(s0.pulses, []) else Note(After(s0, run, n - 1), run[n - 1], Hist(s0, run, n - 1))
  }

  // Consecutive idle iterations, starting at the k-th.
  ghost predicate IdleFrom(seen: seq<bool>, k: int, len: nat) {
    0 <= k && k + len <= |seen| && forall j :: k <= j < k + len ==> seen[j]
  }

  ghost predicate WasIdle(seen: seq<bool>) { exists k :: IdleFrom(seen, k, MIN_PULSES_WITHOUT_POWER) }

  // What a carried counter lacks.
  function Missing(carried: int): nat {
    if carried < MIN_PULSES_WITHOUT_POWER then MIN_PULSES_WITHOUT_POWER - carried else 0
  }

  // Fifty idle iterations in a row, or right after the start as many as the carried counter lacked.
  ghost predicate Waited(h: History) { WasIdle(h.seen) || IdleFrom(h.seen, 0, Missing(h.carried)) }

  // The counter is 0, the value of the iteration before, or has reached its threshold.
  predicate Steady(s: State) {
    !s.config.safeStart.Disabled? ==>
      0 <= s.pulses && (s.pulses == 0 || s.pulses == s.pulsesBefore || MIN_PULSES_WITHOUT_POWER <= s.pulses)
  }

  // The present idle streak, and what was carried if it reaches back to the start.
  predicate Streak(pulses: int, h: History) {
    || (pulses <= |h.seen| && forall j :: |h.seen| - pulses <= j < |h.seen| ==> h.seen[j])
    || (pulses == h.carried + |h.seen| && forall j :: 0 <= j < |h.seen| ==> h.seen[j])
  }

  ghost predicate CounterInv(s: State, h: History) {
    && Steady(s)
    && (!s.config.safeStart.Disabled? ==>
          && 0 <= h.carried
          && (s.pulses < MIN_PULSES_WITHOUT_POWER ==> Streak(s.pulses, h))
          && (MIN_PULSES_WITHOUT_POWER <= s.pulses ==> Waited(h)))
  }

  // A command that moves or brakes the motor on behalf of the input.
  predicate Driving(cmd: Command) {
    match cmd
    case BrakeCurrent(x) => x != 0.0
    case SetCurrent(x) => x != 0.0
    case SetDuty(_) => true
    case SetPidSpeed(_) => true
    case SetPidPos(_) => true
    case _ => false
  }

  lemma SwitchCounts(s: State, i: Input)
    requires !s.config.ctrlType.NoCtrl?
    ensures var s1 := Switch(s, i).0;
            && s1.pulses == s.pulses + (if Idle(s.config, i.servo) then 1 else 0)
            && s1.config == s.config && s1.pulsesBefore == s.pulsesBefore && s1.servoError == s.servoError
  {
  }

  lemma AppendKeeps(h: History, b: bool)
    ensures Waited(h) ==> Waited(h.(seen := h.seen + [b]))
  {
    if k :| IdleFrom(h.seen, k, MIN_PULSES_WITHOUT_POWER) {
      assert IdleFrom(h.seen + [b], k, MIN_PULSES_WITHOUT_POWER);
    }
  }

  // An idle iteration makes the streak longer, and long enough at the threshold.
  lemma StreakGrows(pulses: int, h: History)
    requires 0 <= pulses < MIN_PULSES_WITHOUT_POWER && 0 <= h.carried && Streak(pulses, h)
    ensures var h1 := h.(seen := h.seen + [true]);
            Streak(pulses + 1, h1) && (pulses + 1 == MIN_PULSES_WITHOUT_POWER ==> Waited(h1))
  {
    var seen := h.seen + [true];
    if pulses + 1 == MIN_PULSES_WITHOUT_POWER {
      if pulses <= |h.seen| && forall j :: |h.seen| - pulses <= j < |h.seen| ==> h.seen[j] {
        assert IdleFrom(seen, |seen| - MIN_PULSES_WITHOUT_POWER, MIN_PULSES_WITHOUT_POWER);
      } else {
        assert IdleFrom(seen, 0, Missing(h.carried));
      }
    }
  }

  // The counter's part of a processed iteration.
  lemma CountKeepsInv(s: State, h: History, i: Input)
    requires CounterInv(s, h) && !s.config.ctrlType.NoCtrl?
    ensures var h1 := h.(seen := h.seen + [Idle(s.config, i.servo)]);
            && CounterInv(CheckSafeStart(Switch(s, i).0), h1)
            && (!s.config.safeStart.Disabled? && !Engaged(Switch(s, i).0) ==> Waited(h1))
  {
    var b := Idle(s.config, i.servo);
    SwitchCounts(s, i);
    AppendKeeps(h, b);
    if !s.config.safeStart.Disabled? && s.pulses < MIN_PULSES_WITHOUT_POWER && b {
      StreakGrows(s.pulses, h);
    }
    assert Streak(0, h.(seen := h.seen + [b]));
    hide Switch, Idle, Waited, Streak;
  }

  lemma DriveKeepsCounter(s: State, i: Input, v: Verdict)
    ensures var s1 := Drive(s, i, v).0;
            && s1.config == s.config && s1.pulses == s.pulses
            && s1.pulsesBefore == s.pulsesBefore && s1.servoError == s.servoError
  {
  }

  // A counter that starts over, or is taken over by a new thread, is in order.
  lemma FreshInv(s: State)
    ensures CounterInv(s.(pulses := 0), History(0, []))
    ensures Steady(s) && (!s.config.safeStart.Disabled? ==> 0 <= s.pulses) ==> CounterInv(s, History(s.pulses, []))
  {
  }

  lemma StepKeepsInv(s: State, e: Event, h: History)
    requires CounterInv(s, h)
    ensures CounterInv(Step(s, e).0, Note(s, e, h))
  {
    FreshInv(s);
    if e.Iterated? {
      var i := e.input;
      var s0, kept := AfterFault(s, i), Kept(s, i, h);
      if Processed(s, i) {
        var (s1, v) := Switch(s0, i);
        CountKeepsInv(s0, kept, i);
        hide Switch, CheckSafeStart, Drive, Waited, Streak;
        DriveKeepsCounter(CheckSafeStart(s1), i, if Engaged(s1) then v.(current := 0.0) else v);
      }
    } else if e.Reconfigured? {
      FreshInv(Configure(s, e.config));
    }
  }

  lemma {:induction false} RunKeepsInv(s0: State, run: seq<Event>, n: nat)
    requires Steady(s0) && n <= |run|
    ensures CounterInv(After(s0, run, n), Hist(s0, run, n))
  {
    FreshInv(s0);
    if n > 0 {
      hide Step, Note, CounterInv;
      RunKeepsInv(s0, run, n - 1);
      StepKeepsInv(After(s0, run, n - 1), run[n - 1], Hist(s0, run, n - 1));
    }
  }

  lemma MapOfZero(x: real, inMax: real)
    requires inMax != 0.0
    ensures Map(x, 0.0, inMax, 0.0, 0.0) == 0.0
  {
    assert (x - 0.0) * (0.0 - 0.0) == 0.0;
  }

  // A zeroed current stays zero through traction control.
  lemma ZeroStaysZero(c: Config, i: Input)
    ensures LocalCurrent(c, i, 0.0) == 0.0
  {
    if c.multiEsc && c.tc && 1.0 < c.tcMaxDiff {
      MapOfZero(i.rpmLocal - i.rpmLowest, c.tcMaxDiff);
    }
  }

  // While the counter is below its threshold the motor is driven exactly by the duty cycle branch of
  // CurrentSmartRev, which does not look at the zeroed current.
  lemma {:induction false} EngagedDrivesIff(s: State, i: Input)
    requires Processed(s, i) && Engaged(Switch(AfterFault(s, i), i).0)
    ensures Driving(Iterate(s, i).1) <==> s.config.ctrlType.CurrentSmartRev? && !s.servoError && SmartRevDuty(s, i)
  {
    var s0 := AfterFault(s, i);
    SwitchCounts(s0, i);
    SwitchIsSilent(s0, i);
    var (s1, v) := Switch(s0, i);
    assert s1.wasDutyControl == s.wasDutyControl;
    hide Switch, LocalCurrent, Idle;
    ZeroStaysZero(s.config, i);
  }

  lemma SwitchIsSilent(s: State, i: Input)
    requires !s.config.ctrlType.NoCtrl? && Engaged(Switch(s, i).0)
    ensures Switch(s, i).1.cmd == Silence
  {
    hide Times, Map, Abs, NormAngle;
  }

  // Safe start is on and of use.
  predicate Guarded(s: State) { !s.config.safeStart.Disabled? && !s.config.ctrlType.CurrentSmartRev? }

  // Safe start: in every run, for every control type but CurrentSmartRev, driving the motor takes fifty
  // consecutive idle iterations since the last start of the thread, reconfiguration, timeout or fault,
  // less what the counter held at the start if they follow it immediately.
  lemma {:induction false} DrivingTakesIdle(s0: State, run: seq<Event>, n: nat)
    requires Steady(s0) && n < |run| && Guarded(After(s0, run, n))
    requires Driving(Step(After(s0, run, n), run[n]).1)
    ensures Waited(Hist(s0, run, n + 1))
  {
    var s, i := After(s0, run, n), run[n].input;
    RunKeepsInv(s0, run, n);
    var h := Hist(s0, run, n);
    FreshInv(s);
    assert Processed(s, i);
    hide Waited, Streak;
    CountKeepsInv(AfterFault(s, i), Kept(s, i, h), i);
    if Engaged(Switch(AfterFault(s, i), i).0) {
      EngagedDrivesIff(s, i);
    }
  }

  // The firmware configures the thread after each start. Then nothing is carried.
  ghost predicate StartsReconfigured(run: seq<Event>) {
    forall k, n :: 0 <= k < n < |run| && run[k].Started? && run[n].Iterated? ==> ReconfiguredIn(run, k, n)
  }

  ghost predicate ReconfiguredIn(run: seq<Event>, k: int, n: int)
    requires 0 <= k < n <= |run|
  {
    exists j :: k < j < n && run[j].Reconfigured?
  }

  lemma {:induction false} CarriedSinceStart(s0: State, run: seq<Event>, n: nat)
    requires s0.pulses == 0 && n <= |run| && Hist(s0, run, n).carried != 0
    ensures exists k :: 0 <= k < n && run[k].Started? && !ReconfiguredIn(run, k, n)
  {
    if !run[n - 1].Started? {
      CarriedSinceStart(s0, run, n - 1);
      var k :| 0 <= k < n - 1 && run[k].Started? && !ReconfiguredIn(run, k, n - 1);
      assert !ReconfiguredIn(run, k, n);
    } else {
      assert !ReconfiguredIn(run, n - 1, n);
    }
  }

  lemma NothingCarried(s0: State, run: seq<Event>, n: nat)
    requires s0.pulses == 0 && n < |run| && run[n].Iterated? && StartsReconfigured(run)
    ensures Hist(s0, run, n + 1).carried == 0
  {
    forall k | 0 <= k <= n && run[k].Started?
      ensures ReconfiguredIn(run, k, n + 1)
    {
      assert ReconfiguredIn(run, k, n);
    }
    if Hist(s0, run, n + 1).carried != 0 {
      CarriedSinceStart(s0, run, n + 1);
    }
  }

  // So with a reconfiguration after each start, before the first iteration, the wait is a full one.
  lemma {:induction false} DrivingTakesFullWait(c: Config, run: seq<Event>, n: nat)
    requires n < |run| && StartsReconfigured(run) && Guarded(After(Initial(c), run, n))
    requires Driving(Step(After(Initial(c), run, n), run[n]).1)
    ensures WasIdle(Hist(Initial(c), run, n + 1).seen)
  {
    DrivingTakesIdle(Initial(c), run, n);
    NothingCarried(Initial(c), run, n);
    hide After, Hist, Driving;
  }

  // The exemption is real: a fresh thread in CurrentSmartRev with safe start on sets a duty cycle at once.
  lemma SmartRevBypassesSafeStart(c: Config, i: Input)
    requires c.ctrlType.CurrentSmartRev? && !c.safeStart.Disabled? && !i.outputDisabled && !i.timedOut
    requires i.servo < -0.92 && i.smartRevAllowed
    ensures Step(Initial(c), Iterated(i)).1.SetDuty? && !Waited(Hist(Initial(c), [Iterated(i)], 1))
  {
    var run := [Iterated(i)];
    assert After(Initial(c), run, 0) == Initial(c) && Hist(Initial(c), run, 0) == History(0, []);
    assert |Hist(Initial(c), run, 1).seen| <= 1 && Hist(Initial(c), run, 1).carried == 0;
    SwitchCounts(AfterFault(Initial(c), i), i);
    hide Switch;
  }

  // ---- Release of the safe start ----

  // An idle iteration that does not start the counter over.
  predicate Quiet(s: State, e: Event) {
    && e.Iterated? && Processed(s, e.input) && Idle(s.config, e.input.servo)
    && !(e.input.fault && !s.config.safeStart.NoFault?)
  }

  // The first of a series of idle iterations is lost if it meets a restarted counter whose previous value was one.
  function LostIdles(s: State): int { if s.pulses == 0 && s.pulsesBefore == 1 then 1 else 0 }

  lemma QuietCounts(s: State, e: Event)
    requires !s.config.safeStart.Disabled? && Quiet(s, e)
    ensures var s1 := Step(s, e).0;
            && s1.config == s.config
            && (MIN_PULSES_WITHOUT_POWER <= s.pulses + 1 ==> s1.pulses == s.pulses + 1)
            && (s.pulses + 1 < MIN_PULSES_WITHOUT_POWER ==>
                  s1.pulses == s1.pulsesBefore == if s.pulses + 1 == s.pulsesBefore then 0 else s.pulses + 1)
  {
    var i := e.input;
    SwitchCounts(s, i);
    var (s1, v) := Switch(s, i);
    DriveKeepsCounter(CheckSafeStart(s1), i, if Engaged(s1) then v.(current := 0.0) else v);
    hide Switch, Drive, Idle;
  }

  lemma {:induction false} IdleArms(s0: State, run: seq<Event>, n: nat)
    requires !s0.config.safeStart.Disabled? && Steady(s0) && n <= |run|
    requires forall k :: 0 <= k < n ==> Quiet(s0, run[k])
    ensures var s := After(s0, run, n);
            && s.config == s0.config
            && (s0.pulses + n - LostIdles(s0) <= s.pulses || MIN_PULSES_WITHOUT_POWER <= s.pulses)
            && (n == 0 || s.pulses == s.pulsesBefore || MIN_PULSES_WITHOUT_POWER <= s.pulses)
  {
    hide Step, Quiet;
    if n > 0 {
      IdleArms(s0, run, n - 1);
      var s, e := After(s0, run, n - 1), run[n - 1];
      SameQuiet(s0, s, e);
      QuietCounts(s, e);
    }
  }

  lemma SameQuiet(s: State, t: State, e: Event)
    requires s.config == t.config
    ensures Quiet(s, e) == Quiet(t, e)
  {
  }

  lemma QuietIsNoted(s: State, e: Event, h: History)
    requires Quiet(s, e)
    ensures Note(s, e, h) == h.(seen := h.seen + [true])
  {
  }

  lemma {:induction false} IdlesAreNoted(s0: State, run: seq<Event>, n: nat)
    requires !s0.config.safeStart.Disabled? && Steady(s0) && n <= |run|
    requires forall k :: 0 <= k < n ==> Quiet(s0, run[k])
    ensures var h := Hist(s0, run, n); h.carried == s0.pulses && |h.seen| == n && forall j :: 0 <= j < n ==> h.seen[j]
  {
    hide Step, Quiet, Note, Steady, After;
    if n > 0 {
      IdlesAreNoted(s0, run, n - 1);
      IdleArms(s0, run, n - 1);
      var s, e := After(s0, run, n - 1), run[n - 1];
      SameQuiet(s0, s, e);
      QuietIsNoted(s, e, Hist(s0, run, n - 1));
    }
  }

  predicate KeepsCounter(s: State, i: Input) { Processed(s, i) && !(i.fault && !s.config.safeStart.NoFault?) }

  function Unguarded(s: State): State { s.(config := s.config.(safeStart := Disabled)) }

  lemma SameHyst(s: State, t: State, i: Input)
    requires t == s.(config := t.config, pulses := t.pulses) && t.config == s.config.(safeStart := Disabled)
    ensures ForceBrake(t, i.rpmLocal) == ForceBrake(s, i.rpmLocal) && DidIdle(t, i) == DidIdle(s, i)
    ensures HystBrakes(t, i) == HystBrakes(s, i)
  {
  }

  lemma SameSwitch(s: State, t: State, i: Input)
    requires !s.config.ctrlType.NoCtrl?
    requires t == s.(config := t.config, pulses := t.pulses) && t.config == s.config.(safeStart := Disabled)
    requires !Engaged(Counted(s, i))
    ensures Switch(s, i).1 == Switch(t, i).1
  {
    SameHyst(s, t, i);
    assert !Engaged(Counted(t, i));
    hide Times, Map, Abs, Angle, ForceBrake, DidIdle, HystBrakes, Counted, OneWayCurrent;
  }

  lemma SwitchKeepsDuty(s: State, i: Input)
    requires !s.config.ctrlType.NoCtrl?
    ensures Switch(s, i).0.wasDutyControl == s.wasDutyControl && Switch(s, i).0.dutyRev == s.dutyRev
    ensures Engaged(Switch(s, i).0) == Engaged(Counted(s, i))
  {
    hide Times, Map, Abs, Angle, ForceBrake, DidIdle, HystBrakes, OneWayCurrent;
  }

  lemma SameDrive(s: State, t: State, i: Input, v: Verdict)
    requires Unguarded(s).config == Unguarded(t).config
    requires s.wasDutyControl == t.wasDutyControl && s.dutyRev == t.dutyRev
    ensures Drive(s, i, v).1 == Drive(t, i, v).1
  {
    hide Times, Map, Abs;
  }

  // A counter at its threshold lets every command pass that would be given without the safe start.
  lemma ThresholdReleases(s: State, i: Input)
    requires KeepsCounter(s, i) && MIN_PULSES_WITHOUT_POWER <= s.pulses
    ensures Iterate(s, i).1 == Iterate(Unguarded(s), i).1
  {
    var t0 := AfterFault(Unguarded(s), i);
    SwitchCounts(s, i);
    SwitchCounts(t0, i);
    SwitchKeepsDuty(s, i);
    SwitchKeepsDuty(t0, i);
    SameSwitch(s, t0, i);
    var (s1, v) := Switch(s, i);
    var t1 := Switch(t0, i).0;
    SameDrive(CheckSafeStart(s1), CheckSafeStart(t1), i, v);
    hide Switch, Drive, Idle;
  }

  // The partner of the safe start: fifty idle iterations in a row, fifty-one if the first is lost, less
  // what the counter held, and the motor obeys as if there were no safe start.
  lemma {:induction false} IdleReleases(s0: State, run: seq<Event>, n: nat, i: Input)
    requires !s0.config.safeStart.Disabled? && Steady(s0) && n <= |run|
    requires forall k :: 0 <= k < n ==> Quiet(s0, run[k])
    requires MIN_PULSES_WITHOUT_POWER + LostIdles(s0) <= s0.pulses + n && KeepsCounter(s0, i)
    ensures Iterate(After(s0, run, n), i).1 == Iterate(Unguarded(After(s0, run, n)), i).1
  {
    IdleArms(s0, run, n);
    ThresholdReleases(After(s0, run, n), i);
  }

  // ---- What a start that is not followed by a reconfiguration carries over ----

  const IDLE_INPUT := Input(
    false, false, false, 0.0, 0.0, 1.0, 1.0, 1.0, 1.0, -1.0, 0.9, 0.0, true, 0.0, 0.0, false, 0.0)

  const FULL_INPUT := IDLE_INPUT.(servo := 1.0)

  lemma FullInputDrives(s: State)
    requires !s.config.ctrlType.NoCtrl? && MIN_PULSES_WITHOUT_POWER <= s.pulses
    ensures Driving(Iterate(s, FULL_INPUT).1)
  {
    var i := FULL_INPUT;
    SwitchCounts(s, i);
    var (s1, v) := Switch(s, i);
    FullSwitch(s, i);
    FullCurrent(s.config, i);
    hide Switch, LocalCurrent, Idle;
  }

  lemma FullIsNoted(s: State, h: History)
    requires !s.config.ctrlType.NoCtrl?
    ensures Note(s, Iterated(FULL_INPUT), h) == h.(seen := h.seen + [false])
  {
  }

  lemma FullSwitch(s: State, i: Input)
    requires i == FULL_INPUT && !s.config.ctrlType.NoCtrl? && MIN_PULSES_WITHOUT_POWER <= s.pulses
    ensures var v := Switch(s, i).1;
            if v.currentMode then !v.brake && v.current == 1.0 else Driving(v.cmd)
  {
    assert Times(1.0, 1.0) == 1.0;
    hide Times, Map, NormAngle, DidIdle, ForceBrake;
  }

  lemma FullCurrent(c: Config, i: Input)
    requires i == FULL_INPUT
    ensures LocalCurrent(c, i, 1.0) == 1.0
  {
    if 1.0 < c.tcMaxDiff {
      assert 0.0 * (0.0 - 1.0) == 0.0;
      assert Map(0.0, 0.0, c.tcMaxDiff, 1.0, 0.0) == 1.0;
    }
  }

  // As many idle iterations as the carried counter lacks, then a full input.
  function EarlyRun(s: State): (run: seq<Event>)
    ensures |run| == Missing(s.pulses) + 1
  {
    seq(Missing(s.pulses), _ => Iterated(IDLE_INPUT)) + [Iterated(FULL_INPUT)]
  }

  lemma IdleInputIsQuiet(s: State)
    requires !s.config.ctrlType.NoCtrl?
    ensures Quiet(s, Iterated(IDLE_INPUT))
  {
  }

  // A carried counter shortens the wait by its value: a thread started with it drives after the rest.
  lemma {:induction false} CarriedCounterShortens(s: State)
    requires Steady(s) && !s.config.safeStart.Disabled? && !s.config.ctrlType.NoCtrl? && 1 <= s.pulses
    ensures var run, m := EarlyRun(s), Missing(s.pulses);
            && After(s, run, m).config == s.config
            && Driving(Step(After(s, run, m), run[m]).1)
            && IdleFrom(Hist(s, run, m + 1).seen, 0, m)
            && |Hist(s, run, m + 1).seen| == m + 1 && !Hist(s, run, m + 1).seen[m]
  {
    hide Iterate, After, Note, Driving, Quiet;
    var run, m := EarlyRun(s), Missing(s.pulses);
    IdleInputIsQuiet(s);
    IdleArms(s, run, m);
    IdlesAreNoted(s, run, m);
    var s1 := After(s, run, m);
    FullInputDrives(s1);
    FullIsNoted(s1, Hist(s, run, m));
  }

  ghost predicate NoStart(run: seq<Event>) { forall k :: 0 <= k < |run| ==> !run[k].Started? }

  // Until the next start, nothing drives the motor without fifty consecutive idle iterations since this one.
  ghost predicate WaitsForIdle(s: State) { forall run: seq<Event>, n: nat :: WaitsAt(s, run, n) }

  ghost predicate WaitsAt(s: State, run: seq<Event>, n: nat) {
    n < |run| && NoStart(run) && Guarded(After(s, run, n)) && Driving(Step(After(s, run, n), run[n]).1)
    ==> WasIdle(Hist(s, run, n + 1).seen)
  }

  // The thread waits after a start for the full fifty idle iterations iff the counter was zero then.
  // By RunKeepsInv every state that a run reaches is Steady.
  lemma {:induction false} StartWaitsIff(s: State)
    requires Steady(s) && Guarded(s) && !s.config.ctrlType.NoCtrl?
    ensures WaitsForIdle(s) <==> s.pulses == 0
  {
    if s.pulses == 0 {
      forall run: seq<Event>, n: nat
        ensures WaitsAt(s, run, n)
      {
        if n < |run| && NoStart(run) && Guarded(After(s, run, n)) && Driving(Step(After(s, run, n), run[n]).1) {
          DrivingTakesIdle(s, run, n);
          NothingCarried(s, run, n);
        }
      }
    } else {
      var run, m := EarlyRun(s), Missing(s.pulses);
      CarriedCounterShortens(s);
      assert |Hist(s, run, m + 1).seen| <= MIN_PULSES_WITHOUT_POWER;
      assert !WasIdle(Hist(s, run, m + 1).seen);
      assert !WaitsAt(s, run, m);
    }
  }

  // Fifty idle iterations, a stop and a start of the thread, and a full input: the motor is driven at
  // once, with nothing idle seen since the start.
  lemma {:induction false} RestartDrivesAtOnce(c: Config)
    requires !c.safeStart.Disabled? && !c.ctrlType.NoCtrl?
    ensures var n := MIN_PULSES_WITHOUT_POWER;
            var run := seq(n, _ => Iterated(IDLE_INPUT)) + [Started, Iterated(FULL_INPUT)];
            && Driving(Step(After(Initial(c), run, n + 1), run[n + 1]).1)
            && Hist(Initial(c), run, n + 2).seen == [false]
  {
    hide Iterate, Driving, Quiet;
    var s0, n := Initial(c), MIN_PULSES_WITHOUT_POWER;
    var run := seq(n, _ => Iterated(IDLE_INPUT)) + [Started, Iterated(FULL_INPUT)];
    IdleInputIsQuiet(s0);
    IdleArms(s0, run, n);
    var s := After(s0, run, n);
    assert After(s0, run, n + 1) == s && Hist(s0, run, n + 1) == History(s.pulses, []);
    hide After, Note;
    FullInputDrives(s);
    FullIsNoted(s, History(s.pulses, []));
  }

  // ---- Reverse interlock ----

  // Iterations that advance the interlock of CurrentBrakeRevHyst.
  predicate Interlocks(s: State, e: Event) {
    e.Iterated? && Processed(s, e.input) && s.config.ctrlType.CurrentBrakeRevHyst?
  }

  // A negative input while not yet fast in reverse, answered by braking.
  predicate Brakes(s: State, e: Event) {
    && Interlocks(s, e)
    && e.input.servo < 0.0 && e.input.rpmLocal > -s.config.maxErpmForDir
    && !ForceBrake(s, e.input.rpmLocal) && HystBrakes(s, e.input)
  }

  // An input of exactly zero while braking is not forced.
  predicate Idles(s: State, e: Event) {
    Interlocks(s, e) && e.input.servo == 0.0 && !ForceBrake(s, e.input.rpmLocal)
  }

  // A negative input while already at or below the reverse speed.
  predicate AlreadyReverse(s: State, e: Event) {
    && Interlocks(s, e)
    && e.input.servo < 0.0 && e.input.rpmLocal <= -s.config.maxErpmForDir && !ForceBrake(s, e.input.rpmLocal)
  }

  lemma SwitchMovesInterlock(s: State, i: Input)
    requires !s.config.ctrlType.NoCtrl?
    ensures var (s1, v) := Switch(s, i);
            var hyst := s.config.ctrlType.CurrentBrakeRevHyst?;
            && s1.forceBrake == (if hyst then ForceBrake(s, i.rpmLocal) else s.forceBrake)
            && s1.didIdleOnce == (if hyst then DidIdle(s, i) else s.didIdleOnce)
            && (hyst ==> v.brake == HystBrakes(s, i))
  {
    hide Times, Abs, Map, Idle, ForceBrake, DidIdle;
  }

  lemma IterateMovesInterlock(s: State, i: Input)
    ensures var s1 := Iterate(s, i).0;
            var moves := Interlocks(s, Iterated(i));
            && s1.forceBrake == (if moves then ForceBrake(s, i.rpmLocal) else s.forceBrake)
            && s1.didIdleOnce == (if moves then DidIdle(s, i) else s.didIdleOnce)
  {
    if Processed(s, i) {
      SwitchMovesInterlock(AfterFault(s, i), i);
    }
    hide Switch, LocalCurrent;
  }

  lemma {:induction false} InterlockStep(s: State, e: Event)
    requires 0 <= s.didIdleOnce <= 2
    ensures var did := Step(s, e).0.didIdleOnce;
            || did == 0
            || did == s.didIdleOnce
            || (did == 1 && Brakes(s, e))
            || (did == 2 && s.didIdleOnce == 1 && Idles(s, e))
            || (did == 2 && AlreadyReverse(s, e))
    ensures Step(s, e).0.forceBrake == if Interlocks(s, e) then ForceBrake(s, e.input.rpmLocal) else s.forceBrake
  {
    if e.Iterated? {
      IterateMovesInterlock(s, e.input);
      hide Iterate;
    }
  }

  ghost predicate NeverZero(s0: State, run: seq<Event>, k: int, n: int)
    requires n <= |run|
  {
    forall j :: 0 <= k < j <= n ==> After(s0, run, j).didIdleOnce != 0
  }

  ghost predicate BrakedAt(s0: State, run: seq<Event>, n: int, k: int)
    requires n <= |run|
  {
    0 <= k < n && Brakes(After(s0, run, k), run[k]) && NeverZero(s0, run, k, n)
  }

  ghost predicate IdledAt(s0: State, run: seq<Event>, n: int, k: int, j: int)
    requires n <= |run|
  {
    k < j < n && BrakedAt(s0, run, n, k) && Idles(After(s0, run, j), run[j])
  }

  ghost predicate ReverseAt(s0: State, run: seq<Event>, n: int, k: int)
    requires n <= |run|
  {
    0 <= k < n && AlreadyReverse(After(s0, run, k), run[k]) && NeverZero(s0, run, k, n)
  }

  // Since did_idle_once was last zero: a brake phase and then an exact idle, or an iteration that was
  // already reversing fast.
  ghost predicate Earned(s0: State, run: seq<Event>, n: int)
    requires n <= |run|
  {
    (exists k, j :: IdledAt(s0, run, n, k, j)) || (exists k :: ReverseAt(s0, run, n, k))
  }

  ghost predicate InterlockInv(s0: State, run: seq<Event>, n: int)
    requires 0 <= n <= |run|
  {
    var did := After(s0, run, n).didIdleOnce;
    && 0 <= did <= 2
    && (did == 1 ==> exists k :: BrakedAt(s0, run, n, k))
    && (did == 2 ==> Earned(s0, run, n))
  }

  lemma Longer(s0: State, run: seq<Event>, n: nat, k: int)
    requires n < |run| && 0 <= k <= n && After(s0, run, n + 1).didIdleOnce != 0
    requires k == n || NeverZero(s0, run, k, n)
    ensures NeverZero(s0, run, k, n + 1)
  {
    forall j | k < j <= n + 1
      ensures After(s0, run, j).didIdleOnce != 0
    {
    }
  }

  lemma InterlockKept(s0: State, run: seq<Event>, n: nat)
    requires n < |run| && InterlockInv(s0, run, n)
    ensures InterlockInv(s0, run, n + 1)
  {
    var s, s1 := After(s0, run, n), After(s0, run, n + 1);
    InterlockStep(s, run[n]);
    hide Step, Brakes, Idles, AlreadyReverse, NeverZero;
    var did := s1.didIdleOnce;
    if did == 1 && Brakes(s, run[n]) {
      Longer(s0, run, n, n);
      assert BrakedAt(s0, run, n + 1, n);
    } else if did == 1 {
      var k :| BrakedAt(s0, run, n, k);
      Longer(s0, run, n, k);
      assert BrakedAt(s0, run, n + 1, k);
    } else if did == 2 && AlreadyReverse(s, run[n]) {
      Longer(s0, run, n, n);
      assert ReverseAt(s0, run, n + 1, n);
    } else if did == 2 && s.didIdleOnce == 1 {
      var k :| BrakedAt(s0, run, n, k);
      Longer(s0, run, n, k);
      assert IdledAt(s0, run, n + 1, k, n);
    } else if did == 2 {
      if k, j :| IdledAt(s0, run, n, k, j) {
        Longer(s0, run, n, k);
        assert IdledAt(s0, run, n + 1, k, j);
      } else {
        var k :| ReverseAt(s0, run, n, k);
        Longer(s0, run, n, k);
        assert ReverseAt(s0, run, n + 1, k);
      }
    }
  }

  lemma {:induction false} InterlockHolds(s0: State, run: seq<Event>, n: nat)
    requires s0.didIdleOnce == 0 && n <= |run|
    ensures InterlockInv(s0, run, n)
  {
    if n > 0 {
      InterlockHolds(s0, run, n - 1);
      InterlockKept(s0, run, n - 1);
    }
  }

  lemma TimesNotNegative(a: real, b: real)
    requires 0.0 <= a && 0.0 <= b
    ensures 0.0 <= Times(a, b)
  {
  }

  // An input that is not negative never accelerates in reverse.
  lemma ForwardInputIsNotReverse(s: State, i: Input)
    requires Processed(s, i) && s.config.ctrlType.CurrentBrakeRevHyst?
    requires 0.0 <= i.servo && 0.0 <= i.loCurrentMax && 0.0 <= i.ccMinCurrent
    requires Iterate(s, i).1.SetCurrent?
    ensures 0.0 <= Iterate(s, i).1.current
  {
    TimesNotNegative(i.servo, i.loCurrentMax);
    TimesNotNegative(i.servo, Abs(i.loCurrentMin));
    var v := Switch(AfterFault(s, i), i).1;
    assert 0.0 <= v.current && v.cmd == Silence;
    ForwardCurrent(s.config, i, v.current);
    ForwardCurrent(s.config, i, 0.0);
    hide Switch, LocalCurrent;
  }

  lemma ForwardCurrent(c: Config, i: Input, current: real)
    requires 0.0 <= current && 0.0 <= i.ccMinCurrent
    ensures 0.0 <= LocalCurrent(c, i, current)
  {
    hide Map;
  }

  // Reverse interlock: the motor is accelerated in reverse only while braking is not forced, and, above
  // the reverse speed, only if that was earned. The limits are those of any sensible configuration; with
  // others the same holds of negative inputs.
  lemma {:induction false} ReverseIsEarned(s0: State, run: seq<Event>, n: nat)
    requires s0.didIdleOnce == 0 && n < |run| && Interlocks(After(s0, run, n), run[n])
    requires var i := run[n].input; i.servo < 0.0 || (0.0 <= i.loCurrentMax && 0.0 <= i.ccMinCurrent)
    requires var cmd := Step(After(s0, run, n), run[n]).1; cmd.SetCurrent? && cmd.current < 0.0
    ensures run[n].input.servo < 0.0
    ensures !After(s0, run, n + 1).forceBrake
    ensures run[n].input.rpmLocal > -After(s0, run, n).config.maxErpmForDir ==> Earned(s0, run, n)
  {
    hide Iterate, Earned, ForceBrake;
    var s := After(s0, run, n);
    InterlockHolds(s0, run, n);
    InterlockStep(s, run[n]);
    if 0.0 <= run[n].input.servo {
      ForwardInputIsNotReverse(s, run[n].input);
    } else {
      ReverseCommand(s, run[n].input);
    }
  }

  lemma ReverseCommand(s: State, i: Input)
    requires Processed(s, i) && s.config.ctrlType.CurrentBrakeRevHyst? && i.servo < 0.0 && 0 <= s.didIdleOnce <= 2
    requires Iterate(s, i).1.SetCurrent?
    ensures !ForceBrake(s, i.rpmLocal)
    ensures i.rpmLocal > -s.config.maxErpmForDir ==> s.didIdleOnce == 2
  {
    SwitchMovesInterlock(AfterFault(s, i), i);
    assert Switch(AfterFault(s, i), i).1.cmd == Silence;
    hide Switch, LocalCurrent;
  }

  // ---- Forced braking ----

  // An iteration of the hysteresis type that gets as far as the switch.
  predicate Controls(s: State, e: Event) {
    && e.Iterated? && !e.input.outputDisabled && !e.input.timedOut && s.config.ctrlType == CurrentBrakeRevHyst
  }

  // A negative input never yields anything but braking above the speed up to which the direction may
  // change plus its hysteresis.
  lemma ReverseIsSlow(s: State, e: Event)
    requires Controls(s, e) && e.input.servo < 0.0 && 0.0 <= s.directionHyst
    requires Step(s, e).1.SetCurrent?
    ensures e.input.rpmLocal <= s.config.maxErpmForDir + s.directionHyst
  {
    SwitchMovesInterlock(AfterFault(s, e.input), e.input);
    hide Switch, LocalCurrent;
  }

  lemma {:induction false} HysteresisIsConfigured(c: Config, run: seq<Event>, n: nat)
    requires n <= |run|
    ensures var s := After(Initial(c), run, n);
            s.directionHyst == 0.0 || s.directionHyst == s.config.maxErpmForDir * 0.2
  {
    if n > 0 {
      HysteresisIsConfigured(c, run, n - 1);
      var s, e := After(Initial(c), run, n - 1), run[n - 1];
      if e.Iterated? {
        IterateKeepsConfig(s, e.input);
      }
      hide Iterate;
    }
  }

  lemma SwitchKeepsConfig(s: State, i: Input)
    requires !s.config.ctrlType.NoCtrl?
    ensures Switch(s, i).0.config == s.config && Switch(s, i).0.directionHyst == s.directionHyst
  {
    hide Times, Map, Abs, ForceBrake, DidIdle, HystBrakes, Angle, OneWayCurrent, Position;
  }

  lemma DriveKeepsConfig(s: State, i: Input, v: Verdict)
    ensures Drive(s, i, v).0.config == s.config && Drive(s, i, v).0.directionHyst == s.directionHyst
  {
    hide Times, LocalCurrent, StepTowards, Abs;
  }

  lemma IterateKeepsConfig(s: State, i: Input)
    ensures Iterate(s, i).0.config == s.config && Iterate(s, i).0.directionHyst == s.directionHyst
  {
    hide Switch, Drive;
    if Processed(s, i) {
      var s0 := AfterFault(s, i);
      SwitchKeepsConfig(s0, i);
      var (s1, v) := Switch(s0, i);
      DriveKeepsConfig(CheckSafeStart(s1), i, if Engaged(s1) then v.(current := 0.0) else v);
    }
  }

  // In every run of the firmware that bound is 1.2 times the configured speed.
  lemma {:induction false} ReverseIsSlowInRuns(c: Config, run: seq<Event>, n: nat)
    requires n < |run| && Controls(After(Initial(c), run, n), run[n]) && run[n].input.servo < 0.0
    requires var max := After(Initial(c), run, n).config.maxErpmForDir; 0.0 <= max < run[n].input.rpmLocal / 1.2
    ensures !Step(After(Initial(c), run, n), run[n]).1.SetCurrent?
  {
    hide Step;
    HysteresisIsConfigured(c, run, n);
    if Step(After(Initial(c), run, n), run[n]).1.SetCurrent? {
      ReverseIsSlow(After(Initial(c), run, n), run[n]);
    }
  }

  // No iteration from m + 1 up to n is below the speed less the hysteresis.
  ghost predicate StaysFast(s0: State, run: seq<Event>, m: nat, n: nat)
    requires m <= n < |run|
  {
    forall k :: m < k <= n && Controls(After(s0, run, k), run[k]) ==>
      run[k].input.rpmLocal >= After(s0, run, k).config.maxErpmForDir - After(s0, run, k).directionHyst
  }

  // Once an iteration was above the speed plus the hysteresis, a negative input brakes until an iteration
  // is below the speed less the hysteresis.
  lemma {:induction false} ForcedBrakeLasts(s0: State, run: seq<Event>, m: nat, n: nat)
    requires m <= n < |run| && StaysFast(s0, run, m, n)
    requires var s := After(s0, run, m);
             && Controls(s, run[m]) && 0.0 <= s.directionHyst
             && run[m].input.rpmLocal > s.config.maxErpmForDir + s.directionHyst
    ensures After(s0, run, n + 1).forceBrake
    ensures Controls(After(s0, run, n), run[n]) && run[n].input.servo < 0.0 ==>
              !Step(After(s0, run, n), run[n]).1.SetCurrent?
    decreases n
  {
    hide Iterate;
    if m < n {
      ForcedBrakeLasts(s0, run, m, n - 1);
    }
    ForcedStep(After(s0, run, n), run[n]);
  }

  lemma ForcedStep(s: State, e: Event)
    requires Controls(s, e) ==>
               if s.forceBrake then e.input.rpmLocal >= s.config.maxErpmForDir - s.directionHyst
               else e.input.rpmLocal > s.config.maxErpmForDir + s.directionHyst
    requires !Controls(s, e) ==> s.forceBrake
    ensures Step(s, e).0.forceBrake
    ensures Controls(s, e) && e.input.servo < 0.0 ==> !Step(s, e).1.SetCurrent?
  {
    if e.Iterated? {
      IterateMovesInterlock(s, e.input);
      if Controls(s, e) {
        SwitchMovesInterlock(AfterFault(s, e.input), e.input);
      }
    }
    hide Switch, LocalCurrent;
  }
}
