/** The timeout supervisor: time since the last update, the kill switch, both motors' brakes and the
    watchdog (timeout.c:41-48, 86-126, 192-276). */
module Timeout {
  import opened Bytes

  const MAX_THREADS_MONITOR := 10
  const THREAD_MCPWM := 0
  const THREAD_CANBUS := 1

  datatype KillSwMode = Disabled | PpmLow | PpmHigh | Adc2Low | Adc2High

  datatype State = State(
    timeoutMsec: word32, lastUpdateTime: word32, brakeCurrent: real, killSwMode: KillSwMode,
    hasTimeout: bool, killSwActive: bool, killSwExtSet: bool, feedCounter: seq<word32>)
  {
    predicate Valid() { |feedCounter| == MAX_THREADS_MONITOR }
  }

  // What a tick of the thread reads: the clock, the servo pin and the second ADC input.
  datatype Input = Input(now: word32, pin: bool, adc2: real)

  datatype Command =
    | ReleaseOverride | Unlock | SelectMotor(m: int) | SetBrakeCurrent(current: real) | IgnoreInput(ms: int)

  function Zeros(): seq<word32> { [0, 0, 0, 0, 0, 0, 0, 0, 0, 0] }

  // ++ on a 32-bit counter
  function Inc(w: word32): word32 {
    var v: int := w;
    (v + 1) % WRAP
  }

  // MS2ST at 10 kHz, in 32-bit arithmetic.
  function Ms2st(msec: word32): word32 { (msec * 10000 % WRAP + 999) % WRAP / 1000 }

  // chVTTimeElapsedSinceX
  function Elapsed(now: word32, start: word32): word32 { (now - start) % WRAP }

  predicate KillSw(s: State, i: Input) {
    || s.killSwExtSet
    || match s.killSwMode
       case PpmLow => !i.pin
       case PpmHigh => i.pin
       case Adc2Low => i.adc2 < 1.65
       case Adc2High => i.adc2 > 1.65
       case Disabled => false
  }

  predicate TimedOut(s: State, i: Input) {
    s.timeoutMsec != 0 && Elapsed(i.now, s.lastUpdateTime) > Ms2st(s.timeoutMsec)
  }

  predicate Trips(s: State, i: Input) { KillSw(s, i) || TimedOut(s, i) }

  datatype TickResult = TickResult(state: State, commands: seq<Command>, fedWatchdog: bool)

  function Tick(s: State, i: Input): (r: TickResult)
    requires s.Valid()
    ensures r.state.Valid()
  {
    var kill := KillSw(s, i);
    TickResult(
      s.(hasTimeout := if !Trips(s, i) then false else if kill then s.hasTimeout else true,
         killSwActive := kill,
         feedCounter := Zeros()),
      if Trips(s, i) then
        (if !s.hasTimeout && !s.killSwActive then [ReleaseOverride] else [])
        + [Unlock, SelectMotor(1), SetBrakeCurrent(s.brakeCurrent), SelectMotor(2), SetBrakeCurrent(s.brakeCurrent)]
        + (if kill then [IgnoreInput(20)] else [])
      else [],
      1 <= s.feedCounter[THREAD_MCPWM] && 1 <= s.feedCounter[THREAD_CANBUS])
  }

  class Supervisor {
    var timeoutMsec: word32
    var lastUpdateTime: word32
    var brakeCurrent: real
    var killSwMode: KillSwMode
    var hasTimeout: bool
    var killSwActive: bool
    var killSwExtSet: bool
    const feedCounter: array<word32>

    ghost predicate Valid() { feedCounter.Length == MAX_THREADS_MONITOR }

    ghost function Value(): (s: State)
      requires Valid()
      reads this, feedCounter
      ensures s.Valid()
    {
      State(timeoutMsec, lastUpdateTime, brakeCurrent, killSwMode,
            hasTimeout, killSwActive, killSwExtSet, feedCounter[..])
    }

    // timeout_init
    constructor ()
      ensures Valid() && fresh(feedCounter) && Value() == Initial()
    {
      timeoutMsec, lastUpdateTime, brakeCurrent, killSwMode := 1000, 0, 0.0, Disabled;
      hasTimeout, killSwActive, killSwExtSet := false, false, false;
      feedCounter := new word32[MAX_THREADS_MONITOR](i => 0);
    }

    method Configure(timeout: word32, current: real, mode: KillSwMode)
      requires Valid()
      modifies this
      ensures Value() == Step(old(Value()), Configured(timeout, current, mode)).state
    {
      timeoutMsec, brakeCurrent, killSwMode := timeout, current, mode;
    }

    method Reset(now: word32)
      requires Valid()
      modifies this
      ensures Value() == Step(old(Value()), WasReset(now)).state
    {
      lastUpdateTime := now;
    }

    method SetKillSwExt(killSet: bool)
      requires Valid()
      modifies this
      ensures Value() == Step(old(Value()), KillSwExt(killSet)).state
    {
      killSwExtSet := killSet;
    }

    method FeedWDT(index: nat)
      requires Valid() && index < MAX_THREADS_MONITOR
      modifies feedCounter
      ensures Value() == Step(old(Value()), Fed(index)).state
    {
      feedCounter[index] := Inc(feedCounter[index]);
    }

    // The state of the kill switch, from the input that the mode names and from the application.
    method ReadKillSw(i: Input) returns (killSw: bool)
      requires Valid()
      ensures killSw == KillSw(Value(), i)
    {
      killSw := false;
      match killSwMode {
        case PpmLow => killSw := !i.pin;
        case PpmHigh => killSw := i.pin;
        case Adc2Low => killSw := i.adc2 < 1.65;
        case Adc2High => killSw := i.adc2 > 1.65;
        case Disabled =>
      }
      if killSwExtSet {
        killSw := true;
      }
    }

    // One pass of timeout_thread.
    method RunTick(i: Input) returns (commands: seq<Command>, fed: bool)
      requires Valid()
      modifies this, feedCounter
      ensures TickResult(Value(), commands, fed) == Tick(old(Value()), i)
    {
      hide Ms2st, Elapsed, KillSw;
      var killSw := ReadKillSw(i);
      commands := [];
      if killSw || (timeoutMsec != 0 && Elapsed(i.now, lastUpdateTime) > Ms2st(timeoutMsec)) {
        if !hasTimeout && !killSwActive {
          commands := [ReleaseOverride];
        }
        commands := commands + [Unlock, SelectMotor(1), SetBrakeCurrent(brakeCurrent),
                                SelectMotor(2), SetBrakeCurrent(brakeCurrent)];
        if killSw {
          commands := commands + [IgnoreInput(20)];
        } else {
          hasTimeout := true;
        }
      } else {
        hasTimeout := false;
      }
      killSwActive := killSw;

      fed := true;
      if feedCounter[THREAD_MCPWM] < 1 {
        fed := false;
      }
      if feedCounter[THREAD_CANBUS] < 1 {
        fed := false;
      }
      ClearFeeds();
    }

    method ClearFeeds()
      requires Valid()
      modifies feedCounter
      ensures feedCounter[..] == Zeros()
    {
      for k := 0 to MAX_THREADS_MONITOR
        invariant forall j :: 0 <= j < k ==> feedCounter[j] == 0
      {
        feedCounter[k] := 0;
      }
    }
  }

  function Initial(): State { State(1000, 0, 0.0, Disabled, false, false, false, Zeros()) }

  // ---- Whole runs ----

  datatype Event =
    | Ticked(input: Input) | WasReset(now: word32) | Fed(index: nat)
    | Configured(timeout: word32, current: real, mode: KillSwMode) | KillSwExt(killSet: bool)

  function Step(s: State, e: Event): (r: TickResult)
    requires s.Valid()
    ensures r.state.Valid()
  {
    match e
    case Ticked(i) => Tick(s, i)
    case WasReset(now) => TickResult(s.(lastUpdateTime := now), [], false)
    case Fed(k) =>
      var counted :=
        if k < MAX_THREADS_MONITOR then s.(feedCounter := s.feedCounter[k := Inc(s.feedCounter[k])]) else s;
      TickResult(counted, [], false)
    case Configured(t, c, m) => TickResult(s.(timeoutMsec := t, brakeCurrent := c, killSwMode := m), [], false)
    case KillSwExt(b) => TickResult(s.(killSwExtSet := b), [], false)
  }

  function After(run: seq<Event>, n: nat): (s: State)
    requires n <= |run|
    ensures s.Valid()
  {
    if n == 0 then Initial() else Step(After(run, n - 1), run[n - 1]).state
  }

  // Did the last tick before event n trip?
  function LastTripped(run: seq<Event>, n: nat): bool
    requires n <= |run|
  {
    if n == 0 then false
    else if run[n - 1].Ticked? then Trips(After(run, n - 1), run[n - 1].input)
    else LastTripped(run, n - 1)
  }

  // The two flags together say whether the last tick tripped.
  lemma {:induction false} FlagsTellLastTick(run: seq<Event>, n: nat)
    requires n <= |run|
    ensures After(run, n).hasTimeout || After(run, n).killSwActive <==> LastTripped(run, n)
  {
    if n > 0 {
      FlagsTellLastTick(run, n - 1);
      hide KillSw, TimedOut;
    }
  }

  // The brake current each motor ends up with.
  function Brakes(commands: seq<Command>, selected: int, brakes: map<int, real>): map<int, real>
    decreases |commands|
  {
    if commands == [] then brakes
    else match commands[0]
      case SelectMotor(m) => Brakes(commands[1..], m, brakes)
      case SetBrakeCurrent(x) => Brakes(commands[1..], selected, brakes[selected := x])
      case _ => Brakes(commands[1..], selected, brakes)
  }

  lemma BrakesCons(c: Command, rest: seq<Command>, selected: int, brakes: map<int, real>)
    ensures Brakes([c] + rest, selected, brakes)
         == match c
            case SelectMotor(m) => Brakes(rest, m, brakes)
            case SetBrakeCurrent(x) => Brakes(rest, selected, brakes[selected := x])
            case _ => Brakes(rest, selected, brakes)
  {
    assert ([c] + rest)[1..] == rest;
  }

  lemma {:induction false} TripBrakesBoth(s: State, i: Input)
    requires s.Valid() && Trips(s, i)
    ensures Brakes(Tick(s, i).commands, 0, map[]) == map[1 := s.brakeCurrent, 2 := s.brakeCurrent]
  {
    var x := s.brakeCurrent;
    var tail := if KillSw(s, i) then [IgnoreInput(20)] else [];
    var a4 := [SetBrakeCurrent(x)] + tail;
    var a3 := [SelectMotor(2)] + a4;
    var a2 := [SetBrakeCurrent(x)] + a3;
    var a1 := [SelectMotor(1)] + a2;
    var body := [Unlock] + a1;
    assert Tick(s, i).commands == if !s.hasTimeout && !s.killSwActive then [ReleaseOverride] + body else body;
    hide Tick, KillSw, TimedOut, Trips;
    assert Brakes(tail, 2, map[1 := x, 2 := x]) == map[1 := x, 2 := x];
    hide Brakes;
    BrakesCons(ReleaseOverride, body, 0, map[]);
    BrakesCons(Unlock, a1, 0, map[]);
    BrakesCons(SelectMotor(1), a2, 0, map[]);
    BrakesCons(SetBrakeCurrent(x), a3, 1, map[]);
    BrakesCons(SelectMotor(2), a4, 1, map[1 := x]);
    BrakesCons(SetBrakeCurrent(x), tail, 2, map[1 := x]);
  }

  // Over every run the motors are released by override exactly when a tick trips and the one before
  // did not, and every tick that trips brakes both motors, and no other tick commands anything.
  lemma {:induction false} ReleasesOnRisingEdge(run: seq<Event>, n: nat)
    requires n < |run| && run[n].Ticked?
    ensures var s, out := After(run, n), Step(After(run, n), run[n]).commands;
            && (ReleaseOverride in out <==> Trips(s, run[n].input) && !LastTripped(run, n))
            && (Trips(s, run[n].input) ==> Brakes(out, 0, map[]) == map[1 := s.brakeCurrent, 2 := s.brakeCurrent])
            && (!Trips(s, run[n].input) ==> out == [])
  {
    var s, i := After(run, n), run[n].input;
    FlagsTellLastTick(run, n);
    if Trips(s, i) {
      TripBrakesBoth(s, i);
      if !s.hasTimeout && !s.killSwActive {
        assert Tick(s, i).commands[0] == ReleaseOverride;
      }
    }
    hide KillSw, TimedOut, Brakes;
  }

  // How often a thread has reported since the last tick.
  function Reports(run: seq<Event>, n: nat, thread: nat): nat
    requires n <= |run|
  {
    if n == 0 || run[n - 1].Ticked? then 0
    else Reports(run, n - 1, thread) + if run[n - 1] == Fed(thread) then 1 else 0
  }

  lemma CounterStep(s: State, e: Event, thread: nat)
    requires s.Valid() && thread < MAX_THREADS_MONITOR
    ensures Step(s, e).state.feedCounter[thread]
         == if e.Ticked? then 0 else if e == Fed(thread) then Inc(s.feedCounter[thread]) else s.feedCounter[thread]
  {
    hide KillSw, TimedOut;
  }

  lemma {:induction false} CountersCountReports(run: seq<Event>, n: nat, thread: nat)
    requires n <= |run| && thread < MAX_THREADS_MONITOR
    ensures After(run, n).feedCounter[thread] == Reports(run, n, thread) % WRAP
  {
    hide Step, Inc;
    if n > 0 {
      CountersCountReports(run, n - 1, thread);
      CounterStep(After(run, n - 1), run[n - 1], thread);
      IncCounts(Reports(run, n - 1, thread));
    }
  }

  lemma IncCounts(n: nat)
    ensures Inc(n % WRAP) == (n + 1) % WRAP
  {
  }

  // The watchdog is fed iff both the motor control and the CAN thread have reported since the last
  // tick, up to the wrap of the 32-bit counters.
  lemma {:induction false} WatchdogFedIff(run: seq<Event>, n: nat)
    requires n < |run| && run[n].Ticked?
    ensures Step(After(run, n), run[n]).fedWatchdog <==>
              && Reports(run, n, THREAD_MCPWM) % WRAP != 0
              && Reports(run, n, THREAD_CANBUS) % WRAP != 0
  {
    CountersCountReports(run, n, THREAD_MCPWM);
    CountersCountReports(run, n, THREAD_CANBUS);
    hide KillSw, TimedOut;
  }

  // ---- Real time ----

  // The readings of the 32-bit clock when event k happens at the unbounded time time(k).
  ghost predicate Clocked(run: seq<Event>, time: nat -> nat) {
    forall k :: 0 <= k < |run| ==>
      && (run[k].Ticked? ==> run[k].input.now == time(k) % WRAP)
      && (run[k].WasReset? ==> run[k].now == time(k) % WRAP)
  }

  function LastReset(run: seq<Event>, time: nat -> nat, n: nat): nat
    requires n <= |run|
  {
    if n == 0 then 0 else if run[n - 1].WasReset? then time(n - 1) else LastReset(run, time, n - 1)
  }

  lemma {:induction false} LastUpdateIsLastReset(run: seq<Event>, time: nat -> nat, n: nat)
    requires Clocked(run, time) && n <= |run|
    ensures After(run, n).lastUpdateTime == LastReset(run, time, n) % WRAP
  {
    if n > 0 {
      hide KillSw, TimedOut, Trips;
      LastUpdateIsLastReset(run, time, n - 1);
    }
  }

  lemma ElapsedWraps(t: nat, r: nat)
    ensures Elapsed(t % WRAP, r % WRAP) == (t - r) % WRAP
  {
    var q := t / WRAP - r / WRAP;
    var d := t % WRAP - r % WRAP;
    assert t - r == q * WRAP + d;
  }

  // Over every run: a tick times out iff the time since the last reset, modulo the wrap of the clock, is
  // more than the configured one. Before the clock has wrapped this is the time itself.
  lemma {:induction false} TimesOutIff(run: seq<Event>, time: nat -> nat, n: nat)
    requires Clocked(run, time) && n < |run| && run[n].Ticked?
    ensures var s, since := After(run, n), time(n) - LastReset(run, time, n);
            && (TimedOut(s, run[n].input) <==> s.timeoutMsec != 0 && since % WRAP > Ms2st(s.timeoutMsec))
            && (0 <= since < WRAP ==>
                  (TimedOut(s, run[n].input) <==> s.timeoutMsec != 0 && since > Ms2st(s.timeoutMsec)))
  {
    LastUpdateIsLastReset(run, time, n);
    ElapsedWraps(time(n), LastReset(run, time, n));
    hide Ms2st, Elapsed, After;
  }

  // So a timeout does not last: without any reset, a tick a multiple of 2 to the 32 after the last one
  // brakes nothing and clears the timeout.
  lemma {:induction false} TimeoutEndsAtWrap(run: seq<Event>, time: nat -> nat, n: nat, wraps: nat)
    requires Clocked(run, time) && n < |run| && run[n].Ticked? && !KillSw(After(run, n), run[n].input)
    requires time(n) == LastReset(run, time, n) + wraps * WRAP
    ensures var r := Step(After(run, n), run[n]); r.commands == [] && !r.state.hasTimeout
  {
    TimesOutIff(run, time, n);
    WholeWraps(wraps);
    hide Ms2st, Elapsed, After, KillSw, TimedOut, Clocked, LastReset;
  }

  lemma WholeWraps(n: nat)
    ensures n * WRAP % WRAP == 0
  {
  }

  // A timeout is as long as configured iff its conversion to ticks does not wrap.
  lemma TimeoutExactIff(msec: word32)
    ensures Ms2st(msec) == 10 * msec <==> msec <= 429496
  {
    if msec <= 429496 {
      assert msec * 10000 % WRAP == msec * 10000;
    }
  }

  // ---- What a tick commands, told from the events alone ----

  datatype Settings = Settings(msec: word32, current: real, mode: KillSwMode)

  // The last configuration, and at first one second, no current and no pin.
  function InForce(run: seq<Event>, n: nat): Settings
    requires n <= |run|
  {
    if n == 0 then Settings(1000, 0.0, Disabled)
    else match run[n - 1]
      case Configured(t, c, m) => Settings(t, c, m)
      case _ => InForce(run, n - 1)
  }

  // What the application said last about its kill switch.
  predicate ExtInForce(run: seq<Event>, n: nat)
    requires n <= |run|
  {
    n > 0 && if run[n - 1].KillSwExt? then run[n - 1].killSet else ExtInForce(run, n - 1)
  }

  // The kill switch is on at a tick: the application says so, or the level the mode names is on its input.
  predicate Killed(run: seq<Event>, n: nat)
    requires n < |run| && run[n].Ticked?
  {
    var mode, i := InForce(run, n).mode, run[n].input;
    || ExtInForce(run, n)
    || (mode == PpmLow && !i.pin) || (mode == PpmHigh && i.pin)
    || (mode == Adc2Low && i.adc2 < 1.65) || (mode == Adc2High && 1.65 < i.adc2)
  }

  // The time since the last reset, modulo the wrap of the clock, is over the limit. A limit of 0 is none.
  predicate Late(run: seq<Event>, time: nat -> nat, n: nat)
    requires n < |run|
  {
    var msec: int := InForce(run, n).msec;
    var limit := if msec <= 429496 then 10 * msec else (msec * 10000 % 0x1_0000_0000 + 999) % 0x1_0000_0000 / 1000;
    msec != 0 && limit < (time(n) - LastReset(run, time, n)) % 0x1_0000_0000
  }

  // The tick before event n was one of these.
  predicate TrippedBefore(run: seq<Event>, time: nat -> nat, n: nat)
    requires n <= |run|
  {
    && n > 0
    && if run[n - 1].Ticked? then Killed(run, n - 1) || Late(run, time, n - 1) else TrippedBefore(run, time, n - 1)
  }

  lemma {:induction false} SettingsAreInForce(run: seq<Event>, n: nat)
    requires n <= |run|
    ensures var s := After(run, n);
            && InForce(run, n) == Settings(s.timeoutMsec, s.brakeCurrent, s.killSwMode)
            && (ExtInForce(run, n) <==> s.killSwExtSet)
  {
    if n > 0 {
      hide Step;
      SettingsAreInForce(run, n - 1);
      SettingsStep(After(run, n - 1), run[n - 1]);
    }
  }

  lemma SettingsStep(s: State, e: Event)
    requires s.Valid()
    ensures var s1 := Step(s, e).state;
            && Settings(s1.timeoutMsec, s1.brakeCurrent, s1.killSwMode)
               == (if e.Configured? then Settings(e.timeout, e.current, e.mode)
                   else Settings(s.timeoutMsec, s.brakeCurrent, s.killSwMode))
            && s1.killSwExtSet == if e.KillSwExt? then e.killSet else s.killSwExtSet
  {
    hide KillSw, TimedOut, Trips;
  }

  lemma KilledIsKillSw(run: seq<Event>, n: nat)
    requires n < |run| && run[n].Ticked?
    ensures Killed(run, n) <==> KillSw(After(run, n), run[n].input)
  {
    SettingsAreInForce(run, n);
    hide After, InForce, ExtInForce;
  }

  lemma LateIsTimedOut(run: seq<Event>, time: nat -> nat, n: nat)
    requires Clocked(run, time) && n < |run| && run[n].Ticked?
    ensures Late(run, time, n) <==> TimedOut(After(run, n), run[n].input)
  {
    hide Ms2st, After, InForce, Elapsed;
    SettingsAreInForce(run, n);
    TimesOutIff(run, time, n);
    LimitIsMs2st(InForce(run, n).msec);
  }

  lemma LimitIsMs2st(msec: word32)
    ensures var m: int := msec;
            Ms2st(msec) == if m <= 429496 then 10 * m else (m * 10000 % 0x1_0000_0000 + 999) % 0x1_0000_0000 / 1000
  {
    TimeoutExactIff(msec);
  }

  lemma {:induction false} TrippedBeforeIsLastTripped(run: seq<Event>, time: nat -> nat, n: nat)
    requires Clocked(run, time) && n <= |run|
    ensures TrippedBefore(run, time, n) <==> LastTripped(run, n)
  {
    hide Killed, Late, KillSw, TimedOut, After, Clocked;
    if n > 0 {
      if run[n - 1].Ticked? {
        KilledIsKillSw(run, n - 1);
        LateIsTimedOut(run, time, n - 1);
      } else {
        TrippedBeforeIsLastTripped(run, time, n - 1);
      }
    }
  }

  // What every tick of every run commands, from the events before it: nothing, unless the kill switch is on
  // or the limit is over; then both motors brake with the current in force, after a release if the tick
  // before was not one of these, and with the input ignored for 20 ms if it is the kill switch.
  lemma {:induction false} CommandsTellHistory(run: seq<Event>, time: nat -> nat, n: nat)
    requires Clocked(run, time) && n < |run| && run[n].Ticked?
    ensures var current := InForce(run, n).current;
            Step(After(run, n), run[n]).commands
            == if Killed(run, n) || Late(run, time, n) then
                 (if TrippedBefore(run, time, n) then [] else [ReleaseOverride])
                 + [Unlock, SelectMotor(1), SetBrakeCurrent(current), SelectMotor(2), SetBrakeCurrent(current)]
                 + (if Killed(run, n) then [IgnoreInput(20)] else [])
               else []
  {
    hide KillSw, TimedOut, Killed, Late, Clocked, After, InForce, LastTripped, TrippedBefore;
    KilledIsKillSw(run, n);
    LateIsTimedOut(run, time, n);
    SettingsAreInForce(run, n);
    FlagsTellLastTick(run, n);
    TrippedBeforeIsLastTripped(run, time, n);
  }
}
