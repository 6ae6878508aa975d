/** Trackers and limiter together: once the trackers have converged, no BMS of the fleet is asked for
    more than it would allow by itself (bms.c:147-188, 360-471). */
module BmsFleet {
  import opened Bytes
  import opened Reals
  import opened BmsTrackers
  import opened BmsLimits

  // The units of the frame: millivolts, 1/255 of full charge, degrees.
  function Volts(mv: int): real { mv as real / 1000.0 }

  function Charge(soc: int): real { soc as real / 255.0 }

  // What the limiter sees of the four trackers it uses after disable_on_timeout.
  function Seen(t: Stat, value: real): Option<real> { if 0 <= t.id then Some(value) else None }

  function TrackedInputs(tempMax: Stat, socMin: Stat, vcellMin: Stat, vcellMax: Stat): Inputs {
    Inputs(Seen(tempMax, tempMax.reading.tCellMax as real), Seen(socMin, Charge(socMin.reading.soc)),
           Seen(vcellMin, Volts(vcellMin.reading.vCellMin)), Seen(vcellMax, Volts(vcellMax.reading.vCellMax)))
  }

  // The inputs if a single BMS were on the bus.
  function OwnInputs(r: Reading): Inputs {
    Inputs(Some(r.tCellMax as real), Some(Charge(r.soc)), Some(Volts(r.vCellMin)), Some(Volts(r.vCellMax)))
  }

  lemma TrackedIsWorse(r: Reading, tempMax: Stat, socMin: Stat, vcellMin: Stat, vcellMax: Stat)
    requires 0 <= tempMax.id && 0 <= socMin.id && 0 <= vcellMin.id && 0 <= vcellMax.id
    requires Score(TempMax, r) <= Score(TempMax, tempMax.reading) && Score(SocMin, r) <= Score(SocMin, socMin.reading)
    requires Score(VCellMin, r) <= Score(VCellMin, vcellMin.reading)
    requires Score(VCellMax, r) <= Score(VCellMax, vcellMax.reading)
    ensures var a, b := OwnInputs(r), TrackedInputs(tempMax, socMin, vcellMin, vcellMax);
            && Worse(a.temp, b.temp) && Worse(a.vmax, b.vmax)
            && Worse(Negated(a.soc), Negated(b.soc)) && Worse(Negated(a.vmin), Negated(b.vmin))
  {
  }

  predicate Known(fleet: Fleet, t: Stat) { t.id < 0 || t.id in fleet }

  // After two rounds of a punctual fleet, each limit is at most what any member's own reading allows.
  lemma {:induction false} FleetIsProtected(
      tempMax: Stat, socMin: Stat, vcellMin: Stat, vcellMax: Stat,
      fleet: Fleet, run: seq<Event>, n1: nat, n2: nat, n: nat,
      c: LimitConfig, iInMin: real, iInMax: real, confMin: real, confMax: real, id: int)
    requires FromFleet(fleet, run) && Punctual(run) && id in fleet
    requires Known(fleet, tempMax) && Known(fleet, socMin) && Known(fleet, vcellMin) && Known(fleet, vcellMax)
    requires n1 <= n2 <= n <= |run| && Round(fleet, run, 0, n1) && Round(fleet, run, n1, n2)
    ensures var tracked := TrackedInputs(After(TempMax, tempMax, fleet, run, n), After(SocMin, socMin, fleet, run, n),
                                         After(VCellMin, vcellMin, fleet, run, n),
                                         After(VCellMax, vcellMax, fleet, run, n));
            var own := OwnInputs(fleet[id]);
            && Abs(NewMax(c, tracked, iInMax, confMin, confMax)) <= Abs(NewMax(c, own, iInMax, confMin, confMax))
            && Abs(NewMin(c, tracked, iInMin, confMin, confMax)) <= Abs(NewMin(c, own, iInMin, confMin, confMax))
  {
    hide FromFleet, Punctual, Round, After, NewMax, NewMin;
    TrackersConverge(TempMax, tempMax, fleet, run, n1, n2, n);
    TrackersConverge(SocMin, socMin, fleet, run, n1, n2, n);
    TrackersConverge(VCellMin, vcellMin, fleet, run, n1, n2, n);
    TrackersConverge(VCellMax, vcellMax, fleet, run, n1, n2, n);
    var t, s, v, w := After(TempMax, tempMax, fleet, run, n), After(SocMin, socMin, fleet, run, n),
                      After(VCellMin, vcellMin, fleet, run, n), After(VCellMax, vcellMax, fleet, run, n);
    TrackedIsWorse(fleet[id], t, s, v, w);
    LimitsAreMonotone(c, OwnInputs(fleet[id]), TrackedInputs(t, s, v, w), iInMin, iInMax, confMin, confMax);
  }

  // So one BMS beyond an enabled limit stops the current of the whole fleet: a cell too hot in both
  // directions, a charge or a cell voltage too low out of the battery, a cell voltage too high into it.
  lemma {:induction false} OneStopsTheFleet(
      tempMax: Stat, socMin: Stat, vcellMin: Stat, vcellMax: Stat,
      fleet: Fleet, run: seq<Event>, n1: nat, n2: nat, n: nat,
      c: LimitConfig, iInMin: real, iInMax: real, confMin: real, confMax: real, id: int)
    requires FromFleet(fleet, run) && Punctual(run) && id in fleet
    requires Known(fleet, tempMax) && Known(fleet, socMin) && Known(fleet, vcellMin) && Known(fleet, vcellMax)
    requires n1 <= n2 <= n <= |run| && Round(fleet, run, 0, n1) && Round(fleet, run, n1, n2)
    ensures var tracked := TrackedInputs(After(TempMax, tempMax, fleet, run, n), After(SocMin, socMin, fleet, run, n),
                                         After(VCellMin, vcellMin, fleet, run, n),
                                         After(VCellMax, vcellMax, fleet, run, n));
            var max, min := NewMax(c, tracked, iInMax, confMin, confMax), NewMin(c, tracked, iInMin, confMin, confMax);
            var temp, soc, low, high := fleet[id].tCellMax as real, fleet[id].soc as real / 255.0,
                                        fleet[id].vCellMin as real / 1000.0, fleet[id].vCellMax as real / 1000.0;
            && (c.limitMode % 2 == 1 && c.tStart + 0.1 <= temp && c.tEnd - 0.1 < temp ==> max == min == 0.0)
            && (c.limitMode / 2 % 2 == 1 && soc <= c.socStart - 0.001 && soc < c.socEnd + 0.001 ==> max == 0.0)
            && (c.limitMode / 4 % 2 == 1 && low <= c.vminStart - 0.001 && low < c.vminEnd + 0.001 ==> max == 0.0)
            && (c.limitMode / 8 % 2 == 1 && c.vmaxStart + 0.001 <= high && c.vmaxEnd - 0.001 < high ==> min == 0.0)
  {
    hide FromFleet, Punctual, Round, After, NewMax, NewMin, Abs;
    FleetIsProtected(tempMax, socMin, vcellMin, vcellMax, fleet, run, n1, n2, n, c, iInMin, iInMax, confMin, confMax,
                     id);
    CutOffs(c, OwnInputs(fleet[id]), iInMin, iInMax, confMin, confMax);
    ZeroMagnitude();
  }

  // And a fleet that has been silent for more than two seconds limits nothing.
  lemma {:induction false} SilentFleetDoesNotLimit(
      tempMax: Stat, socMin: Stat, vcellMin: Stat, vcellMax: Stat, now: nat,
      c: LimitConfig, iInMin: real, iInMax: real, confMin: real, confMax: real)
    requires now - tempMax.rxTime > 20000 && now - socMin.rxTime > 20000
    requires now - vcellMin.rxTime > 20000 && now - vcellMax.rxTime > 20000
    ensures var tracked := TrackedInputs(Disable(tempMax, now), Disable(socMin, now),
                                         Disable(vcellMin, now), Disable(vcellMax, now));
            && NewMax(c, tracked, iInMax, confMin, confMax) == (if Abs(iInMax) <= Abs(confMax) then iInMax else confMax)
            && NewMin(c, tracked, iInMin, confMin, confMax) == (if Abs(iInMin) <= Abs(confMin) then iInMin else confMin)
  {
    hide NewMax, NewMin;
    NoLimit(c, Inputs(None, None, None, None), iInMin, iInMax, confMin, confMax);
  }

  lemma ZeroMagnitude()
    ensures Abs(0.0) == 0.0
    ensures forall x :: Abs(x) <= 0.0 ==> x == 0.0
  {
  }
}
