/** The limiting values over several BMSs on one bus: five trackers that keep the worst report and
    drop it when its sender has been silent for more than two seconds (bms.c:114-189, 354-369). */
module BmsTrackers {
  import opened BmsClock
  import opened Bytes

  // What a BMS reports about itself, as the scaled integers of the frame.
  datatype Reading = Reading(vCellMin: int, vCellMax: int, soc: int, tCellMax: int)

  datatype Stat = Stat(id: int, rxTime: nat, reading: Reading)

  datatype Kind = TempMax | SocMin | SocMax | VCellMin | VCellMax

  // The greater the score, the more limiting the report.
  function Score(kind: Kind, r: Reading): int {
    match kind
    case TempMax => r.tCellMax
    case SocMin => -r.soc
    case SocMax => r.soc
    case VCellMin => -r.vCellMin
    case VCellMax => r.vCellMax
  }

  predicate Expired(t: Stat, now: nat) { Stale(t.rxTime, now) }

  function Track(kind: Kind, t: Stat, msg: Stat, now: nat): Stat {
    if t.id < 0 || Expired(t, now) || Score(kind, t.reading) < Score(kind, msg.reading) then msg
    else if t.id == msg.id then msg
    else t
  }

  function Disable(t: Stat, now: nat): Stat { if Expired(t, now) then t.(id := -1) else t }

  class BmsStats {
    var statTempMax: Stat
    var statSocMin: Stat
    var statSocMax: Stat
    var statVcellMin: Stat
    var statVcellMax: Stat

    constructor ()
      ensures statTempMax.id == statSocMin.id == statSocMax.id == statVcellMin.id == statVcellMax.id == -1
    {
      var none := Stat(-1, 0, Reading(0, 0, 0, 0));
      statTempMax, statSocMin, statSocMax, statVcellMin, statVcellMax := none, none, none, none, none;
    }

    // The decision each of the five trackers takes about a message.
    method Keep(stat: Stat, msg: Stat, now: nat, moreLimiting: bool) returns (res: Stat)
      ensures res == if stat.id < 0 || Expired(stat, now) || moreLimiting || stat.id == msg.id then msg else stat
    {
      res := stat;
      if stat.id < 0 || now - stat.rxTime > MAX_AGE || moreLimiting {
        res := msg;
      } else if stat.id == msg.id {
        res := msg;
      }
    }

    // CAN_PACKET_BMS_SOC_SOH_TEMP_STAT
    method ProcessStat(id: byte, reading: Reading, now: nat)
      modifies this
      ensures statTempMax == Track(TempMax, old(statTempMax), Stat(id, now, reading), now)
      ensures statSocMin == Track(SocMin, old(statSocMin), Stat(id, now, reading), now)
      ensures statSocMax == Track(SocMax, old(statSocMax), Stat(id, now, reading), now)
      ensures statVcellMin == Track(VCellMin, old(statVcellMin), Stat(id, now, reading), now)
      ensures statVcellMax == Track(VCellMax, old(statVcellMax), Stat(id, now, reading), now)
    {
      var msg := Stat(id, now, reading);
      statTempMax := Keep(statTempMax, msg, now, statTempMax.reading.tCellMax < reading.tCellMax);
      statSocMin := Keep(statSocMin, msg, now, statSocMin.reading.soc > reading.soc);
      statSocMax := Keep(statSocMax, msg, now, statSocMax.reading.soc < reading.soc);
      statVcellMin := Keep(statVcellMin, msg, now, statVcellMin.reading.vCellMin > reading.vCellMin);
      statVcellMax := Keep(statVcellMax, msg, now, statVcellMax.reading.vCellMax < reading.vCellMax);
    }

    method DisableOnTimeout(stat: Stat, now: nat) returns (res: Stat)
      ensures res == Disable(stat, now)
    {
      res := stat;
      if now - stat.rxTime > MAX_AGE {
        res := stat.(id := -1);
      }
    }

    // The first thing bms_update_limits does.
    method DisableExpired(now: nat)
      modifies this
      ensures statTempMax == Disable(old(statTempMax), now)
      ensures statSocMin == Disable(old(statSocMin), now)
      ensures statSocMax == Disable(old(statSocMax), now)
      ensures statVcellMin == Disable(old(statVcellMin), now)
      ensures statVcellMax == Disable(old(statVcellMax), now)
    {
      statTempMax := DisableOnTimeout(statTempMax, now);
      statSocMin := DisableOnTimeout(statSocMin, now);
      statSocMax := DisableOnTimeout(statSocMax, now);
      statVcellMin := DisableOnTimeout(statVcellMin, now);
      statVcellMax := DisableOnTimeout(statVcellMax, now);
    }
  }

  // A run: reports of the BMSs, each with constant readings, and calls of bms_update_limits.
  datatype Event = Report(time: nat, id: int) | Limits(time: nat)

  type Fleet = m: map<int, Reading> | forall id <- m :: 0 <= id witness map[]

  predicate FromFleet(fleet: Fleet, run: seq<Event>) {
    && (forall i :: 0 <= i < |run| && run[i].Report? ==> run[i].id in fleet)
    && (forall i, j :: 0 <= i < j < |run| ==> run[i].time <= run[j].time)
  }

  predicate ReportsAt(run: seq<Event>, k: int, id: int)
    requires 0 <= k < |run|
  {
    run[k].Report? && run[k].id == id
  }

  // Seen from event i, the sender of report j has reported, then or since, within the last two seconds.
  ghost predicate Recent(run: seq<Event>, i: int, j: int, id: int)
    requires 0 <= j < i < |run|
  {
    exists k :: j <= k < i && ReportsAt(run, k, id) && run[i].time - run[k].time <= MAX_AGE
  }

  ghost predicate Punctual(run: seq<Event>) {
    forall i, j, id {:trigger Recent(run, i, j, id)} ::
      0 <= j < i < |run| && ReportsAt(run, j, id) ==> Recent(run, i, j, id)
  }

  // Every member of the fleet reports in run[from..to].
  ghost predicate Round(fleet: Fleet, run: seq<Event>, from: int, to: int)
    requires 0 <= from <= to <= |run|
  {
    forall id <- fleet :: exists k :: from <= k < to && ReportsAt(run, k, id)
  }

  function After(kind: Kind, t: Stat, fleet: Fleet, run: seq<Event>, n: nat): Stat
    requires FromFleet(fleet, run) && n <= |run|
  {
    if n == 0 then t else
      var t1, e := After(kind, t, fleet, run, n - 1), run[n - 1];
      match e
      case Report(time, id) => Track(kind, t1, Stat(id, time, fleet[id]), time)
      case Limits(time) => Disable(t1, time)
  }

  // The tracker holds the last report, number j, of a member.
  ghost predicate Holds(t: Stat, fleet: Fleet, run: seq<Event>, n: int, j: int)
    requires FromFleet(fleet, run) && n <= |run|
  {
    && 0 <= j < n && run[j].Report? && t == Stat(run[j].id, run[j].time, fleet[run[j].id])
    && forall k :: j < k < n ==> !ReportsAt(run, k, t.id)
  }

  ghost predicate Genuine(t: Stat, fleet: Fleet, run: seq<Event>, n: int)
    requires FromFleet(fleet, run) && n <= |run|
  {
    exists j :: Holds(t, fleet, run, n, j)
  }

  // A punctual sender's report does not expire.
  lemma GenuineIsFresh(t: Stat, fleet: Fleet, run: seq<Event>, n: nat)
    requires FromFleet(fleet, run) && Punctual(run) && n < |run| && Genuine(t, fleet, run, n)
    ensures t.id in fleet && 0 <= t.id && t.reading == fleet[t.id] && !Expired(t, run[n].time)
  {
    var j :| Holds(t, fleet, run, n, j);
    assert ReportsAt(run, j, t.id) && Recent(run, n, j, t.id);
    var k :| j <= k < n && ReportsAt(run, k, t.id) && run[n].time - run[k].time <= MAX_AGE;
    assert k == j;
  }

  // Once genuine, a tracker stays genuine, gets no less limiting, and covers the report just made.
  lemma GenuineStays(kind: Kind, t: Stat, fleet: Fleet, run: seq<Event>, n: nat)
    requires FromFleet(fleet, run) && Punctual(run) && n < |run|
    requires Genuine(After(kind, t, fleet, run, n), fleet, run, n)
    ensures var (t0, t1) := (After(kind, t, fleet, run, n), After(kind, t, fleet, run, n + 1));
            && Genuine(t1, fleet, run, n + 1)
            && Score(kind, t0.reading) <= Score(kind, t1.reading)
            && (run[n].Report? ==> Score(kind, fleet[run[n].id]) <= Score(kind, t1.reading))
  {
    var t0, t1 := After(kind, t, fleet, run, n), After(kind, t, fleet, run, n + 1);
    GenuineIsFresh(t0, fleet, run, n);
    var j :| Holds(t0, fleet, run, n, j);
    if t1 == t0 && !ReportsAt(run, n, t0.id) {
      assert Holds(t1, fleet, run, n + 1, j);
    } else {
      assert Holds(t1, fleet, run, n + 1, n);
    }
  }

  // Before a tracker is genuine it is as it was or disabled, and its old sender has been silent.
  ghost predicate Waiting(t0: Stat, t: Stat, run: seq<Event>, n: int)
    requires 0 <= n <= |run|
  {
    if 0 <= t0.id then (t == t0 || t == t0.(id := -1)) && forall k :: 0 <= k < n ==> !ReportsAt(run, k, t0.id)
    else t.id < 0 && forall k :: 0 <= k < n ==> !run[k].Report?
  }

  lemma WaitingStep(kind: Kind, t: Stat, fleet: Fleet, run: seq<Event>, n: nat)
    requires FromFleet(fleet, run) && n < |run|
    requires Waiting(t, After(kind, t, fleet, run, n), run, n)
    ensures var t1 := After(kind, t, fleet, run, n + 1);
            Genuine(t1, fleet, run, n + 1) || Waiting(t, t1, run, n + 1)
  {
    var t0, t1 := After(kind, t, fleet, run, n), After(kind, t, fleet, run, n + 1);
    if run[n].Report? && t1 == Stat(run[n].id, run[n].time, fleet[run[n].id]) {
      assert Holds(t1, fleet, run, n + 1, n);
    } else {
      hide FromFleet, Holds;
    }
  }

  lemma {:induction false} GenuineOrWaiting(kind: Kind, t: Stat, fleet: Fleet, run: seq<Event>, n: nat)
    requires FromFleet(fleet, run) && Punctual(run) && n <= |run|
    ensures Genuine(After(kind, t, fleet, run, n), fleet, run, n) || Waiting(t, After(kind, t, fleet, run, n), run, n)
  {
    if n > 0 {
      hide Waiting, Genuine, Punctual;
      GenuineOrWaiting(kind, t, fleet, run, n - 1);
      if Genuine(After(kind, t, fleet, run, n - 1), fleet, run, n - 1) {
        GenuineStays(kind, t, fleet, run, n - 1);
      } else {
        WaitingStep(kind, t, fleet, run, n - 1);
      }
    }
  }

  // A full round ends the waiting.
  lemma RoundEndsWaiting(t0: Stat, t: Stat, fleet: Fleet, run: seq<Event>, n: nat)
    requires (exists id :: id in fleet) && (t0.id < 0 || t0.id in fleet)
    requires n <= |run| && Round(fleet, run, 0, n)
    ensures !Waiting(t0, t, run, n)
  {
    var id := t0.id;
    if id < 0 {
      id :| id in fleet;
    }
    var k :| 0 <= k < n && ReportsAt(run, k, id);
  }

  lemma {:induction false} GenuineCovers(kind: Kind, t: Stat, fleet: Fleet, run: seq<Event>, m: nat, k: nat, n: nat)
    requires FromFleet(fleet, run) && Punctual(run) && m <= k < n <= |run| && run[k].Report?
    requires Genuine(After(kind, t, fleet, run, m), fleet, run, m)
    ensures Genuine(After(kind, t, fleet, run, n), fleet, run, n)
    ensures Score(kind, fleet[run[k].id]) <= Score(kind, After(kind, t, fleet, run, n).reading)
    decreases n
  {
    hide Genuine, Punctual;
    GenuineUntil(kind, t, fleet, run, m, n - 1);
    GenuineStays(kind, t, fleet, run, n - 1);
    if k < n - 1 {
      GenuineCovers(kind, t, fleet, run, m, k, n - 1);
    }
  }

  lemma {:induction false} GenuineUntil(kind: Kind, t: Stat, fleet: Fleet, run: seq<Event>, m: nat, n: nat)
    requires FromFleet(fleet, run) && Punctual(run) && m <= n <= |run|
    requires Genuine(After(kind, t, fleet, run, m), fleet, run, m)
    ensures Genuine(After(kind, t, fleet, run, n), fleet, run, n)
    ensures Score(kind, After(kind, t, fleet, run, m).reading) <= Score(kind, After(kind, t, fleet, run, n).reading)
    decreases n
  {
    if m < n {
      GenuineUntil(kind, t, fleet, run, m, n - 1);
      GenuineStays(kind, t, fleet, run, n - 1);
    }
  }

  // The tracker holds the present reading of a member, and no member's is more limiting.
  predicate Converged(kind: Kind, t: Stat, fleet: Fleet) {
    && t.id in fleet && t.reading == fleet[t.id]
    && forall id <- fleet :: Score(kind, fleet[id]) <= Score(kind, t.reading)
  }

  // Two rounds after any start that tracks nobody or a member, each tracker holds the report of a
  // member whose reading is the most limiting of the whole fleet, and keeps such a report.
  lemma {:induction false} TrackersConverge(
      kind: Kind, t: Stat, fleet: Fleet, run: seq<Event>, n1: nat, n2: nat, n: nat)
    requires FromFleet(fleet, run) && Punctual(run) && (exists id :: id in fleet)
    requires t.id < 0 || t.id in fleet
    requires n1 <= n2 <= n <= |run| && Round(fleet, run, 0, n1) && Round(fleet, run, n1, n2)
    ensures Converged(kind, After(kind, t, fleet, run, n), fleet)
  {
    GenuineOrWaiting(kind, t, fleet, run, n1);
    RoundEndsWaiting(t, After(kind, t, fleet, run, n1), fleet, run, n1);
    hide Genuine, Waiting, Punctual;
    GenuineUntil(kind, t, fleet, run, n1, n);
    forall id <- fleet
      ensures Score(kind, fleet[id]) <= Score(kind, After(kind, t, fleet, run, n).reading)
    {
      var k :| n1 <= k < n2 && ReportsAt(run, k, id);
      GenuineCovers(kind, t, fleet, run, n1, k, n);
    }
  }

  // Any start at all, also with a BMS that has left the bus: once a report comes when what the tracker held
  // at first is stale, one more round is enough.
  lemma {:induction false} StaleStartConverges(
      kind: Kind, t: Stat, fleet: Fleet, run: seq<Event>, e: nat, n2: nat, n: nat)
    requires FromFleet(fleet, run) && Punctual(run)
    requires e < n2 <= n <= |run| && run[e].Report? && Stale(t.rxTime, run[e].time) && Round(fleet, run, e + 1, n2)
    ensures Converged(kind, After(kind, t, fleet, run, n), fleet)
  {
    GenuineOrWaiting(kind, t, fleet, run, e);
    if Genuine(After(kind, t, fleet, run, e), fleet, run, e) {
      GenuineStays(kind, t, fleet, run, e);
    } else {
      StaleIsReplaced(kind, t, fleet, run, e);
    }
    hide Genuine, Waiting, Punctual;
    GenuineUntil(kind, t, fleet, run, e + 1, n);
    forall id <- fleet
      ensures Score(kind, fleet[id]) <= Score(kind, After(kind, t, fleet, run, n).reading)
    {
      var k :| e + 1 <= k < n2 && ReportsAt(run, k, id);
      GenuineCovers(kind, t, fleet, run, e + 1, k, n);
    }
    GenuineReads(After(kind, t, fleet, run, n), fleet, run, n);
  }

  lemma StaleIsReplaced(kind: Kind, t: Stat, fleet: Fleet, run: seq<Event>, e: nat)
    requires FromFleet(fleet, run) && e < |run| && run[e].Report? && Stale(t.rxTime, run[e].time)
    requires Waiting(t, After(kind, t, fleet, run, e), run, e)
    ensures Genuine(After(kind, t, fleet, run, e + 1), fleet, run, e + 1)
  {
    var msg := Stat(run[e].id, run[e].time, fleet[run[e].id]);
    assert After(kind, t, fleet, run, e + 1) == msg;
    assert Holds(msg, fleet, run, e + 1, e);
  }

  lemma GenuineReads(t: Stat, fleet: Fleet, run: seq<Event>, n: nat)
    requires FromFleet(fleet, run) && n <= |run| && Genuine(t, fleet, run, n)
    ensures t.id in fleet && t.reading == fleet[t.id]
  {
  }

  // ---- When one round is enough ----

  predicate MostLimiting(kind: Kind, fleet: Fleet, id: int)
    requires id in fleet
  {
    forall other <- fleet :: Score(kind, fleet[other]) <= Score(kind, fleet[id])
  }

  ghost predicate OneRoundSuffices(kind: Kind, t: Stat, fleet: Fleet) {
    forall run: seq<Event>, n1: nat, n: nat ::
      FromFleet(fleet, run) && Punctual(run) && n1 <= n <= |run| && Round(fleet, run, 0, n1)
      ==> Converged(kind, After(kind, t, fleet, run, n), fleet)
  }

  // What the tracker holds at first does not hide a member that is more limiting than its own sender is now.
  predicate Unbiased(kind: Kind, t: Stat, fleet: Fleet)
    requires t.id < 0 || t.id in fleet
  {
    t.id < 0 || MostLimiting(kind, fleet, t.id) || exists id <- fleet :: Score(kind, t.reading) < Score(kind, fleet[id])
  }

  lemma {:induction false} SomeMostLimiting(kind: Kind, fleet: Fleet, ids: set<int>) returns (best: int)
    requires (exists id :: id in ids) && ids <= fleet.Keys
    ensures best in ids && forall id <- ids :: Score(kind, fleet[id]) <= Score(kind, fleet[best])
    decreases ids
  {
    best :| best in ids;
    if rival :| rival in ids - {best} {
      var other := SomeMostLimiting(kind, fleet, ids - {best});
      assert forall id <- ids :: id == best || id in ids - {best};
      best := if Score(kind, fleet[best]) <= Score(kind, fleet[other]) then other else best;
    } else {
      assert forall id <- ids :: id == best || id in ids - {best};
    }
  }

  // A tracker that still waits takes the report of a member that its start does not hide.
  lemma WaitingTakes(kind: Kind, t: Stat, fleet: Fleet, run: seq<Event>, k: nat)
    requires FromFleet(fleet, run) && k < |run| && run[k].Report?
    requires Waiting(t, After(kind, t, fleet, run, k), run, k)
    requires t.id < 0 || run[k].id == t.id || Score(kind, t.reading) < Score(kind, fleet[run[k].id])
    ensures Genuine(After(kind, t, fleet, run, k + 1), fleet, run, k + 1)
    ensures Score(kind, fleet[run[k].id]) <= Score(kind, After(kind, t, fleet, run, k + 1).reading)
  {
    var msg := Stat(run[k].id, run[k].time, fleet[run[k].id]);
    assert After(kind, t, fleet, run, k + 1) == msg;
    assert Holds(msg, fleet, run, k + 1, k);
  }

  lemma {:induction false} OneRoundConverges(kind: Kind, t: Stat, fleet: Fleet, run: seq<Event>, n1: nat, n: nat)
    requires FromFleet(fleet, run) && Punctual(run) && (exists id :: id in fleet)
    requires (t.id < 0 || t.id in fleet) && Unbiased(kind, t, fleet)
    requires n1 <= n <= |run| && Round(fleet, run, 0, n1)
    ensures Converged(kind, After(kind, t, fleet, run, n), fleet)
  {
    var best := SomeMostLimiting(kind, fleet, fleet.Keys);
    if 0 <= t.id && MostLimiting(kind, fleet, t.id) {
      best := t.id;
    }
    var k :| 0 <= k < n1 && ReportsAt(run, k, best);
    GenuineOrWaiting(kind, t, fleet, run, k);
    if Genuine(After(kind, t, fleet, run, k), fleet, run, k) {
      GenuineStays(kind, t, fleet, run, k);
    } else {
      WaitingTakes(kind, t, fleet, run, k);
    }
    GenuineUntil(kind, t, fleet, run, k + 1, n);
    hide Punctual, Waiting, After;
  }

  // One report of each of the given members, all at the same time.
  lemma {:induction false} ReportAll(ids: set<int>, time: nat) returns (run: seq<Event>)
    ensures forall i :: 0 <= i < |run| ==> run[i].Report? && run[i].time == time && run[i].id in ids
    ensures forall id <- ids :: exists k :: 0 <= k < |run| && ReportsAt(run, k, id)
    decreases ids
  {
    run := [];
    if id :| id in ids {
      var rest := ReportAll(ids - {id}, time);
      run := [Report(time, id)] + rest;
      assert ReportsAt(run, 0, id);
      forall other | other in ids && other != id
        ensures exists k :: 0 <= k < |run| && ReportsAt(run, k, other)
      {
        assert other in ids - {id};
        var k :| 0 <= k < |rest| && ReportsAt(rest, k, other);
        assert ReportsAt(run, k + 1, other);
      }
    }
  }

  // Reports of other members that are not more limiting do not move a fresh tracker.
  lemma {:induction false} BiasStays(kind: Kind, t: Stat, fleet: Fleet, run: seq<Event>, n: nat)
    requires FromFleet(fleet, run) && n <= |run| && 0 <= t.id
    requires forall i :: 0 <= i < n ==> run[i].Report? && run[i].time == t.rxTime && run[i].id != t.id
    requires forall id <- fleet :: Score(kind, fleet[id]) <= Score(kind, t.reading)
    ensures After(kind, t, fleet, run, n) == t
  {
    if n > 0 {
      BiasStays(kind, t, fleet, run, n - 1);
    }
  }

  lemma SameTimeIsPunctual(run: seq<Event>, time: nat)
    requires forall i :: 0 <= i < |run| ==> run[i].time == time
    ensures Punctual(run)
  {
    forall i, j, id | 0 <= j < i < |run| && ReportsAt(run, j, id)
      ensures Recent(run, i, j, id)
    {
      assert ReportsAt(run, j, id) && run[i].time - run[j].time <= MAX_AGE;
    }
  }

  // A round, all at the same time, in which one member reports last.
  lemma RoundWithLast(fleet: Fleet, last: int, time: nat) returns (run: seq<Event>)
    requires last in fleet
    ensures FromFleet(fleet, run) && Punctual(run) && Round(fleet, run, 0, |run|)
    ensures run != [] && run[|run| - 1] == Report(time, last)
    ensures forall i :: 0 <= i < |run| - 1 ==> run[i].Report? && run[i].time == time && run[i].id != last
  {
    var others := ReportAll(fleet.Keys - {last}, time);
    run := others + [Report(time, last)];
    SameTimeIsPunctual(run, time);
    forall id | id in fleet
      ensures exists k :: 0 <= k < |run| && ReportsAt(run, k, id)
    {
      if id == last {
        assert ReportsAt(run, |others|, id);
      } else {
        assert id in fleet.Keys - {last};
        var k :| 0 <= k < |others| && ReportsAt(others, k, id);
        assert ReportsAt(run, k, id);
      }
    }
  }

  // A biased tracker is misled by a round in which its own sender reports last.
  lemma {:induction false} BiasMisleads(kind: Kind, t: Stat, fleet: Fleet)
    requires t.id in fleet && !Unbiased(kind, t, fleet)
    ensures !OneRoundSuffices(kind, t, fleet)
  {
    var run := RoundWithLast(fleet, t.id, t.rxTime);
    var n := |run| - 1;
    BiasStays(kind, t, fleet, run, n);
    assert After(kind, t, fleet, run, n + 1) == Stat(t.id, t.rxTime, fleet[t.id]);
    assert !Converged(kind, After(kind, t, fleet, run, n + 1), fleet);
    hide Punctual, Round, After;
  }

  // One round is enough, in every punctual run, iff the tracker holds nobody at first, or its sender is
  // now the most limiting member, or what it holds is less limiting than some member.
  lemma {:induction false} OneRoundSufficesIff(kind: Kind, t: Stat, fleet: Fleet)
    requires (exists id :: id in fleet) && (t.id < 0 || t.id in fleet)
    ensures OneRoundSuffices(kind, t, fleet) <==> Unbiased(kind, t, fleet)
  {
    if Unbiased(kind, t, fleet) {
      forall run: seq<Event>, n1: nat, n: nat
        | FromFleet(fleet, run) && Punctual(run) && n1 <= n <= |run| && Round(fleet, run, 0, n1)
        ensures Converged(kind, After(kind, t, fleet, run, n), fleet)
      {
        OneRoundConverges(kind, t, fleet, run, n1, n);
      }
    } else {
      BiasMisleads(kind, t, fleet);
    }
  }

  const fleetOfTwo: Fleet := map[1 := Reading(0, 0, 0, 10), 2 := Reading(0, 0, 0, 20)]

  const oneRound := [Report(1, 2), Report(2, 1)]

  lemma OneRoundIsPunctual()
    ensures FromFleet(fleetOfTwo, oneRound) && Punctual(oneRound) && Round(fleetOfTwo, oneRound, 0, 2)
  {
    assert ReportsAt(oneRound, 0, 2) && ReportsAt(oneRound, 1, 1);
    assert Recent(oneRound, 1, 0, 2);
  }

  // An input for the other case: a tracker that starts with an outdated extreme report of a member falls
  // back to that member's present reading and misses a member that reported before it.
  lemma OneRoundIsNotEnough()
    ensures FromFleet(fleetOfTwo, oneRound) && Punctual(oneRound) && Round(fleetOfTwo, oneRound, 0, 2)
    ensures var t := After(TempMax, Stat(1, 0, Reading(0, 0, 0, 90)), fleetOfTwo, oneRound, 2);
            t.id in fleetOfTwo && exists id <- fleetOfTwo :: Score(TempMax, t.reading) < Score(TempMax, fleetOfTwo[id])
  {
    OneRoundIsPunctual();
    hide Punctual, Round;
    var t := Stat(1, 0, Reading(0, 0, 0, 90));
    assert After(TempMax, t, fleetOfTwo, oneRound, 0) == t;
    assert After(TempMax, t, fleetOfTwo, oneRound, 1) == t;
    assert After(TempMax, t, fleetOfTwo, oneRound, 2) == Stat(1, 2, fleetOfTwo[1]);
    assert 2 in fleetOfTwo;
  }

  // ---- The same in the values of the reports ----

  // A tracker whose report is more than 20000 ticks old is given up, any other stays as it is.
  lemma DisableLaw(t: Stat, now: nat)
    ensures Disable(t, now).id == if now - t.rxTime > 20000 then -1 else t.id
    ensures Disable(t, now).rxTime == t.rxTime && Disable(t, now).reading == t.reading
  {
  }

  // So after the limiter has run at `now` it sees only reports of the last two seconds.
  lemma {:induction false} LimiterSeesFreshReports(kind: Kind, t: Stat, fleet: Fleet, run: seq<Event>, n: nat)
    requires FromFleet(fleet, run) && n < |run| && run[n].Limits?
    ensures var t1 := After(kind, t, fleet, run, n + 1);
            t1.id == -1 || (t1 == After(kind, t, fleet, run, n) && run[n].time - t1.rxTime <= 20000)
  {
    hide FromFleet;
    DisableLaw(After(kind, t, fleet, run, n), run[n].time);
  }

  // When a message replaces what a tracker holds: nobody, an old report, a less limiting one, or one of
  // the same sender.
  lemma ReplacedIff(kind: Kind, t: Stat, msg: Stat, now: nat)
    requires t != msg
    ensures Track(kind, t, msg, now) == msg
            <==> || t.id < 0 || now - t.rxTime > 20000 || t.id == msg.id
                 || (kind == TempMax && t.reading.tCellMax < msg.reading.tCellMax)
                 || (kind == SocMin && msg.reading.soc < t.reading.soc)
                 || (kind == SocMax && t.reading.soc < msg.reading.soc)
                 || (kind == VCellMin && msg.reading.vCellMin < t.reading.vCellMin)
                 || (kind == VCellMax && t.reading.vCellMax < msg.reading.vCellMax)
    ensures Track(kind, t, msg, now) in {t, msg}
  {
  }

  // Two rounds after any start the five trackers hold reports of members, and no member is warmer than
  // the first says, emptier than the second, fuller than the third, has a lower lowest cell than the
  // fourth or a higher highest cell than the fifth.
  lemma {:induction false} TrackersAreExtremes(
      stats: map<Kind, Stat>, fleet: Fleet, run: seq<Event>, n1: nat, n2: nat, n: nat, id: int)
    requires FromFleet(fleet, run) && Punctual(run) && id in fleet
    requires forall kind: Kind :: kind in stats && (stats[kind].id < 0 || stats[kind].id in fleet)
    requires n1 <= n2 <= n <= |run| && Round(fleet, run, 0, n1) && Round(fleet, run, n1, n2)
    ensures forall kind: Kind ::
              var t := After(kind, stats[kind], fleet, run, n); t.id in fleet && t.reading == fleet[t.id]
    ensures fleet[id].tCellMax <= After(TempMax, stats[TempMax], fleet, run, n).reading.tCellMax
    ensures fleet[id].soc >= After(SocMin, stats[SocMin], fleet, run, n).reading.soc
    ensures fleet[id].soc <= After(SocMax, stats[SocMax], fleet, run, n).reading.soc
    ensures fleet[id].vCellMin >= After(VCellMin, stats[VCellMin], fleet, run, n).reading.vCellMin
    ensures fleet[id].vCellMax <= After(VCellMax, stats[VCellMax], fleet, run, n).reading.vCellMax
  {
    hide FromFleet, Punctual, Round, After;
    forall kind: Kind
      ensures Converged(kind, After(kind, stats[kind], fleet, run, n), fleet)
    {
      TrackersConverge(kind, stats[kind], fleet, run, n1, n2, n);
    }
  }
}
