/** How the limiting values of the BMSs reduce the input current limits (bms.c:360-471), over the reals. */
module BmsLimits {
  import opened Bytes
  import opened Reals

  datatype LimitConfig = LimitConfig(
    limitMode: byte,
    tStart: real, tEnd: real,
    socStart: real, socEnd: real,
    vminStart: real, vminEnd: real,
    vmaxStart: real, vmaxEnd: real)

  // The trackers that are alive after disable_on_timeout, by the value the limiter looks at.
  datatype Inputs = Inputs(temp: Option<real>, soc: Option<real>, vmin: Option<real>, vmax: Option<real>)

  const T_MARGIN := 0.1
  const MARGIN := 0.001

  function Sign(x: real): real { if x < 0.0 then -1.0 else 1.0 }

  function Lesser(a: real, b: real): (m: real)
    ensures m <= a && m <= b && (m == a || m == b)
  {
    if a <= b then a else b
  }

  function Greater(a: real, b: real): (m: real)
    ensures a <= m && b <= m && (m == a || m == b)
  {
    if a <= b then b else a
  }

  // A share of a current.
  function Scale(share: real, current: real): real { share * current }

  // utils_min_abs
  function MinAbs(va: real, vb: real): real { if Abs(va) < Abs(vb) then va else vb }

  predicate Enabled(mode: byte, bit: nat)
    requires bit in {1, 2, 4, 8}
  {
    mode / bit % 2 == 1
  }

  // What remains of a current when x has climbed from `start` towards `end`: all of it, a share, or nothing.
  function Share(x: real, start: real, end: real, margin: real): real
    requires 0.0 < margin
  {
    if x < start + margin then 1.0
    else if x > end - margin then 0.0
    else (end - x) / (end - start)
  }

  function ShareOf(on: bool, x: Option<real>, start: real, end: real, margin: real): real
    requires 0.0 < margin
  {
    if on && x.Some? then Share(x.value, start, end, margin) else 1.0
  }

  function Negated(x: Option<real>): Option<real> { match x case Some(v) => Some(-v) case None => None }

  // A limit that sets in while x falls is one that sets in while -x climbs.
  function FallingShareOf(on: bool, x: Option<real>, start: real, end: real): real {
    ShareOf(on, Negated(x), -start, -end, MARGIN)
  }

  function TempShare(c: LimitConfig, t: Option<real>): real {
    ShareOf(Enabled(c.limitMode, 1), t, c.tStart, c.tEnd, T_MARGIN)
  }

  function SocShare(c: LimitConfig, x: Option<real>): real {
    FallingShareOf(Enabled(c.limitMode, 2), x, c.socStart, c.socEnd)
  }

  function VminShare(c: LimitConfig, x: Option<real>): real {
    FallingShareOf(Enabled(c.limitMode, 4), x, c.vminStart, c.vminEnd)
  }

  function VmaxShare(c: LimitConfig, x: Option<real>): real {
    ShareOf(Enabled(c.limitMode, 8), x, c.vmaxStart, c.vmaxEnd, MARGIN)
  }

  // The magnitudes the BMSs allow. Temperature scales the larger of the two configured currents.
  function MaxMagnitude(c: LimitConfig, inp: Inputs, confMin: real, confMax: real): real {
    Lesser(Lesser(Scale(TempShare(c, inp.temp), Greater(Abs(confMin), Abs(confMax))),
                  Scale(SocShare(c, inp.soc), Abs(confMax))),
           Lesser(Scale(VminShare(c, inp.vmin), Abs(confMax)), Abs(confMax)))
  }

  function MinMagnitude(c: LimitConfig, inp: Inputs, confMin: real, confMax: real): real {
    Lesser(Scale(TempShare(c, inp.temp), Greater(Abs(confMin), Abs(confMax))),
           Lesser(Scale(VmaxShare(c, inp.vmax), Abs(confMin)), Abs(confMin)))
  }

  function Limited(current: real, conf: real, magnitude: real): real {
    if magnitude < Abs(current) then Signed(conf, magnitude) else current
  }

  // The two limits after bms_update_limits.
  function NewMax(c: LimitConfig, inp: Inputs, iInMax: real, confMin: real, confMax: real): real {
    Limited(iInMax, confMax, MaxMagnitude(c, inp, confMin, confMax))
  }

  function NewMin(c: LimitConfig, inp: Inputs, iInMin: real, confMin: real, confMax: real): real {
    Limited(iInMin, confMin, MinMagnitude(c, inp, confMin, confMax))
  }

  // Interpolation happens only with a strictly positive span, for every configuration.
  lemma SpanIsPositive(x: real, start: real, end: real, margin: real)
    requires 0.0 < margin && !(x < start + margin) && !(x > end - margin)
    ensures 2.0 * margin <= end - start
    ensures 0.0 < end - x < end - start
  {
  }

  lemma MapIsShare(x: real, start: real, end: real, current: real)
    requires start < end
    ensures Map(x, start, end, current, 0.0) == Scale((end - x) / (end - start), current)
  {
    var d := end - start;
    var q, t := (x - start) * (0.0 - current) / d, (end - x) / d;
    assert q * d == (x - start) * (0.0 - current);
    assert t * d == end - x;
    assert (q + current - current * t) * d == 0.0 by {
      assert current * t * d == current * (end - x);
    }
  }

  lemma ShareIsFraction(x: real, start: real, end: real, margin: real)
    requires 0.0 < margin
    ensures 0.0 <= Share(x, start, end, margin) <= 1.0
  {
    if !(x < start + margin) && !(x > end - margin) {
      var d := end - start;
      Quotients(0.0, end - x, d);
      Quotients(end - x, d, d);
      WholeAndNothing(d);
    }
  }

  lemma WholeAndNothing(d: real)
    requires d != 0.0
    ensures d / d == 1.0 && 0.0 / d == 0.0
  {
  }

  lemma Quotients(a: real, b: real, d: real)
    requires a <= b && 0.0 < d
    ensures a / d <= b / d
  {
  }

  // A limit on x climbing, for the current that remains.
  method RisingLimit(on: bool, x: Option<real>, start: real, end: real, margin: real, conf: real) returns (limit: real)
    requires 0.0 < margin
    ensures limit == Scale(ShareOf(on, x, start, end, margin), conf)
  {
    limit := conf;
    if on {
      if x.Some? {
        if x.value < start + margin {
          // OK
        } else if x.value > end - margin {
          limit := 0.0;
        } else {
          SpanIsPositive(x.value, start, end, margin);
          MapIsShare(x.value, start, end, conf);
          limit := Map(x.value, start, end, conf, 0.0);
        }
      }
    }
  }

  // The state of charge and lowest voltage limits: the same with x falling.
  method FallingLimit(on: bool, x: Option<real>, start: real, end: real, conf: real) returns (limit: real)
    ensures limit == Scale(FallingShareOf(on, x, start, end), conf)
  {
    limit := conf;
    if on {
      if x.Some? {
        if x.value > start - MARGIN {
          // OK
        } else if x.value < end + MARGIN {
          limit := 0.0;
        } else {
          SpanIsPositive(-x.value, -start, -end, MARGIN);
          MapIsShare(-x.value, -start, -end, conf);
          MapNegated(x.value, start, end, conf);
          limit := Map(x.value, start, end, conf, 0.0);
        }
      }
    }
  }

  lemma MapNegated(x: real, start: real, end: real, conf: real)
    requires start != end
    ensures Map(x, start, end, conf, 0.0) == Map(-x, -start, -end, conf, 0.0)
  {
    var d := end - start;
    var q := (x - start) * (0.0 - conf) / d;
    assert q * d == (x - start) * (0.0 - conf);
    assert (-x - -start) * (0.0 - conf) == -(q * d) == q * -d;
  }

  // A signed current by its magnitude: how the parts of the limiter act on it.
  function Signed(conf: real, magnitude: real): real { if conf < 0.0 then -magnitude else magnitude }

  lemma SignIsSigned(conf: real, magnitude: real)
    ensures Sign(conf) * magnitude == Signed(conf, magnitude)
  {
  }

  lemma ShareIsSigned(conf: real, share: real)
    ensures Scale(share, conf) == Signed(conf, Scale(share, Abs(conf)))
  {
    assert share * -conf == -(share * conf);
  }

  lemma ProductNotNegative(a: real, b: real)
    requires 0.0 <= a && 0.0 <= b
    ensures 0.0 <= a * b
  {
  }

  lemma ScaledDown(share: real, m: real)
    requires 0.0 <= share <= 1.0 && 0.0 <= m
    ensures 0.0 <= Scale(share, m) <= m
  {
    ProductNotNegative(share, m);
    ProductNotNegative(1.0 - share, m);
    assert (1.0 - share) * m == m - share * m;
  }

  lemma MinAbsOfSigned(conf: real, a: real, b: real)
    requires 0.0 <= a && 0.0 <= b
    ensures MinAbs(Signed(conf, a), Signed(conf, b)) == Signed(conf, Lesser(a, b))
  {
  }

  // The chains of utils_min_abs on the parts.
  lemma CombineMax(conf: real, temp: real, soc: real, vmin: real)
    requires 0.0 <= temp && 0.0 <= soc && 0.0 <= vmin
    ensures MinAbs(MinAbs(MinAbs(conf, Signed(conf, Lesser(temp, Abs(conf)))), Signed(conf, soc)), Signed(conf, vmin))
            == Signed(conf, Lesser(Lesser(temp, soc), Lesser(vmin, Abs(conf))))
  {
    var m := Abs(conf);
    assert Signed(conf, m) == conf;
    MinAbsOfSigned(conf, m, Lesser(temp, m));
    MinAbsOfSigned(conf, Lesser(temp, m), soc);
    MinAbsOfSigned(conf, Lesser(Lesser(temp, m), soc), vmin);
    hide MinAbs, Signed;
  }

  lemma CombineMin(conf: real, temp: real, vmax: real)
    requires 0.0 <= temp && 0.0 <= vmax
    ensures MinAbs(MinAbs(conf, Signed(conf, Lesser(temp, Abs(conf)))), Signed(conf, vmax))
            == Signed(conf, Lesser(temp, Lesser(vmax, Abs(conf))))
  {
    var m := Abs(conf);
    assert Signed(conf, m) == conf;
    MinAbsOfSigned(conf, m, Lesser(temp, m));
    MinAbsOfSigned(conf, Lesser(temp, m), vmax);
    hide MinAbs, Signed;
  }

  lemma ShareOfIsFraction(on: bool, x: Option<real>, start: real, end: real, margin: real)
    requires 0.0 < margin
    ensures 0.0 <= ShareOf(on, x, start, end, margin) <= 1.0
  {
    if on && x.Some? {
      ShareIsFraction(x.value, start, end, margin);
    }
  }

  // The temperature block: one scaled bound for both directions.
  method TempLimits(c: LimitConfig, t: Option<real>, confMin: real, confMax: real) returns (limMin: real, limMax: real)
    ensures var bound := Scale(TempShare(c, t), Greater(Abs(confMin), Abs(confMax)));
            && limMin == Signed(confMin, Lesser(bound, Abs(confMin)))
            && limMax == Signed(confMax, Lesser(bound, Abs(confMax)))
  {
    limMax, limMin := confMax, confMin;
    ghost var m := Greater(Abs(confMin), Abs(confMax));
    assert Scale(1.0, m) == m && Scale(0.0, m) == 0.0;
    hide Scale;
    if Enabled(c.limitMode, 1) {
      if t.Some? {
        var temp := t.value;
        if temp < c.tStart + T_MARGIN {
          // OK
        } else if temp > c.tEnd - T_MARGIN {
          limMax, limMin := 0.0, 0.0;
        } else {
          var maxc := Abs(confMax);
          if Abs(confMin) > maxc {
            maxc := Abs(confMin);
          }
          SpanIsPositive(temp, c.tStart, c.tEnd, T_MARGIN);
          MapIsShare(temp, c.tStart, c.tEnd, maxc);
          ShareIsFraction(temp, c.tStart, c.tEnd, T_MARGIN);
          ScaledDown(TempShare(c, t), maxc);
          maxc := Map(temp, c.tStart, c.tEnd, maxc, 0.0);
          assert maxc == Scale(TempShare(c, t), m);
          hide Map, TempShare, Sign;
          SignIsSigned(limMin, maxc);
          SignIsSigned(limMax, maxc);
          if Abs(limMin) > maxc {
            limMin := Sign(limMin) * maxc;
          }
          if Abs(limMax) > maxc {
            limMax := Sign(limMax) * maxc;
          }
        }
      }
    }
  }

  lemma {:induction false} Magnitudes(c: LimitConfig, inp: Inputs, confMin: real, confMax: real)
    ensures 0.0 <= Scale(TempShare(c, inp.temp), Greater(Abs(confMin), Abs(confMax)))
    ensures 0.0 <= Scale(SocShare(c, inp.soc), Abs(confMax)) <= Abs(confMax)
    ensures 0.0 <= Scale(VminShare(c, inp.vmin), Abs(confMax)) <= Abs(confMax)
    ensures 0.0 <= Scale(VmaxShare(c, inp.vmax), Abs(confMin)) <= Abs(confMin)
  {
    hide Scale, ShareOf;
    ShareOfIsFraction(Enabled(c.limitMode, 1), inp.temp, c.tStart, c.tEnd, T_MARGIN);
    ShareOfIsFraction(Enabled(c.limitMode, 8), inp.vmax, c.vmaxStart, c.vmaxEnd, MARGIN);
    FallingShareIsFraction(Enabled(c.limitMode, 2), inp.soc, c.socStart, c.socEnd);
    FallingShareIsFraction(Enabled(c.limitMode, 4), inp.vmin, c.vminStart, c.vminEnd);
    ScaledDown(TempShare(c, inp.temp), Greater(Abs(confMin), Abs(confMax)));
    ScaledDown(SocShare(c, inp.soc), Abs(confMax));
    ScaledDown(VminShare(c, inp.vmin), Abs(confMax));
    ScaledDown(VmaxShare(c, inp.vmax), Abs(confMin));
  }

  lemma FallingShareIsFraction(on: bool, x: Option<real>, start: real, end: real)
    ensures 0.0 <= FallingShareOf(on, x, start, end) <= 1.0
  {
    ShareOfIsFraction(on, Negated(x), -start, -end, MARGIN);
  }

  // bms_update_limits
  method UpdateLimits(c: LimitConfig, inp: Inputs, iInMin: real, iInMax: real, confMin: real, confMax: real)
    returns (newMin: real, newMax: real)
    ensures newMin == NewMin(c, inp, iInMin, confMin, confMax)
    ensures newMax == NewMax(c, inp, iInMax, confMin, confMax)
  {
    hide Scale, TempShare, FallingShareOf, ShareOf;
    newMin, newMax := iInMin, iInMax;
    var minTemp, maxTemp := TempLimits(c, inp.temp, confMin, confMax);
    var maxSoc := FallingLimit(Enabled(c.limitMode, 2), inp.soc, c.socStart, c.socEnd, confMax);
    var maxVmin := FallingLimit(Enabled(c.limitMode, 4), inp.vmin, c.vminStart, c.vminEnd, confMax);
    var minVmax := RisingLimit(Enabled(c.limitMode, 8), inp.vmax, c.vmaxStart, c.vmaxEnd, MARGIN, confMin);

    Magnitudes(c, inp, confMin, confMax);
    ShareIsSigned(confMax, SocShare(c, inp.soc));
    ShareIsSigned(confMax, VminShare(c, inp.vmin));
    ShareIsSigned(confMin, VmaxShare(c, inp.vmax));
    ghost var bound := Scale(TempShare(c, inp.temp), Greater(Abs(confMin), Abs(confMax)));
    CombineMax(confMax, bound, Scale(SocShare(c, inp.soc), Abs(confMax)), Scale(VminShare(c, inp.vmin), Abs(confMax)));
    CombineMin(confMin, bound, Scale(VmaxShare(c, inp.vmax), Abs(confMin)));
    hide MinAbs, SocShare, VminShare, VmaxShare, Greater;
    ghost var maxMagnitude := MaxMagnitude(c, inp, confMin, confMax);
    ghost var minMagnitude := MinMagnitude(c, inp, confMin, confMax);
    assert 0.0 <= maxMagnitude && 0.0 <= minMagnitude;
    var maxBms := MinAbs(MinAbs(MinAbs(confMax, maxTemp), maxSoc), maxVmin);
    var minBms := MinAbs(MinAbs(confMin, minTemp), minVmax);
    assert maxBms == Signed(confMax, maxMagnitude) && minBms == Signed(confMin, minMagnitude);
    hide Lesser, MaxMagnitude, MinMagnitude;
    if Abs(minBms) < Abs(iInMin) {
      newMin := minBms;
    }
    if Abs(maxBms) < Abs(iInMax) {
      newMax := maxBms;
    }
  }

  // The outcome never exceeds the incoming or the configured magnitude, and a reduced limit keeps the configured sign.
  lemma NeverRaised(c: LimitConfig, inp: Inputs, iInMin: real, iInMax: real, confMin: real, confMax: real)
    ensures var newMax := NewMax(c, inp, iInMax, confMin, confMax);
            && Abs(newMax) == Lesser(Abs(iInMax), MaxMagnitude(c, inp, confMin, confMax))
            && Abs(newMax) <= Abs(confMax)
            && (newMax != iInMax ==> 0.0 <= newMax * confMax)
    ensures var newMin := NewMin(c, inp, iInMin, confMin, confMax);
            && Abs(newMin) == Lesser(Abs(iInMin), MinMagnitude(c, inp, confMin, confMax))
            && Abs(newMin) <= Abs(confMin)
            && (newMin != iInMin ==> 0.0 <= newMin * confMin)
  {
    Magnitudes(c, inp, confMin, confMax);
    hide Scale, TempShare, SocShare, VminShare, VmaxShare;
    SameSign(confMax, MaxMagnitude(c, inp, confMin, confMax));
    SameSign(confMin, MinMagnitude(c, inp, confMin, confMax));
  }

  lemma SameSign(conf: real, magnitude: real)
    requires 0.0 <= magnitude
    ensures 0.0 <= Signed(conf, magnitude) * conf
  {
  }

  // b is at least as limiting as a; a dead tracker does not limit.
  predicate Worse(a: Option<real>, b: Option<real>) { a.None? || (b.Some? && a.value <= b.value) }

  lemma ShareFalls(on: bool, a: Option<real>, b: Option<real>, start: real, end: real, margin: real)
    requires 0.0 < margin && Worse(a, b)
    ensures ShareOf(on, b, start, end, margin) <= ShareOf(on, a, start, end, margin)
  {
    ShareOfIsFraction(on, a, start, end, margin);
    ShareOfIsFraction(on, b, start, end, margin);
    if on && a.Some? && !(a.value < start + margin) && !(b.value > end - margin) {
      Quotients(end - b.value, end - a.value, end - start);
    }
  }

  lemma ScaleGrows(share1: real, share2: real, current: real)
    requires share1 <= share2 && 0.0 <= current
    ensures Scale(share1, current) <= Scale(share2, current)
  {
    ProductNotNegative(share2 - share1, current);
    assert (share2 - share1) * current == share2 * current - share1 * current;
  }

  // Warmer or fuller cells, or a lower state of charge or lowest cell, never raise a limit.
  lemma {:induction false} LimitsAreMonotone(
      c: LimitConfig, a: Inputs, b: Inputs, iInMin: real, iInMax: real, confMin: real, confMax: real)
    requires Worse(a.temp, b.temp) && Worse(a.vmax, b.vmax)
    requires Worse(Negated(a.soc), Negated(b.soc)) && Worse(Negated(a.vmin), Negated(b.vmin))
    ensures Abs(NewMax(c, b, iInMax, confMin, confMax)) <= Abs(NewMax(c, a, iInMax, confMin, confMax))
    ensures Abs(NewMin(c, b, iInMin, confMin, confMax)) <= Abs(NewMin(c, a, iInMin, confMin, confMax))
  {
    hide Scale, ShareOf, Limited;
    ShareFalls(Enabled(c.limitMode, 1), a.temp, b.temp, c.tStart, c.tEnd, T_MARGIN);
    ShareFalls(Enabled(c.limitMode, 2), Negated(a.soc), Negated(b.soc), -c.socStart, -c.socEnd, MARGIN);
    ShareFalls(Enabled(c.limitMode, 4), Negated(a.vmin), Negated(b.vmin), -c.vminStart, -c.vminEnd, MARGIN);
    ShareFalls(Enabled(c.limitMode, 8), a.vmax, b.vmax, c.vmaxStart, c.vmaxEnd, MARGIN);
    ScaleGrows(TempShare(c, b.temp), TempShare(c, a.temp), Greater(Abs(confMin), Abs(confMax)));
    ScaleGrows(SocShare(c, b.soc), SocShare(c, a.soc), Abs(confMax));
    ScaleGrows(VminShare(c, b.vmin), VminShare(c, a.vmin), Abs(confMax));
    ScaleGrows(VmaxShare(c, b.vmax), VmaxShare(c, a.vmax), Abs(confMin));
    NeverRaised(c, a, iInMin, iInMax, confMin, confMax);
    NeverRaised(c, b, iInMin, iInMax, confMin, confMax);
  }

  // ---- What limits, and how much, in the values of the trackers and the configuration ----

  // The share of the current that one limit leaves, as a fraction of 1: all before its start, nothing
  // beyond its end, and in between what remains of the span.
  predicate Leaves(on: bool, x: Option<real>, start: real, end: real, margin: real, share: real) {
    if !on || x.None? || x.value < start + margin then share == 1.0
    else if end - margin < x.value then share == 0.0
    else share * (end - start) == end - x.value
  }

  // Of a limit that sets in while the value falls.
  predicate LeavesFalling(on: bool, x: Option<real>, start: real, end: real, margin: real, share: real) {
    if !on || x.None? || start - margin < x.value then share == 1.0
    else if x.value < end + margin then share == 0.0
    else share * (start - end) == x.value - end
  }

  lemma LeavesIsShare(on: bool, x: Option<real>, start: real, end: real, margin: real, share: real)
    requires 0.0 < margin && Leaves(on, x, start, end, margin, share)
    ensures share == ShareOf(on, x, start, end, margin)
  {
    if on && x.Some? && !(x.value < start + margin) && !(end - margin < x.value) {
      QuotientIs(share, end - start, end - x.value);
    }
  }

  lemma QuotientIs(q: real, d: real, n: real)
    requires d != 0.0 && q * d == n
    ensures q == n / d
  {
  }

  lemma LeavesFallingIsShare(on: bool, x: Option<real>, start: real, end: real, share: real)
    requires LeavesFalling(on, x, start, end, 0.001, share)
    ensures share == FallingShareOf(on, x, start, end)
  {
    LeavesIsShare(on, Negated(x), -start, -end, MARGIN, share);
  }

  // The limiter as a whole. Each limit is the configured current cut down to the least of the incoming
  // magnitude, the configured one, and what each enabled limit of a live tracker leaves: temperature of the
  // larger configured current, charge and lowest cell of the maximum, highest cell of the minimum.
  lemma {:induction false} LimitsAreExact(
      c: LimitConfig, inp: Inputs, iInMin: real, iInMax: real, confMin: real, confMax: real,
      temp: real, soc: real, vmin: real, vmax: real)
    requires Leaves(c.limitMode % 2 == 1, inp.temp, c.tStart, c.tEnd, 0.1, temp)
    requires LeavesFalling(c.limitMode / 2 % 2 == 1, inp.soc, c.socStart, c.socEnd, 0.001, soc)
    requires LeavesFalling(c.limitMode / 4 % 2 == 1, inp.vmin, c.vminStart, c.vminEnd, 0.001, vmin)
    requires Leaves(c.limitMode / 8 % 2 == 1, inp.vmax, c.vmaxStart, c.vmaxEnd, 0.001, vmax)
    ensures var max := Lesser(Lesser(Scale(temp, Greater(Abs(confMin), Abs(confMax))), Scale(soc, Abs(confMax))),
                              Lesser(Scale(vmin, Abs(confMax)), Abs(confMax)));
            NewMax(c, inp, iInMax, confMin, confMax)
            == if Abs(iInMax) <= max then iInMax else if confMax < 0.0 then -max else max
    ensures var min := Lesser(Scale(temp, Greater(Abs(confMin), Abs(confMax))),
                              Lesser(Scale(vmax, Abs(confMin)), Abs(confMin)));
            NewMin(c, inp, iInMin, confMin, confMax)
            == if Abs(iInMin) <= min then iInMin else if confMin < 0.0 then -min else min
  {
    hide ShareOf, FallingShareOf, Leaves, LeavesFalling, NewMax, NewMin, Scale, Lesser, Greater, Abs;
    LeavesIsShare(c.limitMode % 2 == 1, inp.temp, c.tStart, c.tEnd, T_MARGIN, temp);
    LeavesFallingIsShare(c.limitMode / 2 % 2 == 1, inp.soc, c.socStart, c.socEnd, soc);
    LeavesFallingIsShare(c.limitMode / 4 % 2 == 1, inp.vmin, c.vminStart, c.vminEnd, vmin);
    LeavesIsShare(c.limitMode / 8 % 2 == 1, inp.vmax, c.vmaxStart, c.vmaxEnd, MARGIN, vmax);
    LimitsFromParts(c, inp, iInMin, iInMax, confMin, confMax, Scale(temp, Greater(Abs(confMin), Abs(confMax))),
                    Scale(soc, Abs(confMax)), Scale(vmin, Abs(confMax)), Scale(vmax, Abs(confMin)));
  }

  lemma ScaleIsProduct(share: real, current: real)
    ensures Scale(share, current) == share * current
  {
  }

  lemma LimitsFromParts(
      c: LimitConfig, inp: Inputs, iInMin: real, iInMax: real, confMin: real, confMax: real,
      t: real, s: real, v: real, w: real)
    requires t == Scale(TempShare(c, inp.temp), Greater(Abs(confMin), Abs(confMax)))
    requires s == Scale(SocShare(c, inp.soc), Abs(confMax)) && v == Scale(VminShare(c, inp.vmin), Abs(confMax))
    requires w == Scale(VmaxShare(c, inp.vmax), Abs(confMin))
    ensures var max := Lesser(Lesser(t, s), Lesser(v, Abs(confMax)));
            NewMax(c, inp, iInMax, confMin, confMax)
            == if Abs(iInMax) <= max then iInMax else if confMax < 0.0 then -max else max
    ensures var min := Lesser(t, Lesser(w, Abs(confMin)));
            NewMin(c, inp, iInMin, confMin, confMax)
            == if Abs(iInMin) <= min then iInMin else if confMin < 0.0 then -min else min
  {
    hide Scale, TempShare, SocShare, VminShare, VmaxShare, Greater, Lesser, Abs;
  }

  // A tracker beyond the end of an enabled limit takes the current away altogether.
  lemma {:induction false} CutOffs(
      c: LimitConfig, inp: Inputs, iInMin: real, iInMax: real, confMin: real, confMax: real)
    ensures c.limitMode % 2 == 1 && inp.temp.Some?
            && c.tStart + 0.1 <= inp.temp.value && c.tEnd - 0.1 < inp.temp.value ==>
              NewMax(c, inp, iInMax, confMin, confMax) == NewMin(c, inp, iInMin, confMin, confMax) == 0.0
    ensures c.limitMode / 2 % 2 == 1 && inp.soc.Some?
            && inp.soc.value <= c.socStart - 0.001 && inp.soc.value < c.socEnd + 0.001 ==>
              NewMax(c, inp, iInMax, confMin, confMax) == 0.0
    ensures c.limitMode / 4 % 2 == 1 && inp.vmin.Some?
            && inp.vmin.value <= c.vminStart - 0.001 && inp.vmin.value < c.vminEnd + 0.001 ==>
              NewMax(c, inp, iInMax, confMin, confMax) == 0.0
    ensures c.limitMode / 8 % 2 == 1 && inp.vmax.Some?
            && c.vmaxStart + 0.001 <= inp.vmax.value && c.vmaxEnd - 0.001 < inp.vmax.value ==>
              NewMin(c, inp, iInMin, confMin, confMax) == 0.0
  {
    Magnitudes(c, inp, confMin, confMax);
    var larger := Greater(Abs(confMin), Abs(confMax));
    NothingOf(larger);
    NothingOf(Abs(confMax));
    NothingOf(Abs(confMin));
    hide Scale;
  }

  lemma NothingOf(current: real)
    ensures Scale(0.0, current) == 0.0 && Scale(1.0, current) == current
  {
  }

  // Where no enabled limit of a live tracker has set in, each limit is the one of lesser magnitude of the
  // incoming and the configured current.
  lemma {:induction false} NoLimit(
      c: LimitConfig, inp: Inputs, iInMin: real, iInMax: real, confMin: real, confMax: real)
    requires c.limitMode % 2 == 1 && inp.temp.Some? ==> inp.temp.value < c.tStart + 0.1
    requires c.limitMode / 2 % 2 == 1 && inp.soc.Some? ==> c.socStart - 0.001 < inp.soc.value
    requires c.limitMode / 4 % 2 == 1 && inp.vmin.Some? ==> c.vminStart - 0.001 < inp.vmin.value
    requires c.limitMode / 8 % 2 == 1 && inp.vmax.Some? ==> inp.vmax.value < c.vmaxStart + 0.001
    ensures NewMax(c, inp, iInMax, confMin, confMax)
         == if Abs(iInMax) <= Abs(confMax) then iInMax else confMax
    ensures NewMin(c, inp, iInMin, confMin, confMax)
         == if Abs(iInMin) <= Abs(confMin) then iInMin else confMin
  {
    hide NewMax, NewMin, Scale;
    NothingOf(Greater(Abs(confMin), Abs(confMax)));
    NothingOf(Abs(confMax));
    NothingOf(Abs(confMin));
    LimitsAreExact(c, inp, iInMin, iInMax, confMin, confMax, 1.0, 1.0, 1.0, 1.0);
  }
}
