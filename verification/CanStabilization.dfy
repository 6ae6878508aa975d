/** A transmission that ran without contention leaves the receiver ready for the next one of the
    same length, whatever stale offsets and contents it found (comm/comm_can.c:443-505, 1622-1747). */
module CanStabilization {
  import opened Bytes
  import opened CanFrames
  import opened CanReassembly

  // The receiver during the rest of a transmission, from the fragment at offset i on.
  function Accepting(p: Params, r: Rx, m: Message, i: int): (res: (Rx, seq<Delivery>))
    requires p.Valid() && InRange(p, r) && 0 <= i <= |m.payload| <= p.size
    ensures InRange(p, res.0)
    decreases |m.payload| - i
  {
    var len := |m.payload|;
    if i == len then Finish(p, Address(r, m.from, m.send), m.send, len, p.crc(m.payload), false)
    else Accepting(p, Fill(p, r, i, m.payload[i..Next(len, i)]), m, Next(len, i))
  }

  // One frame of the sender is one Fill, respectively Finish, of the receiver.
  lemma StepOfFragment(p: Params, r: Rx, payload: seq<byte>, i: int)
    requires p.Valid() && InRange(p, r) && 0 <= i < |payload| <= p.size
    ensures Step(p, r, FrameAt(payload, i)) == (Fill(p, r, i, payload[i..Next(|payload|, i)]), [])
  {
    FrameAtReadsBack(payload, i);
  }

  lemma StepOfTrailer(p: Params, r: Rx, m: Message)
    requires p.Valid() && InRange(p, r) && |m.payload| <= p.size
    ensures Step(p, r, Trailer(m, p.crc))
         == Finish(p, Address(r, m.from, m.send), m.send, |m.payload|, p.crc(m.payload), false)
  {
  }

  lemma RunCons(p: Params, r: Rx, f: Frame, rest: seq<Frame>)
    requires p.Valid() && InRange(p, r)
    ensures var (r1, d1) := Step(p, r, f);
            var (r2, d2) := Run(p, r1, rest);
            Run(p, r, [f] + rest) == (r2, d1 + d2)
  {
    assert ([f] + rest)[1..] == rest;
  }

  lemma {:induction false} RunOfTransmission(p: Params, r: Rx, m: Message, i: int)
    requires p.Valid() && InRange(p, r) && 0 <= i <= |m.payload| <= p.size
    ensures Run(p, r, Fills(m.payload, i) + [Trailer(m, p.crc)]) == Accepting(p, r, m, i)
    decreases |m.payload| - i
  {
    var len, t := |m.payload|, Trailer(m, p.crc);
    if i == len {
      StepOfTrailer(p, r, m);
      RunCons(p, r, t, []);
      assert Fills(m.payload, i) + [t] == [t] + [];
      assert Step(p, r, t).1 + [] == Step(p, r, t).1;
    } else {
      var f, j := FrameAt(m.payload, i), Next(len, i);
      StepOfFragment(p, r, m.payload, i);
      RunOfTransmission(p, Fill(p, r, i, m.payload[i..j]), m, j);
      RunCons(p, r, f, Fills(m.payload, j) + [t]);
      assert Fills(m.payload, i) + [t] == [f] + (Fills(m.payload, j) + [t]);
      assert [] + Accepting(p, r, m, i).1 == Accepting(p, r, m, i).1;
    }
  }

  // k is an offset at which a payload of length len is cut, at i or later; len itself included.
  predicate IsCut(len: int, i: int, k: int)
    requires i <= len
    decreases len - i
  {
    k == i || (i < len && IsCut(len, Next(len, i), k))
  }

  // A transmission that has reached offset i in buffer c, with no lower buffer at a later cut, arrives.
  lemma {:induction false} Undisturbed(p: Params, r: Rx, m: Message, i: int, c: int)
    requires p.Valid() && InRange(p, r) && 1 <= i <= |m.payload| <= p.size
    requires 0 <= c < p.num && r.offs[c] == i && r.bufs[c][..i] == m.payload[..i]
    requires forall b :: 0 <= b < c ==> !IsCut(|m.payload|, i, r.offs[b])
    ensures Accepting(p, r, m, i).1 == Deliver(m.send, m.payload)
    ensures Accepting(p, r, m, i).0.offs == r.offs[c := 0]
    decreases |m.payload| - i
  {
    var len := |m.payload|;
    assert FirstAt(r.offs, i) == c;
    if i == len {
      assert m.payload[..i] == m.payload;
    } else {
      var j := Next(len, i);
      var r1 := Fill(p, r, i, m.payload[i..j]);
      assert m.payload[..j] == m.payload[..i] + m.payload[i..j];
      Undisturbed(p, r1, m, j, c);
      assert r1.offs[c := 0] == r.offs[c := 0];
    }
  }

  // A transmission at offset i in buffer c ends by freeing a buffer d <= c. Everything below d is as
  // before and stands at none of the offsets the transmission still had to pass.
  lemma {:induction false} FreesLowestDiverter(p: Params, r: Rx, m: Message, i: int, c: int) returns (d: int)
    requires p.Valid() && InRange(p, r) && 1 <= i <= |m.payload| <= p.size
    requires 0 <= c < p.num && r.offs[c] == i
    ensures 0 <= d <= c && Accepting(p, r, m, i).0.offs[d] == 0
    ensures forall b :: 0 <= b < d ==>
              Accepting(p, r, m, i).0.offs[b] == r.offs[b] && !IsCut(|m.payload|, i, r.offs[b])
    decreases |m.payload| - i
  {
    var len := |m.payload|;
    d := FirstAt(r.offs, i);
    if i < len {
      var j := Next(len, i);
      d := FreesLowestDiverter(p, Fill(p, r, i, m.payload[i..j]), m, j, d);
    }
  }

  // The buffer a new transmission starts in.
  function Start(r: Rx): (c: int)
    requires 1 <= |r.offs|
    ensures 0 <= c < |r.offs|
    ensures forall b :: 0 <= b < c ==> r.offs[b] != 0
  {
    Target(r.offs, 0)
  }

  // A transmission reaches its end intact if no buffer below its own stands at one of its cuts.
  lemma {:induction false} ArrivesUnlessDiverted(p: Params, r: Rx, m: Message)
    requires p.Valid() && InRange(p, r) && 7 <= |m.payload| <= p.size
    requires forall b :: 0 <= b < Start(r) ==> !IsCut(|m.payload|, Next(|m.payload|, 0), r.offs[b])
    ensures Run(p, r, Transmission(m, p.crc)).1 == Deliver(m.send, m.payload)
    ensures Run(p, r, Transmission(m, p.crc)).0.offs == r.offs[Start(r) := 0]
  {
    var len := |m.payload|;
    var c, j := Start(r), Next(len, 0);
    var r1 := Fill(p, r, 0, m.payload[0..j]);
    RunOfTransmission(p, r, m, 0);
    assert r1.bufs[c][..j] == m.payload[..j];
    Undisturbed(p, r1, m, j, c);
    assert r1.offs[c := 0] == r.offs[c := 0];
  }

  // A transmission ends in another buffer than it started in iff a lower buffer stands at one of its
  // cuts, and then in a lower one; Start afterwards is the buffer that was freed.
  lemma {:induction false} DivertedIff(p: Params, r: Rx, m: Message)
    requires p.Valid() && InRange(p, r) && 7 <= |m.payload| <= p.size
    ensures var freed := Start(Run(p, r, Transmission(m, p.crc)).0);
            && freed <= Start(r)
            && Run(p, r, Transmission(m, p.crc)).0.offs[freed] == 0
            && (freed < Start(r) <==>
                  exists b :: 0 <= b < Start(r) && IsCut(|m.payload|, Next(|m.payload|, 0), r.offs[b]))
  {
    var len := |m.payload|;
    var c, j := Start(r), Next(len, 0);
    var r1 := Fill(p, r, 0, m.payload[0..j]);
    RunOfTransmission(p, r, m, 0);
    var d := FreesLowestDiverter(p, r1, m, j, c);
    assert Accepting(p, r, m, 0) == Accepting(p, r1, m, j);
    assert forall b :: 0 <= b < c ==> r1.offs[b] == r.offs[b];
    if forall b :: 0 <= b < c ==> !IsCut(len, j, r.offs[b]) {
      ArrivesUnlessDiverted(p, r, m);
    }
    hide IsCut, Fill, Transmission, Run;
  }

  // Self-stabilisation: from any state, after one transmission of |m| bytes, whatever became of it,
  // the next transmission of as many bytes arrives intact, and so does every one after it.
  lemma {:induction false} RetryArrives(p: Params, r: Rx, m: Message, retry: Message)
    requires p.Valid() && InRange(p, r) && 7 <= |m.payload| == |retry.payload| <= p.size
    ensures var r1 := Run(p, r, Transmission(m, p.crc)).0;
            var (r2, out) := Run(p, r1, Transmission(retry, p.crc));
            && out == Deliver(retry.send, retry.payload)
            && Start(r1) <= Start(r)
            && r2.offs == r1.offs
  {
    var len := |m.payload|;
    var c, j := Start(r), Next(len, 0);
    RunOfTransmission(p, r, m, 0);
    var d := FreesLowestDiverter(p, Fill(p, r, 0, m.payload[0..j]), m, j, c);
    var r1 := Run(p, r, Transmission(m, p.crc)).0;
    assert Start(r1) == d;
    ArrivesUnlessDiverted(p, r1, retry);
    assert r1.offs[d := 0] == r1.offs;
  }

  // The same payload sent twice in a row is delivered at least once, for each of the four send codes.
  lemma {:induction false} SentTwiceArrives(p: Params, r: Rx, m: Message)
    requires p.Valid() && InRange(p, r) && 7 <= |m.payload| <= p.size && m.send <= 3
    ensures var out := Run(p, r, Transmission(m, p.crc) + Transmission(m, p.crc)).1;
            KindOf(m.send).Some? && Delivery(KindOf(m.send).value, m.payload) in out
  {
    RetryArrives(p, r, m, m);
    RunConcat(p, r, Transmission(m, p.crc), Transmission(m, p.crc));
  }

  // How many of the transmissions, sent one after the other, do not deliver exactly their payload.
  function Lost(p: Params, r: Rx, ms: seq<Message>): nat
    requires p.Valid() && InRange(p, r) && forall m <- ms :: 7 <= |m.payload| <= p.size
    decreases |ms|
  {
    if ms == [] then 0
    else
      var (r1, out) := Run(p, r, Transmission(ms[0], p.crc));
      (if out == Deliver(ms[0].send, ms[0].payload) then 0 else 1) + Lost(p, r1, ms[1..])
  }

  // Whatever the receiver's state and the lengths of the payloads, each transmission that is lost moves
  // the next one to a lower buffer, so fewer than RX_BUFFER_NUM are ever lost.
  lemma {:induction false} LossesAreBounded(p: Params, r: Rx, ms: seq<Message>)
    requires p.Valid() && InRange(p, r) && forall m <- ms :: 7 <= |m.payload| <= p.size
    ensures Lost(p, r, ms) <= Start(r) <= p.num - 1
    decreases |ms|
  {
    if ms != [] {
      var m := ms[0];
      DivertedIff(p, r, m);
      if forall b :: 0 <= b < Start(r) ==> !IsCut(|m.payload|, Next(|m.payload|, 0), r.offs[b]) {
        ArrivesUnlessDiverted(p, r, m);
      }
      hide Run, Transmission, IsCut, Next, Deliver;
      LossesAreBounded(p, Run(p, r, Transmission(m, p.crc)).0, ms[1..]);
    }
  }

  lemma {:induction false} FillsNameCommand(payload: seq<byte>, i: int)
    requires 0 <= i <= |payload| < 0x1_0000
    ensures forall f <- Fills(payload, i) :: !f.replaced && NamesCommand(f)
    decreases |payload| - i
  {
    if i < |payload| {
      FillsNameCommand(payload, Next(|payload|, i));
    }
  }

  // A payload for the second motor of the same controller, sent twice in a row, arrives the second time
  // iff its command is not blocked.
  lemma {:induction false} LocalRetryArrives(p: Params, r: Rx, m: Message)
    requires p.Valid() && InRange(p, r) && 7 <= |m.payload| <= p.size
    ensures var fs := Locals(Transmission(m, p.crc));
            Run(p, Run(p, r, fs).0, fs).1 == if Blocked(m.payload[0]) then [] else Deliver(m.send, m.payload)
  {
    var fs := Transmission(m, p.crc);
    FillsNameCommand(m.payload, 0);
    assert forall f <- fs :: !f.replaced && NamesCommand(f);
    RetryArrives(p, r, m, m);
    hide Transmission, Run, NamesCommand;
    RunLocal(p, r, fs);
    var r1 := Run(p, r, fs).0;
    RunLocal(p, r1, fs);
    assert Admitted([]) == [];
    if Deliver(m.send, m.payload) != [] {
      AdmittedOne(Deliver(m.send, m.payload)[0]);
    }
  }

  lemma {:induction false} RunConcat(p: Params, r: Rx, a: seq<Frame>, b: seq<Frame>)
    requires p.Valid() && InRange(p, r)
    ensures var (r1, d1) := Run(p, r, a);
            var (r2, d2) := Run(p, r1, b);
            Run(p, r, a + b) == (r2, d1 + d2)
    decreases |a|
  {
    hide Step, InRange;
    if a == [] {
      assert a + b == b;
      assert [] + Run(p, r, b).1 == Run(p, r, b).1;
    } else {
      var (r1, d1) := Step(p, r, a[0]);
      RunConcat(p, r1, a[1..], b);
      RunCons(p, r, a[0], a[1..] + b);
      assert a + b == [a[0]] + (a[1..] + b);
      var (r2, d2) := Run(p, r1, a[1..]);
      assert d1 + (d2 + Run(p, r2, b).1) == d1 + d2 + Run(p, r2, b).1;
    }
  }
}
