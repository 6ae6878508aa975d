/** Who gets the reply to a payload, and what becomes of it there (comm/comm_can.c:1556-1558, 1675-1788). */
module CanReplies {
  import opened Bytes
  import opened CanFrames
  import opened CanReassembly
  import opened CanStabilization
  import opened CanInterleaving

  // ---- One transmission ----

  lemma {:induction false} AcceptingAddresses(p: Params, r: Rx, m: Message, i: int)
    requires p.Valid() && InRange(p, r) && 0 <= i <= |m.payload| <= p.size
    ensures Accepting(p, r, m, i).0.lastId == if m.send == 0 || m.send == 3 then m.from else r.lastId
    ensures Accepting(p, r, m, i).0.responseType == if m.send == 3 then 0 else 1
    decreases |m.payload| - i
  {
    if i < |m.payload| {
      var j := Next(|m.payload|, i);
      AcceptingAddresses(p, Fill(p, r, i, m.payload[i..j]), m, j);
    }
  }

  // From any state, with whatever it holds and whether or not the payload arrives: codes 0 and 3 make the
  // sender the one to reply to, the others do not; code 3 asks for a reply of code 0, the others of code 1.
  lemma {:induction false} SenderGetsReply(p: Params, r: Rx, m: Message)
    requires p.Valid() && InRange(p, r) && |m.payload| <= p.size
    ensures var r1 := Run(p, r, Transmission(m, p.crc)).0;
            && r1.lastId == (if m.send == 0 || m.send == 3 then m.from else r.lastId)
            && r1.responseType == (if m.send == 3 then 0 else 1)
  {
    if |m.payload| <= 6 {
      ShortRun(p, r, m);
    } else {
      RunOfTransmission(p, r, m, 0);
      AcceptingAddresses(p, r, m, 0);
    }
  }

  lemma ShortRun(p: Params, r: Rx, m: Message)
    requires p.Valid() && InRange(p, r) && |m.payload| <= 6
    ensures var (r1, out) := Run(p, r, Transmission(m, p.crc));
            && out == Deliver(m.send, m.payload)
            && r1.lastId == (if m.send == 0 || m.send == 3 then m.from else r.lastId)
            && r1.responseType == (if m.send == 3 then 0 else 1)
            && r1.offs == r.offs
  {
    var f := Transmit(ProcessShortBuffer, [m.from, m.send] + m.payload);
    assert f.data8[2..f.dlc] == m.payload;
    assert f.data8[0] == m.from && f.data8[1] == m.send;
    hide Transmit;
    RunCons(p, r, f, []);
    assert [f] + [] == [f];
  }

  // ---- Several at once ----

  // A payload that is processed with a reply, where the reply goes and the code it is sent with.
  datatype Request = Request(payload: seq<byte>, to: byte, code: byte)

  // What the receiver answers: the address is the one in force when a payload is processed.
  function Requests(p: Params, r: Rx, fs: seq<Frame>): seq<Request>
    requires p.Valid() && InRange(p, r)
    decreases |fs|
  {
    if fs == [] then []
    else
      var (r1, out) := Step(p, r, fs[0]);
      (if out != [] && out[0].kind == Process then [Request(out[0].payload, r1.lastId, r1.responseType)] else [])
      + Requests(p, r1, fs[1..])
  }

  // What it should answer: each sender that asks for a reply, when its transmission ends.
  ghost function Asked(p: Params, start: Rx, ms: seq<Message>, ps: seq<Progress>, schedule: seq<int>): seq<Request>
    requires p.Valid() && Fits(p, ms, ps) && Contained(p, start, ms, ps, schedule)
    decreases |schedule|
  {
    if schedule == [] then [] else
      var t := schedule[0];
      var m := ms[t];
      (if Moved(ms, ps, t)[t].Done? && (m.send == 0 || m.send == 3)
       then [Request(m.payload, m.from, if m.send == 3 then 0 else 1)] else [])
      + Asked(p, start, ms, Moved(ms, ps, t), schedule[1..])
  }

  lemma LastFrameAddresses(p: Params, r: Rx, m: Message, pos: int)
    requires p.Valid() && InRange(p, r) && 0 <= pos <= |m.payload| <= p.size && Advance(m, pos).Done?
    ensures var r1 := Step(p, r, Emit(p, m, pos)).0;
            && r1.lastId == (if m.send == 0 || m.send == 3 then m.from else r.lastId)
            && r1.responseType == (if m.send == 3 then 0 else 1)
  {
    if !Short(m) {
      StepOfTrailer(p, r, m);
    }
  }

  lemma {:induction false} ScheduleAnswers(
      p: Params, start: Rx, r: Rx, ms: seq<Message>, ps: seq<Progress>, schedule: seq<int>, owner: seq<int>)
    requires p.Valid() && InRange(p, start) && InRange(p, r) && Fits(p, ms, ps) && Inv(p, start, r, ms, ps, owner)
    requires Contained(p, start, ms, ps, schedule)
    ensures Requests(p, r, Frames(p, start, ms, ps, schedule)) == Asked(p, start, ms, ps, schedule)
    decreases |schedule|
  {
    hide Emit, Step, Inv, Apart;
    if schedule != [] {
      var t := schedule[0];
      var owner1 := StepKeepsInv(p, start, r, ms, ps, owner, t);
      var f, ps1 := Emit(p, ms[t], ps[t].pos), Moved(ms, ps, t);
      if ps1[t].Done? {
        LastFrameAddresses(p, r, ms[t], ps[t].pos);
      }
      ScheduleAnswers(p, start, Step(p, r, f).0, ms, ps1, schedule[1..], owner1);
      var rest := Frames(p, start, ms, ps1, schedule[1..]);
      assert ([f] + rest)[1..] == rest;
    }
  }

  // However transmissions are interleaved, as far as they keep apart: each payload that asks for a reply
  // is answered once, to its own sender, although others may have finished in between.
  lemma {:induction false} RepliesGoHome(p: Params, r: Rx, ms: seq<Message>, schedule: seq<int>)
    requires p.Valid() && InRange(p, r)
    requires forall t :: 0 <= t < |ms| ==> |ms[t].payload| <= p.size
    requires Contained(p, r, ms, Fresh(ms), schedule)
    ensures Requests(p, r, Frames(p, r, ms, Fresh(ms), schedule)) == Asked(p, r, ms, Fresh(ms), schedule)
  {
    var ps := Fresh(ms);
    var owner := seq(p.num, b requires 0 <= b < p.num => if r.offs[b] == 0 then -1 else -2);
    assert Started(ps) == {};
    StalesFit(p, r);
    assert Inv(p, r, r, ms, ps, owner);
    ScheduleAnswers(p, r, r, ms, ps, schedule, owner);
  }

  // ---- There and back ----

  lemma {:induction false} IdleReceives(p: Params, r: Rx, m: Message)
    requires p.Valid() && InRange(p, r) && r.offs[0] == 0 && |m.payload| <= p.size
    ensures Run(p, r, Transmission(m, p.crc)).1 == Deliver(m.send, m.payload)
  {
    hide Run, Transmission;
    if |m.payload| <= 6 {
      ShortRun(p, r, m);
    } else {
      ArrivesUnlessDiverted(p, r, m);
    }
  }

  // The reply function: the answer goes out with the stored response type as its send code.
  function Answer(r: Rx, answer: seq<byte>, id: byte): Message { Message(answer, r.responseType, id) }

  // A request of code 0 or 3 between two controllers whose first buffer is idle is processed, the answer is
  // addressed to the one that asked, and there an answer to code 0 is passed on to the interface the
  // request came from, and one to code 3 is processed.
  lemma {:induction false} AnswerComesBack(
      p: Params, there: Rx, here: Rx, m: Message, answer: seq<byte>, id: byte)
    requires p.Valid() && InRange(p, there) && InRange(p, here) && there.offs[0] == here.offs[0] == 0
    requires |m.payload| <= p.size && |answer| <= p.size && (m.send == 0 || m.send == 3)
    ensures var (asked, out) := Run(p, there, Transmission(m, p.crc));
            && out == [Delivery(Process, m.payload)]
            && asked.lastId == m.from
            && Run(p, here, Transmission(Answer(asked, answer, id), p.crc)).1
               == [Delivery(if m.send == 0 then ForwardToCanLast else Process, answer)]
  {
    SenderGetsReply(p, there, m);
    IdleReceives(p, there, m);
    var asked := Run(p, there, Transmission(m, p.crc)).0;
    IdleReceives(p, here, Answer(asked, answer, id));
    hide Run, Transmission;
  }
}
