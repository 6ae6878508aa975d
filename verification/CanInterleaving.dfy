/** Several transmissions share the receiver's buffers (comm/comm_can.c:1622-1747). A schedule picks
    whose next frame arrives; while no two started transmissions stand at the same offset, none at that
    of a buffer that was stale at the start, and the idle buffers suffice, each one is delivered intact. */
module CanInterleaving {
  import opened CanFrames
  import opened CanReassembly
  import opened CanStabilization

  // How far a sender has come: the offset its next frame continues at.
  datatype Progress = At(pos: int) | Done

  predicate InProgress(s: Progress) { s.At? && 0 < s.pos }

  predicate Short(m: Message) { |m.payload| <= 6 }

  predicate Fits(p: Params, ms: seq<Message>, ps: seq<Progress>) {
    && |ms| == |ps|
    && forall t :: 0 <= t < |ms| ==>
         && |ms[t].payload| <= p.size
         && (ps[t].At? ==> if Short(ms[t]) then ps[t].pos == 0 else 0 <= ps[t].pos <= |ms[t].payload|)
  }

  function Emit(p: Params, m: Message, pos: int): Frame
    requires p.Valid() && 0 <= pos <= |m.payload| <= p.size
  {
    if Short(m) then Transmit(ProcessShortBuffer, [m.from, m.send] + m.payload)
    else if pos < |m.payload| then FrameAt(m.payload, pos)
    else Trailer(m, p.crc)
  }

  function Advance(m: Message, pos: int): (s: Progress)
    requires 0 <= pos <= |m.payload|
    ensures s.At? ==> pos < s.pos <= |m.payload| && !Short(m)
  {
    if Short(m) || pos == |m.payload| then Done else At(Next(|m.payload|, pos))
  }

  function Moved(ms: seq<Message>, ps: seq<Progress>, t: int): seq<Progress>
    requires 0 <= t < |ms| == |ps| && ps[t].At? && 0 <= ps[t].pos <= |ms[t].payload|
  {
    ps[t := Advance(ms[t], ps[t].pos)]
  }

  ghost function Started(ps: seq<Progress>): set<int> { set t | 0 <= t < |ps| && InProgress(ps[t]) }

  // The buffers that stand in the middle of a payload nobody continues.
  ghost function Stales(start: Rx): set<int> { set b | 0 <= b < |start.offs| && start.offs[b] != 0 }

  ghost predicate Apart(p: Params, start: Rx, ps: seq<Progress>) {
    && |Started(ps)| + |Stales(start)| <= p.num
    && (forall t, u :: 0 <= t < u < |ps| && InProgress(ps[t]) && InProgress(ps[u]) ==> ps[t].pos != ps[u].pos)
    && (forall t, b :: 0 <= t < |ps| && InProgress(ps[t]) && 0 <= b < |start.offs| ==> start.offs[b] != ps[t].pos)
  }

  ghost predicate Contained(p: Params, start: Rx, ms: seq<Message>, ps: seq<Progress>, schedule: seq<int>)
    requires Fits(p, ms, ps)
    decreases |schedule|
  {
    schedule == [] ||
    var t := schedule[0];
    && 0 <= t < |ps| && ps[t].At?
    && Apart(p, start, Moved(ms, ps, t))
    && Contained(p, start, ms, Moved(ms, ps, t), schedule[1..])
  }

  function Fresh(ms: seq<Message>): (ps: seq<Progress>)
    ensures |ps| == |ms| && forall t :: 0 <= t < |ps| ==> ps[t] == At(0)
  {
    seq(|ms|, _ => At(0))
  }

  // The frames in the order they arrive, and where the senders stand afterwards.
  ghost function Frames(p: Params, start: Rx, ms: seq<Message>, ps: seq<Progress>, schedule: seq<int>): seq<Frame>
    requires p.Valid() && Fits(p, ms, ps) && Contained(p, start, ms, ps, schedule)
    decreases |schedule|
  {
    if schedule == [] then [] else
      var t := schedule[0];
      [Emit(p, ms[t], ps[t].pos)] + Frames(p, start, ms, Moved(ms, ps, t), schedule[1..])
  }

  ghost function Final(p: Params, start: Rx, ms: seq<Message>, ps: seq<Progress>, schedule: seq<int>)
      : (qs: seq<Progress>)
    requires p.Valid() && Fits(p, ms, ps) && Contained(p, start, ms, ps, schedule)
    ensures |qs| == |ps|
    decreases |schedule|
  {
    if schedule == [] then ps else Final(p, start, ms, Moved(ms, ps, schedule[0]), schedule[1..])
  }

  // What should come out: each payload when the last frame of its transmission arrives.
  ghost function Expected(p: Params, start: Rx, ms: seq<Message>, ps: seq<Progress>, schedule: seq<int>): seq<Delivery>
    requires p.Valid() && Fits(p, ms, ps) && Contained(p, start, ms, ps, schedule)
    decreases |schedule|
  {
    if schedule == [] then [] else
      var t := schedule[0];
      (if Moved(ms, ps, t)[t].Done? then Deliver(ms[t].send, ms[t].payload) else [])
      + Expected(p, start, ms, Moved(ms, ps, t), schedule[1..])
  }

  // A sender that is scheduled to its end has sent exactly what SendBuffer sends.
  ghost function Remaining(p: Params, m: Message, s: Progress): (fs: seq<Frame>)
    requires p.Valid() && |m.payload| <= p.size && (s.At? ==> 0 <= s.pos <= |m.payload| && (Short(m) ==> s.pos == 0))
    decreases if s.At? then 1 + |m.payload| - s.pos else 0
  {
    if s.Done? then [] else [Emit(p, m, s.pos)] + Remaining(p, m, Advance(m, s.pos))
  }

  lemma {:induction false} RemainingIsTransmission(p: Params, m: Message, pos: int)
    requires p.Valid() && 0 <= pos <= |m.payload| <= p.size && !Short(m)
    ensures Remaining(p, m, At(pos)) == Fills(m.payload, pos) + [Trailer(m, p.crc)]
    decreases |m.payload| - pos
  {
    hide FrameAt, Trailer;
    if pos < |m.payload| {
      RemainingIsTransmission(p, m, Next(|m.payload|, pos));
    }
  }

  lemma WholeTransmission(p: Params, m: Message)
    requires p.Valid() && |m.payload| <= p.size
    ensures Remaining(p, m, At(0)) == Transmission(m, p.crc)
  {
    if !Short(m) {
      RemainingIsTransmission(p, m, 0);
    }
  }

  // owner[b] is the transmission that buffer b collects, -1 if it is idle, -2 if it is stale.
  ghost predicate Owns(p: Params, start: Rx, r: Rx, ms: seq<Message>, ps: seq<Progress>, b: int, t: int)
    requires InRange(p, start) && InRange(p, r) && Fits(p, ms, ps) && 0 <= b < p.num
  {
    && (t == -2 <==> start.offs[b] != 0)
    && if t == -1 then r.offs[b] == 0
       else if t == -2 then r.offs[b] == start.offs[b] && r.bufs[b] == start.bufs[b]
       else
         && 0 <= t < |ms| && InProgress(ps[t])
         && r.offs[b] == ps[t].pos
         && r.bufs[b][..ps[t].pos] == ms[t].payload[..ps[t].pos]
  }

  ghost predicate Injective(owner: seq<int>) {
    forall b, c :: 0 <= b < c < |owner| && owner[b] == owner[c] ==> owner[b] < 0
  }

  ghost predicate Inv(p: Params, start: Rx, r: Rx, ms: seq<Message>, ps: seq<Progress>, owner: seq<int>)
    requires InRange(p, start) && InRange(p, r) && Fits(p, ms, ps)
  {
    && Apart(p, start, ps)
    && |owner| == p.num
    && (forall b :: 0 <= b < p.num ==> Owns(p, start, r, ms, ps, b, owner[b]))
    && (forall t :: 0 <= t < |ms| && InProgress(ps[t]) ==> t in owner)
    && Injective(owner)
  }

  ghost function Range(owner: seq<int>): set<int> { set b | 0 <= b < |owner| && 0 <= owner[b] :: owner[b] }

  ghost function Marked(owner: seq<int>): set<int> { set b | 0 <= b < |owner| && owner[b] < 0 }

  lemma RangeSnoc(rest: seq<int>, t: int)
    ensures Range(rest + [t]) == if t < 0 then Range(rest) else Range(rest) + {t}
  {
    var owner := rest + [t];
    forall u | u in Range(rest)
      ensures u in Range(owner)
    {
      var b :| 0 <= b < |rest| && 0 <= rest[b] && rest[b] == u;
      assert owner[b] == u;
    }
    if 0 <= t {
      assert owner[|rest|] == t;
    }
  }

  lemma MarkedSnoc(rest: seq<int>, t: int)
    ensures Marked(rest + [t]) == if t < 0 then Marked(rest) + {|rest|} else Marked(rest)
  {
  }

  lemma {:induction false} RangeSize(owner: seq<int>)
    requires Injective(owner)
    ensures |Range(owner)| + |Marked(owner)| == |owner|
  {
    if owner == [] {
      assert Range(owner) == {} && Marked(owner) == {};
    } else {
      var n := |owner| - 1;
      var rest, t := owner[..n], owner[n];
      assert owner == rest + [t];
      assert 0 <= t ==> t !in rest;
      RangeSize(rest);
      RangeSnoc(rest, t);
      MarkedSnoc(rest, t);
      assert n !in Marked(rest);
    }
  }

  lemma StalesFit(p: Params, r: Rx)
    requires p.Valid() && InRange(p, r)
    ensures |Stales(r)| <= p.num
  {
    var owner := seq(p.num, b requires 0 <= b < p.num => if r.offs[b] == 0 then b else -2);
    RangeSize(owner);
    assert Marked(owner) == Stales(r);
  }

  lemma SubsetSize(a: set<int>, b: set<int>)
    requires a <= b
    ensures |a| <= |b|
  {
    assert b == a + (b - a);
  }

  lemma OwnersAreStarted(p: Params, start: Rx, r: Rx, ms: seq<Message>, ps: seq<Progress>, owner: seq<int>)
    requires p.Valid() && InRange(p, start) && InRange(p, r) && Fits(p, ms, ps) && Inv(p, start, r, ms, ps, owner)
    requires -1 !in owner
    ensures Range(owner) <= Started(ps) && Marked(owner) <= Stales(start)
  {
    forall b | 0 <= b < p.num
      ensures owner[b] != -1 && (if owner[b] < 0 then b in Stales(start) else owner[b] in Started(ps))
    {
      assert owner[b] in owner;
      assert Owns(p, start, r, ms, ps, b, owner[b]);
    }
  }

  // Pigeonhole: a transmission may start only if a buffer is idle.
  lemma IdleBufferExists(p: Params, start: Rx, r: Rx, ms: seq<Message>, ps: seq<Progress>, owner: seq<int>, t: int)
    requires p.Valid() && InRange(p, start) && InRange(p, r) && Fits(p, ms, ps) && Inv(p, start, r, ms, ps, owner)
    requires 0 <= t < |ms| && ps[t] == At(0) && !Short(ms[t])
    requires Apart(p, start, Moved(ms, ps, t))
    ensures var b := FirstAt(r.offs, 0); 0 <= b < p.num && owner[b] == -1
  {
    var b := FirstAt(r.offs, 0);
    assert Started(Moved(ms, ps, t)) == Started(ps) + {t};
    if -1 !in owner {
      RangeSize(owner);
      OwnersAreStarted(p, start, r, ms, ps, owner);
      SubsetSize(Range(owner), Started(ps));
      SubsetSize(Marked(owner), Stales(start));
    }
    var c :| 0 <= c < p.num && owner[c] == -1;
    assert Owns(p, start, r, ms, ps, c, -1);
    assert Owns(p, start, r, ms, ps, b, owner[b]);
  }

  // The buffer a started transmission finds is its own.
  lemma FindsOwn(p: Params, start: Rx, r: Rx, ms: seq<Message>, ps: seq<Progress>, owner: seq<int>, t: int)
    requires p.Valid() && InRange(p, start) && InRange(p, r) && Fits(p, ms, ps) && Inv(p, start, r, ms, ps, owner)
    requires 0 <= t < |ms| && InProgress(ps[t])
    ensures var b := FirstAt(r.offs, ps[t].pos); 0 <= b < p.num && owner[b] == t
  {
    var c :| 0 <= c < p.num && owner[c] == t;
    assert Owns(p, start, r, ms, ps, c, t);
    var b := FirstAt(r.offs, ps[t].pos);
    assert Owns(p, start, r, ms, ps, b, owner[b]);
  }

  // A buffer the step does not touch keeps its transmission, if that is not the one that moved.
  lemma OthersKeep(
      p: Params, start: Rx, r: Rx, r1: Rx, ms: seq<Message>, ps: seq<Progress>, owner: seq<int>, t: int, c: int)
    requires p.Valid() && InRange(p, start) && InRange(p, r) && InRange(p, r1)
    requires Fits(p, ms, ps) && Inv(p, start, r, ms, ps, owner)
    requires 0 <= t < |ms| && ps[t].At? && Fits(p, ms, Moved(ms, ps, t))
    requires 0 <= c < p.num && r1.offs[c] == r.offs[c] && r1.bufs[c] == r.bufs[c] && owner[c] != t
    ensures Owns(p, start, r1, ms, Moved(ms, ps, t), c, owner[c])
  {
    assert Owns(p, start, r, ms, ps, c, owner[c]);
  }

  lemma Reassign(owner: seq<int>, b: int, t: int)
    requires Injective(owner) && 0 <= b < |owner|
    requires owner[b] == t || (owner[b] == -1 && t !in owner)
    ensures Injective(owner[b := t])
    ensures forall u :: u in owner && 0 <= u ==> u in owner[b := t]
    ensures t in owner[b := t]
  {
    var owner1 := owner[b := t];
    assert owner1[b] == t;
    forall u | u in owner && 0 <= u
      ensures u in owner1
    {
      var c :| 0 <= c < |owner| && owner[c] == u;
      assert owner1[c] == u;
    }
  }

  // A fill that goes to buffer b, idle or already collecting t, leaves it collecting t.
  lemma FillKeepsInv(p: Params, start: Rx, r: Rx, ms: seq<Message>, ps: seq<Progress>, owner: seq<int>, t: int, b: int)
    requires p.Valid() && InRange(p, start) && InRange(p, r) && Fits(p, ms, ps) && Inv(p, start, r, ms, ps, owner)
    requires 0 <= t < |ms| && ps[t].At? && !Short(ms[t]) && ps[t].pos < |ms[t].payload|
    requires Apart(p, start, Moved(ms, ps, t))
    requires 0 <= b < p.num && b == FirstAt(r.offs, ps[t].pos)
    requires if ps[t].pos == 0 then owner[b] == -1 else owner[b] == t
    ensures Fits(p, ms, Moved(ms, ps, t))
    ensures var i := ps[t].pos;
            var r1 := Fill(p, r, i, ms[t].payload[i..Next(|ms[t].payload|, i)]);
            Inv(p, start, r1, ms, Moved(ms, ps, t), owner[b := t])
  {
    var m, i := ms[t].payload, ps[t].pos;
    var j := Next(|m|, i);
    var r1, ps1, owner1 := Fill(p, r, i, m[i..j]), Moved(ms, ps, t), owner[b := t];
    assert i == 0 ==> t !in owner;
    assert Owns(p, start, r1, ms, ps1, b, t) by {
      assert m[..j] == m[..i] + m[i..j];
      assert Owns(p, start, r, ms, ps, b, owner[b]);
    }
    forall c | 0 <= c < p.num && c != b
      ensures Owns(p, start, r1, ms, ps1, c, owner1[c])
    {
      OthersKeep(p, start, r, r1, ms, ps, owner, t, c);
    }
    Reassign(owner, b, t);
    assert forall u :: 0 <= u < |ms| && u != t && InProgress(ps1[u]) ==> InProgress(ps[u]);
  }

  // The trailer of a transmission whose payload stands complete in buffer b.
  lemma TrailerDelivers(p: Params, r: Rx, m: Message, b: int)
    requires p.Valid() && InRange(p, r) && 6 < |m.payload| <= p.size
    requires b == FirstAt(r.offs, |m.payload|) && 0 <= b && r.bufs[b][..|m.payload|] == m.payload
    ensures var (r1, d) := Step(p, r, Trailer(m, p.crc));
            r1.bufs == r.bufs && r1.offs == r.offs[b := 0] && d == Deliver(m.send, m.payload)
  {
    StepOfTrailer(p, r, m);
    hide Deliver;
  }

  lemma FinishKeepsInv(p: Params, start: Rx, r: Rx, ms: seq<Message>, ps: seq<Progress>, owner: seq<int>, t: int)
    requires p.Valid() && InRange(p, start) && InRange(p, r) && Fits(p, ms, ps) && Inv(p, start, r, ms, ps, owner)
    requires 0 <= t < |ms| && !Short(ms[t]) && ps[t] == At(|ms[t].payload|)
    requires Apart(p, start, Moved(ms, ps, t))
    ensures Fits(p, ms, Moved(ms, ps, t))
    ensures var (r1, d) := Step(p, r, Emit(p, ms[t], ps[t].pos));
            && d == Deliver(ms[t].send, ms[t].payload)
            && Inv(p, start, r1, ms, Moved(ms, ps, t), owner[FirstAt(r.offs, ps[t].pos) := -1])
  {
    hide Step, Trailer, Apart;
    var m := ms[t];
    var len := |m.payload|;
    FindsOwn(p, start, r, ms, ps, owner, t);
    var b := FirstAt(r.offs, len);
    assert Owns(p, start, r, ms, ps, b, t);
    assert r.bufs[b][..len] == m.payload;
    TrailerDelivers(p, r, m, b);
    var r1, ps1, owner1 := Step(p, r, Trailer(m, p.crc)).0, Moved(ms, ps, t), owner[b := -1];
    forall c | 0 <= c < p.num
      ensures Owns(p, start, r1, ms, ps1, c, owner1[c])
    {
      if c != b {
        OthersKeep(p, start, r, r1, ms, ps, owner, t, c);
      }
    }
    hide Owns;
    forall u | 0 <= u < |ms| && InProgress(ps1[u])
      ensures u in owner1
    {
      var c :| 0 <= c < p.num && owner[c] == u;
      assert owner1[c] == u;
    }
  }

  lemma ShortKeepsInv(p: Params, start: Rx, r: Rx, ms: seq<Message>, ps: seq<Progress>, owner: seq<int>, t: int)
    requires p.Valid() && InRange(p, start) && InRange(p, r) && Fits(p, ms, ps) && Inv(p, start, r, ms, ps, owner)
    requires 0 <= t < |ms| && ps[t].At? && Short(ms[t])
    requires Apart(p, start, Moved(ms, ps, t))
    ensures Fits(p, ms, Moved(ms, ps, t))
    ensures var (r1, d) := Step(p, r, Emit(p, ms[t], ps[t].pos));
            && d == Deliver(ms[t].send, ms[t].payload)
            && Inv(p, start, r1, ms, Moved(ms, ps, t), owner)
  {
    var m, ps1 := ms[t], Moved(ms, ps, t);
    var f := Emit(p, m, ps[t].pos);
    assert f.data8[2..f.dlc] == m.payload;
    var r1 := Step(p, r, f).0;
    assert r1.bufs == r.bufs && r1.offs == r.offs;
    forall c | 0 <= c < p.num
      ensures Owns(p, start, r1, ms, ps1, c, owner[c])
    {
      assert Owns(p, start, r, ms, ps, c, owner[c]);
    }
  }

  lemma StepKeepsInv(p: Params, start: Rx, r: Rx, ms: seq<Message>, ps: seq<Progress>, owner: seq<int>, t: int)
    returns (owner1: seq<int>)
    requires p.Valid() && InRange(p, start) && InRange(p, r) && Fits(p, ms, ps) && Inv(p, start, r, ms, ps, owner)
    requires 0 <= t < |ms| && ps[t].At?
    requires Apart(p, start, Moved(ms, ps, t))
    ensures Fits(p, ms, Moved(ms, ps, t))
    ensures var (r1, d) := Step(p, r, Emit(p, ms[t], ps[t].pos));
            && d == (if Moved(ms, ps, t)[t].Done? then Deliver(ms[t].send, ms[t].payload) else [])
            && Inv(p, start, r1, ms, Moved(ms, ps, t), owner1)
  {
    hide Owns, Apart, Fill, FrameAt;
    var i := ps[t].pos;
    if Short(ms[t]) {
      ShortKeepsInv(p, start, r, ms, ps, owner, t);
      owner1 := owner;
    } else if i == |ms[t].payload| {
      FindsOwn(p, start, r, ms, ps, owner, t);
      FinishKeepsInv(p, start, r, ms, ps, owner, t);
      owner1 := owner[FirstAt(r.offs, i) := -1];
    } else {
      if i == 0 {
        IdleBufferExists(p, start, r, ms, ps, owner, t);
      } else {
        FindsOwn(p, start, r, ms, ps, owner, t);
      }
      FillKeepsInv(p, start, r, ms, ps, owner, t, FirstAt(r.offs, i));
      StepOfFragment(p, r, ms[t].payload, i);
      owner1 := owner[FirstAt(r.offs, i) := t];
    }
  }

  lemma {:induction false} ScheduleKeepsInv(
      p: Params, start: Rx, r: Rx, ms: seq<Message>, ps: seq<Progress>, schedule: seq<int>, owner: seq<int>)
    returns (owner1: seq<int>)
    requires p.Valid() && InRange(p, start) && InRange(p, r) && Fits(p, ms, ps) && Inv(p, start, r, ms, ps, owner)
    requires Contained(p, start, ms, ps, schedule)
    ensures var (r1, out) := Run(p, r, Frames(p, start, ms, ps, schedule));
            && out == Expected(p, start, ms, ps, schedule)
            && Fits(p, ms, Final(p, start, ms, ps, schedule))
            && Inv(p, start, r1, ms, Final(p, start, ms, ps, schedule), owner1)
    decreases |schedule|
  {
    hide Emit, Step, Inv, Apart;
    owner1 := owner;
    if schedule != [] {
      var t := schedule[0];
      owner1 := StepKeepsInv(p, start, r, ms, ps, owner, t);
      var ps1 := Moved(ms, ps, t);
      var f := Emit(p, ms[t], ps[t].pos);
      owner1 := ScheduleKeepsInv(p, start, Step(p, r, f).0, ms, ps1, schedule[1..], owner1);
      RunCons(p, r, f, Frames(p, start, ms, ps1, schedule[1..]));
    }
  }

  ghost predicate AllIdle(p: Params, r: Rx)
    requires InRange(p, r)
  {
    forall b :: 0 <= b < p.num ==> r.offs[b] == 0
  }

  // With an idle receiver only the transmissions themselves have to keep apart.
  lemma IdleApart(p: Params, start: Rx, ps: seq<Progress>)
    requires p.Valid() && InRange(p, start) && AllIdle(p, start)
    ensures Apart(p, start, ps) <==>
              && |Started(ps)| <= p.num
              && forall t, u :: 0 <= t < u < |ps| && InProgress(ps[t]) && InProgress(ps[u]) ==> ps[t].pos != ps[u].pos
  {
    assert Stales(start) == {};
  }

  // From any state, every contained interleaving delivers every payload, intact and in the order in which
  // the transmissions end, and leaves the stale buffers as they were; when no transmission is left
  // unfinished, all offsets are as they were.
  lemma {:induction false} InterleavingsArrive(p: Params, r: Rx, ms: seq<Message>, schedule: seq<int>)
    requires p.Valid() && InRange(p, r)
    requires forall t :: 0 <= t < |ms| ==> |ms[t].payload| <= p.size
    requires Contained(p, r, ms, Fresh(ms), schedule)
    ensures var ps := Fresh(ms);
            var (r1, out) := Run(p, r, Frames(p, r, ms, ps, schedule));
            && out == Expected(p, r, ms, ps, schedule)
            && (forall b <- Stales(r) :: r1.offs[b] == r.offs[b] && r1.bufs[b] == r.bufs[b])
            && ((forall t :: 0 <= t < |ms| ==> !InProgress(Final(p, r, ms, ps, schedule)[t])) ==> r1.offs == r.offs)
  {
    var ps := Fresh(ms);
    var owner := seq(p.num, b requires 0 <= b < p.num => if r.offs[b] == 0 then -1 else -2);
    assert Started(ps) == {};
    StalesFit(p, r);
    assert Inv(p, r, r, ms, ps, owner);
    owner := ScheduleKeepsInv(p, r, r, ms, ps, schedule, owner);
    var r1, ps1 := Run(p, r, Frames(p, r, ms, ps, schedule)).0, Final(p, r, ms, ps, schedule);
    forall b | 0 <= b < p.num
      ensures r.offs[b] != 0 ==> r1.offs[b] == r.offs[b] && r1.bufs[b] == r.bufs[b]
      ensures r1.offs[b] != r.offs[b] ==> exists t :: 0 <= t < |ms| && InProgress(ps1[t])
    {
      assert Owns(p, r, r1, ms, ps1, b, owner[b]);
    }
  }
}
