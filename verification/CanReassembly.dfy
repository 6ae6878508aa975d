/** The receiver of fragmented buffers (decode_msg in comm/comm_can.c). Fragments carry no
    sender: a fill goes to the first buffer whose offset equals the offset in the frame. */
module CanReassembly {
  import opened Bytes
  import opened CanFrames

  // RX_BUFFER_NUM, RX_BUFFER_SIZE and crc16.
  datatype Params = Params(num: nat, size: nat, crc: seq<byte> -> word16) {
    predicate Valid() { 1 <= num && 262 <= size < 0x1_0000 }
  }

  // What a delivery does with the payload (commands_process_packet with and without a reply
  // function, commands_send_packet_can_last).
  datatype Kind = Process | ProcessNoReply | ForwardToCanLast

  datatype Delivery = Delivery(kind: Kind, payload: seq<byte>)

  datatype Rx = Rx(bufs: seq<seq<byte>>, offs: seq<int>, lastId: byte, responseType: byte)

  predicate InRange(p: Params, r: Rx) {
    && |r.bufs| == |r.offs| == p.num
    && (forall i :: 0 <= i < p.num ==> |r.bufs[i]| == p.size)
    && (forall i :: 0 <= i < p.num ==> 0 <= r.offs[i] <= p.size)
  }

  // The first buffer that stands at offset k, or -1.
  function FirstAt(offs: seq<int>, k: int): (b: int)
    ensures -1 <= b < |offs|
    ensures 0 <= b ==> offs[b] == k && forall i :: 0 <= i < b ==> offs[i] != k
    ensures b == -1 ==> forall i :: 0 <= i < |offs| ==> offs[i] != k
    decreases |offs|
  {
    if offs == [] then -1
    else
      var b := FirstAt(offs[..|offs| - 1], k);
      if 0 <= b then b else if offs[|offs| - 1] == k then |offs| - 1 else -1
  }

  // The buffer a fill at offset k goes to; buffer 0 is taken over when a payload starts and none is idle.
  function Target(offs: seq<int>, k: int): (b: int)
    requires 1 <= |offs|
    ensures -1 <= b < |offs|
    ensures b == -1 ==> k != 0
  {
    var b := FirstAt(offs, k);
    if b < 0 && k == 0 then 0 else b
  }

  function Overwrite(buf: seq<byte>, at: int, data: seq<byte>): (r: seq<byte>)
    requires 0 <= at <= at + |data| <= |buf|
    ensures |r| == |buf|
    ensures r[..at + |data|] == buf[..at] + data
  {
    buf[..at] + data + buf[at + |data|..]
  }

  lemma OverwriteAt(buf: seq<byte>, at: int, data: seq<byte>)
    requires 0 <= at <= at + |data| <= |buf|
    ensures forall j :: 0 <= j < |buf| ==>
              Overwrite(buf, at, data)[j] == if at <= j < at + |data| then data[j - at] else buf[j]
  {
  }

  function Fill(p: Params, r: Rx, k: int, data: seq<byte>): (r': Rx)
    requires p.Valid() && InRange(p, r) && 0 <= k
    ensures InRange(p, r')
  {
    var b := Target(r.offs, k);
    if b < 0 || p.size < k + |data| then r
    else r.(bufs := r.bufs[b := Overwrite(r.bufs[b], k, data)], offs := r.offs[b := k + |data|])
  }

  function KindOf(send: byte): Option<Kind> {
    if send == 0 || send == 3 then Some(Process)
    else if send == 1 then Some(ForwardToCanLast)
    else if send == 2 then Some(ProcessNoReply)
    else None
  }

  function Deliver(send: byte, payload: seq<byte>): seq<Delivery> {
    match KindOf(send) case Some(k) => [Delivery(k, payload)] case None => []
  }

  // The commands that the second motor of the same controller may not get: COMM_JUMP_TO_BOOTLOADER,
  // COMM_ERASE_NEW_APP, COMM_WRITE_NEW_APP_DATA, COMM_ERASE_BOOTLOADER, COMM_WRITE_NEW_APP_DATA_LZO.
  predicate Blocked(command: byte) {
    command == 1 || command == 2 || command == 3 || command == 73 || command == 81
  }

  // Who gets the reply, and how.
  function Address(r: Rx, from: byte, send: byte): Rx {
    r.(lastId := if send == 0 || send == 3 then from else r.lastId,
       responseType := if send == 3 then 0 else 1)
  }

  // The end of a transmission: the buffer standing at the announced length is freed and delivered if its CRC fits.
  function Finish(p: Params, r: Rx, send: byte, len: int, crc: word16, replaced: bool): (res: (Rx, seq<Delivery>))
    requires p.Valid() && InRange(p, r) && 0 <= len
    ensures InRange(p, res.0)
  {
    if p.size < len then (r, [])
    else
      var b := FirstAt(r.offs, len);
      if b < 0 then (r.(offs := seq(p.num, _ => 0)), [])
      else
        (r.(offs := r.offs[b := 0]),
         if p.crc(r.bufs[b][..len]) == crc && !(replaced && Blocked(r.bufs[b][0])) then Deliver(send, r.bufs[b][..len])
         else [])
  }

  function Step(p: Params, r: Rx, f: Frame): (res: (Rx, seq<Delivery>))
    requires p.Valid() && InRange(p, r)
    ensures InRange(p, res.0)
  {
    var d := f.data8;
    match f.cmd
    case FillRxBuffer => (Fill(p, r, Offset(f), Fragment(f)), [])
    case FillRxBufferLong => (Fill(p, r, Offset(f), Fragment(f)), [])
    case ProcessRxBuffer =>
      Finish(p, Address(r, d[0], d[1]), d[1], Join(d[2], d[3]), Join(d[4], d[5]), f.replaced)
    case ProcessShortBuffer =>
      (Address(r, d[0], d[1]), if f.replaced && Blocked(d[2]) then [] else Deliver(d[1], d[2..f.dlc]))
    case Unrelated => (r, [])
  }

  // The registers behind the data that was sent make no difference to a frame of this protocol.
  lemma PadIsIgnored(p: Params, r: Rx, f: Frame, g: Frame)
    requires p.Valid() && InRange(p, r)
    requires f.cmd == g.cmd && f.dlc == g.dlc && f.data8[..f.dlc] == g.data8[..g.dlc] && f.replaced == g.replaced
    requires f.cmd.ProcessRxBuffer? ==> 6 <= f.dlc
    requires f.cmd.ProcessShortBuffer? && f.replaced ==> 3 <= f.dlc
    ensures Step(p, r, f) == Step(p, r, g)
  {
    assert forall k :: 0 <= k < f.dlc ==> f.data8[k] == f.data8[..f.dlc][k] == g.data8[k];
    assert IsFill(f) ==> Offset(f) == Offset(g) && Fragment(f) == Fragment(g);
    assert f.cmd.ProcessShortBuffer? ==> f.data8[2..f.dlc] == g.data8[2..g.dlc];
  }

  function Run(p: Params, r: Rx, fs: seq<Frame>): (res: (Rx, seq<Delivery>))
    requires p.Valid() && InRange(p, r)
    ensures InRange(p, res.0)
    decreases |fs|
  {
    if fs == [] then (r, [])
    else
      var (r1, d1) := Step(p, r, fs[0]);
      var (r2, d2) := Run(p, r1, fs[1..]);
      (r2, d1 + d2)
  }

  // The same frame, sent to the second motor of the same controller.
  function Local(f: Frame): Frame { f.(replaced := true) }

  function Locals(fs: seq<Frame>): (ls: seq<Frame>)
    ensures |ls| == |fs|
  {
    seq(|fs|, i requires 0 <= i < |fs| => Local(fs[i]))
  }

  // The frame does not announce a payload without a first byte.
  predicate NamesCommand(f: Frame) {
    && (f.cmd.ProcessRxBuffer? ==> 1 <= Join(f.data8[2], f.data8[3]))
    && (f.cmd.ProcessShortBuffer? ==> 3 <= f.dlc)
  }

  function Admitted(out: seq<Delivery>): seq<Delivery> {
    if out == [] then []
    else (if out[0].payload != [] && Blocked(out[0].payload[0]) then [] else [out[0]]) + Admitted(out[1..])
  }

  lemma {:induction false} AdmittedConcat(a: seq<Delivery>, b: seq<Delivery>)
    ensures Admitted(a + b) == Admitted(a) + Admitted(b)
    decreases |a|
  {
    if a == [] {
      assert a + b == b;
    } else {
      assert (a + b)[1..] == a[1..] + b;
      AdmittedConcat(a[1..], b);
    }
  }

  lemma AdmittedOne(d: Delivery)
    ensures Admitted([d]) == if d.payload != [] && Blocked(d.payload[0]) then [] else [d]
  {
    assert [d][1..] == [];
  }

  lemma StepLocal(p: Params, r: Rx, f: Frame)
    requires p.Valid() && InRange(p, r) && !f.replaced && NamesCommand(f)
    ensures Step(p, r, Local(f)) == (Step(p, r, f).0, Admitted(Step(p, r, f).1))
  {
    var out := Step(p, r, f).1;
    assert Admitted([]) == [];
    if out != [] {
      AdmittedOne(out[0]);
      assert out == [out[0]];
    }
    if f.cmd.FillRxBuffer? || f.cmd.FillRxBufferLong? {
      assert Offset(Local(f)) == Offset(f) && Fragment(Local(f)) == Fragment(f);
    }
    hide Fill, InRange, Admitted, Blocked;
  }

  // Sent locally, frames do to the buffers what they do from the bus, and exactly the payloads that
  // start with a blocked command are not delivered.
  lemma {:induction false} RunLocal(p: Params, r: Rx, fs: seq<Frame>)
    requires p.Valid() && InRange(p, r) && forall f <- fs :: !f.replaced && NamesCommand(f)
    ensures Run(p, r, Locals(fs)) == (Run(p, r, fs).0, Admitted(Run(p, r, fs).1))
    decreases |fs|
  {
    if fs != [] {
      StepLocal(p, r, fs[0]);
      RunLocal(p, Step(p, r, fs[0]).0, fs[1..]);
      assert Locals(fs)[1..] == Locals(fs[1..]);
      AdmittedConcat(Step(p, r, fs[0]).1, Run(p, Step(p, r, fs[0]).0, fs[1..]).1);
      hide Step;
    }
  }

  class CanReceiver {
    const p: Params
    const rxBuffer: array2<byte>
    const rxBufferOffset: array<int>
    var rxBufferLastId: byte
    var rxBufferResponseType: byte

    ghost predicate Valid()
      reads rxBufferOffset
    {
      && p.Valid()
      && rxBuffer.Length0 == p.num && rxBuffer.Length1 == p.size
      && rxBufferOffset.Length == p.num
      && forall i :: 0 <= i < p.num ==> 0 <= rxBufferOffset[i] <= p.size
    }

    ghost function Row(i: int): (s: seq<byte>)
      requires 0 <= i < rxBuffer.Length0
      reads rxBuffer
      ensures |s| == rxBuffer.Length1
      ensures forall j :: 0 <= j < |s| ==> s[j] == rxBuffer[i, j]
    {
      seq(rxBuffer.Length1, j requires 0 <= j < rxBuffer.Length1 reads rxBuffer => rxBuffer[i, j])
    }

    // The abstract value: buffers, offsets and the reply address.
    ghost function State(): (r: Rx)
      requires Valid()
      reads this, rxBuffer, rxBufferOffset
      ensures InRange(p, r)
      ensures forall i :: 0 <= i < p.num ==> r.bufs[i] == Row(i)
    {
      Rx(seq(p.num, i requires 0 <= i < rxBuffer.Length0 reads rxBuffer => Row(i)), rxBufferOffset[..],
         rxBufferLastId, rxBufferResponseType)
    }

    constructor (p: Params)
      requires p.Valid()
      ensures Valid() && this.p == p && fresh(rxBuffer) && fresh(rxBufferOffset)
      ensures State() == Idle(p)
    {
      this.p := p;
      rxBuffer := new byte[p.num, p.size]((i, j) => 0);
      rxBufferOffset := new int[p.num](i => 0);
      rxBufferLastId, rxBufferResponseType := 0, 1;
      new;
      assert forall i :: 0 <= i < p.num ==> Row(i) == Idle(p).bufs[i];
      assert State().bufs == Idle(p).bufs;
      assert State().offs == Idle(p).offs;
    }

    // The search loop that all three buffer commands share.
    method FindBuffer(offset: int) returns (bufInd: int)
      requires Valid()
      ensures bufInd == FirstAt(rxBufferOffset[..], offset)
    {
      bufInd := -1;
      for i := 0 to p.num
        invariant forall j :: 0 <= j < i ==> rxBufferOffset[j] != offset
        invariant bufInd == -1
      {
        if rxBufferOffset[i] == offset {
          bufInd := i;
          break;
        }
      }
    }

    // memcpy(rx_buffer[bufInd] + offset, data, |data|)
    method Memcpy(bufInd: int, offset: int, data: seq<byte>)
      requires Valid() && 0 <= bufInd < p.num && 0 <= offset && offset + |data| <= p.size
      modifies rxBuffer
      ensures forall i :: 0 <= i < p.num && i != bufInd ==> Row(i) == old(Row(i))
      ensures Row(bufInd) == Overwrite(old(Row(bufInd)), offset, data)
    {
      forall j | 0 <= j < |data| {
        rxBuffer[bufInd, offset + j] := data[j];
      }
      ghost var was := old(Row(bufInd));
      forall j | 0 <= j < p.size
        ensures Row(bufInd)[j] == if offset <= j < offset + |data| then data[j - offset] else was[j]
      {
        if offset <= j < offset + |data| {
          assert rxBuffer[bufInd, offset + (j - offset)] == data[j - offset];
        }
      }
      OverwriteAt(was, offset, data);
      assert Row(bufInd) == Overwrite(was, offset, data);
    }

    method Accept(bufInd: int, offset: int, data: seq<byte>)
      requires Valid() && 0 <= bufInd < p.num && 0 <= offset && offset + |data| <= p.size
      modifies rxBuffer, rxBufferOffset
      ensures Valid()
      ensures State() == var r := old(State());
                         r.(bufs := r.bufs[bufInd := Overwrite(r.bufs[bufInd], offset, data)],
                            offs := r.offs[bufInd := offset + |data|])
    {
      ghost var r := State();
      Memcpy(bufInd, offset, data);
      rxBufferOffset[bufInd] := offset + |data|;
      assert State().bufs == r.bufs[bufInd := Overwrite(r.bufs[bufInd], offset, data)];
      assert State().offs == r.offs[bufInd := offset + |data|];
    }

    method FillRxBuffer(f: Frame)
      requires Valid() && f.cmd.FillRxBuffer?
      modifies rxBuffer, rxBufferOffset
      ensures Valid()
      ensures State() == Step(p, old(State()), f).0
    {
      var offset: int := f.data8[0];
      var data := f.data8[1..f.dlc];
      var bufInd := FindBuffer(offset);
      if bufInd < 0 {
        if offset == 0 {
          bufInd := 0;
        } else {
          return;
        }
      }
      Accept(bufInd, offset, data);
    }

    method FillRxBufferLong(f: Frame)
      requires Valid() && f.cmd.FillRxBufferLong?
      modifies rxBuffer, rxBufferOffset
      ensures Valid()
      ensures State() == Step(p, old(State()), f).0
    {
      var offset := Join(f.data8[0], f.data8[1]);
      var data := f.data8[2..f.dlc];
      var bufInd := FindBuffer(offset);
      if bufInd < 0 {
        if offset == 0 {
          bufInd := 0;
        } else {
          return;
        }
      }
      if offset + |data| <= p.size {
        Accept(bufInd, offset, data);
      }
    }

    method SetReply(lastId: byte, send: byte)
      requires Valid()
      modifies this
      ensures Valid() && State() == Address(old(State()), lastId, send)
    {
      if send == 0 || send == 3 {
        rxBufferLastId := lastId;
      }
      rxBufferResponseType := if send == 3 then 0 else 1;
      SameBuffers();
    }

    // Writing the reply address or an offset leaves the buffers alone.
    twostate lemma SameBuffers()
      requires old(Valid()) && Valid() && unchanged(rxBuffer)
      ensures State().bufs == old(State()).bufs
    {
      assert forall i :: 0 <= i < p.num ==> Row(i) == old(Row(i));
    }

    // "Something is wrong, reset all buffers"
    method ResetAll()
      requires Valid()
      modifies rxBufferOffset
      ensures Valid()
      ensures State() == old(State()).(offs := seq(p.num, _ => 0))
    {
      for i := 0 to p.num
        invariant forall j :: 0 <= j < i ==> rxBufferOffset[j] == 0
        invariant forall j :: i <= j < p.num ==> 0 <= rxBufferOffset[j] <= p.size
      {
        rxBufferOffset[i] := 0;
      }
      SameBuffers();
      assert State().offs == seq(p.num, _ => 0);
    }

    method ProcessRxBuffer(f: Frame) returns (out: seq<Delivery>)
      requires Valid() && f.cmd.ProcessRxBuffer?
      modifies this, rxBufferOffset
      ensures Valid()
      ensures (State(), out) == Step(p, old(State()), f)
    {
      var lastId, send := f.data8[0], f.data8[1];
      SetReply(lastId, send);
      out := FinishBuffer(send, Join(f.data8[2], f.data8[3]), Join(f.data8[4], f.data8[5]), f.replaced);
    }

    method FinishBuffer(send: byte, len: int, crc: word16, isReplaced: bool) returns (out: seq<Delivery>)
      requires Valid() && 0 <= len
      modifies rxBufferOffset
      ensures Valid()
      ensures (State(), out) == Finish(p, old(State()), send, len, crc, isReplaced)
    {
      out := [];
      if p.size < len {
        return;
      }
      var bufInd := FindBuffer(len);
      if bufInd < 0 {
        ResetAll();
        return;
      }
      rxBufferOffset[bufInd] := 0;
      SameBuffers();
      assert State().offs == old(State()).offs[bufInd := 0];
      var payload := seq(len, j requires 0 <= j < len reads rxBuffer => rxBuffer[bufInd, j]);
      assert payload == Row(bufInd)[..len];
      if p.crc(payload) == crc {
        if isReplaced && Blocked(rxBuffer[bufInd, 0]) {
          return;
        }
        out := Dispatch(send, payload);
      }
    }

    method Dispatch(send: byte, payload: seq<byte>) returns (out: seq<Delivery>)
      ensures out == Deliver(send, payload)
    {
      match send
      case 0 => out := [Delivery(Process, payload)];
      case 3 => out := [Delivery(Process, payload)];
      case 1 => out := [Delivery(ForwardToCanLast, payload)];
      case 2 => out := [Delivery(ProcessNoReply, payload)];
      case _ => out := [];
    }

    method ProcessShortBuffer(f: Frame) returns (out: seq<Delivery>)
      requires Valid() && f.cmd.ProcessShortBuffer?
      modifies this
      ensures Valid()
      ensures (State(), out) == Step(p, old(State()), f)
    {
      out := [];
      SetReply(f.data8[0], f.data8[1]);
      if f.replaced && Blocked(f.data8[2]) {
        return;
      }
      out := Dispatch(f.data8[1], f.data8[2..f.dlc]);
    }

    method DecodeMsg(f: Frame) returns (out: seq<Delivery>)
      requires Valid()
      modifies this, rxBuffer, rxBufferOffset
      ensures Valid()
      ensures (State(), out) == Step(p, old(State()), f)
    {
      out := [];
      match f.cmd
      case FillRxBuffer => FillRxBuffer(f);
      case FillRxBufferLong => FillRxBufferLong(f);
      case ProcessRxBuffer => out := ProcessRxBuffer(f);
      case ProcessShortBuffer => out := ProcessShortBuffer(f);
      case Unrelated =>
    }
  }

  function Idle(p: Params): (r: Rx)
    requires p.Valid()
    ensures InRange(p, r)
  {
    Rx(seq(p.num, _ => seq(p.size, _ => 0)), seq(p.num, _ => 0), 0, 1)
  }
}
