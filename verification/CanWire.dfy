/** The buffer frames byte by byte: what is on the bus (comm/comm_can.c:443-505), and what each frame does to
    a receiver (comm/comm_can.c:1622-1788), in the positions and values of the frames. */
module CanWire {
  import opened Bytes
  import opened CanFrames
  import opened CanReassembly

  // ---- The sender ----

  // Up to 6 bytes are one frame: the sender's id, the send code, the payload.
  lemma ShortBytes(m: Message, crc: seq<byte> -> word16)
    requires |m.payload| <= 6
    ensures var fs := Transmission(m, crc);
            && |fs| == 1 && fs[0].cmd == ProcessShortBuffer && fs[0].dlc == 2 + |m.payload| && !fs[0].replaced
            && fs[0].data8[0] == m.from && fs[0].data8[1] == m.send
            && forall j :: 0 <= j < |m.payload| ==> fs[0].data8[2 + j] == m.payload[j]
  {
  }

  // A fragment at an offset up to 255: the offset in one byte and 7 bytes of payload, or what is left of it.
  lemma FillBytes(payload: seq<byte>, i: int)
    requires 0 <= i < |payload| < 0x1_0000 && i <= 255
    ensures var f := FrameAt(payload, i);
            var n := if i + 7 <= |payload| then 7 else |payload| - i;
            && f.cmd == CanFrames.FillRxBuffer && f.dlc == 1 + n && !f.replaced
            && f.data8[0] == i
            && forall k :: 1 <= k <= n ==> f.data8[k] == payload[i + k - 1]
  {
  }

  // And behind it: the offset in two bytes, the high one first, and 6 bytes of payload.
  lemma LongFillBytes(payload: seq<byte>, i: int)
    requires 255 < i < |payload| < 0x1_0000
    ensures var f := FrameAt(payload, i);
            var n := if i + 6 <= |payload| then 6 else |payload| - i;
            && f.cmd == CanFrames.FillRxBufferLong && f.dlc == 2 + n && !f.replaced
            && f.data8[0] == i / 256 && f.data8[1] == i % 256
            && forall k :: 2 <= k < 2 + n ==> f.data8[k] == payload[i + k - 2]
  {
  }

  // The last frame: id, send code, length and CRC, high bytes first.
  lemma TrailerBytes(m: Message, crc: seq<byte> -> word16)
    requires |m.payload| < 0x1_0000
    ensures var f := Trailer(m, crc);
            && f.cmd == CanFrames.ProcessRxBuffer && f.dlc == 6 && !f.replaced
            && f.data8[0] == m.from && f.data8[1] == m.send
            && f.data8[2] == |m.payload| / 256 && f.data8[3] == |m.payload| % 256
            && f.data8[4] == crc(m.payload) / 256 && f.data8[5] == crc(m.payload) % 256
  {
  }

  // The offset of frame number k: the first 37 carry 7 bytes each, the others 6.
  function OffsetOf(k: nat): nat { if k <= 37 then 7 * k else 259 + 6 * (k - 37) }

  lemma {:induction false} FillNumber(payload: seq<byte>, k: nat, j: nat)
    requires |payload| < 0x1_0000 && OffsetOf(k + j) < |payload|
    ensures j < |Fills(payload, OffsetOf(k))| && Fills(payload, OffsetOf(k))[j] == FrameAt(payload, OffsetOf(k + j))
    decreases j
  {
    hide FrameAt;
    var i := OffsetOf(k);
    if j > 0 {
      assert OffsetOf(k) < OffsetOf(k + 1) <= OffsetOf(k + j);
      assert Next(|payload|, i) == OffsetOf(k + 1);
      FillNumber(payload, k + 1, j - 1);
    }
  }

  lemma {:induction false} FillCount(payload: seq<byte>, k: nat)
    requires OffsetOf(k) < |payload| < 0x1_0000
    ensures var n := |Fills(payload, OffsetOf(k))|;
            0 < n && OffsetOf(k + n - 1) < |payload| <= OffsetOf(k + n)
    decreases |payload| - OffsetOf(k)
  {
    hide FrameAt;
    var i := OffsetOf(k);
    if OffsetOf(k + 1) < |payload| {
      assert Next(|payload|, i) == OffsetOf(k + 1);
      FillCount(payload, k + 1);
    } else {
      assert Next(|payload|, i) == |payload|;
      assert Fills(payload, |payload|) == [];
    }
  }

  // A longer payload is as many fragments as it takes, in the order of their offsets, and the trailer.
  lemma {:induction false} TransmissionLayout(m: Message, crc: seq<byte> -> word16)
    requires 6 < |m.payload| < 0x1_0000
    ensures var fs := Transmission(m, crc);
            var n := |fs| - 1;
            && 0 < n && OffsetOf(n - 1) < |m.payload| <= OffsetOf(n)
            && fs[n] == Trailer(m, crc)
            && forall k: nat :: k < n ==> OffsetOf(k) < |m.payload| && fs[k] == FrameAt(m.payload, OffsetOf(k))
  {
    hide FrameAt, Trailer, Fills;
    FillCount(m.payload, 0);
    var n := |Fills(m.payload, 0)|;
    forall k: nat | k < n
      ensures OffsetOf(k) < |m.payload| && Fills(m.payload, 0)[k] == FrameAt(m.payload, OffsetOf(k))
    {
      FillNumber(m.payload, 0, k);
    }
  }

  // ---- The receiver ----

  // The first buffer that stands at offset k.
  predicate IsFirst(r: Rx, k: int, b: int) {
    0 <= b < |r.offs| && r.offs[b] == k && forall i :: 0 <= i < b ==> r.offs[i] != k
  }

  lemma FirstIsFirst(r: Rx, k: int, b: int)
    requires IsFirst(r, k, b)
    ensures FirstAt(r.offs, k) == b
  {
  }

  // A fragment of n bytes behind `head` bytes of offset is copied to its offset in the first buffer standing
  // there, or in buffer 0 if it starts a payload and no buffer is idle. That buffer now stands behind it.
  lemma {:induction false} FillLaw(p: Params, r: Rx, f: Frame, k: int, head: nat, b: int)
    requires p.Valid() && InRange(p, r)
    requires || (f.cmd.FillRxBuffer? && head == 1 && k == f.data8[0])
             || (f.cmd.FillRxBufferLong? && head == 2 && k == f.data8[0] as int * 256 + f.data8[1])
    requires IsFirst(r, k, b) || (k == 0 && b == 0 && forall i :: 0 <= i < p.num ==> r.offs[i] != 0)
    requires k + f.dlc - head <= p.size
    ensures var (r1, out) := Step(p, r, f);
            && out == [] && r1.lastId == r.lastId && r1.responseType == r.responseType
            && r1.offs == r.offs[b := k + f.dlc - head]
            && (forall c :: 0 <= c < p.num && c != b ==> r1.bufs[c] == r.bufs[c])
            && forall j :: 0 <= j < p.size ==>
                 r1.bufs[b][j] == if k <= j < k + f.dlc - head then f.data8[head + j - k] else r.bufs[b][j]
  {
    if IsFirst(r, k, b) {
      FirstIsFirst(r, k, b);
    }
    var data := Fragment(f);
    assert Offset(f) == k && |data| == f.dlc - head;
    OverwriteAt(r.bufs[b], k, data);
    hide FirstAt, Overwrite;
  }

  // Any other fragment does nothing: no buffer stands at its offset and it starts no payload, or it does
  // not fit.
  lemma {:induction false} StrayFill(p: Params, r: Rx, f: Frame, k: int, head: nat)
    requires p.Valid() && InRange(p, r)
    requires || (f.cmd.FillRxBuffer? && head == 1 && k == f.data8[0])
             || (f.cmd.FillRxBufferLong? && head == 2 && k == f.data8[0] as int * 256 + f.data8[1])
    requires (k != 0 && forall i :: 0 <= i < p.num ==> r.offs[i] != k) || p.size < k + f.dlc - head
    ensures Step(p, r, f) == (r, [])
  {
    assert Offset(f) == k && |Fragment(f)| == f.dlc - head;
  }

  // What a send code does with a payload.
  function Outcome(send: byte, payload: seq<byte>): seq<Delivery> {
    if send == 0 || send == 3 then [Delivery(Process, payload)]
    else if send == 1 then [Delivery(ForwardToCanLast, payload)]
    else if send == 2 then [Delivery(ProcessNoReply, payload)]
    else []
  }

  // The trailer of a transmission frees the first buffer that stands at the announced length, whether or
  // not its CRC fits. If it does, the payload is delivered, unless the frame was meant for the second motor
  // of the same controller and the payload is a command to jump to or change the bootloader or the firmware.
  lemma {:induction false} TrailerLaw(p: Params, r: Rx, f: Frame, len: int, b: int)
    requires p.Valid() && InRange(p, r) && f.cmd.ProcessRxBuffer?
    requires len == f.data8[2] as int * 256 + f.data8[3] && len <= p.size && IsFirst(r, len, b)
    ensures var (r1, out) := Step(p, r, f);
            var fits := p.crc(r.bufs[b][..len]) == f.data8[4] as int * 256 + f.data8[5];
            && r1.bufs == r.bufs && r1.offs == r.offs[b := 0]
            && out == (if fits && !(f.replaced && r.bufs[b][0] in {1, 2, 3, 73, 81})
                       then Outcome(f.data8[1], r.bufs[b][..len]) else [])
  {
    FirstIsFirst(r, len, b);
    hide FirstAt;
  }

  // Without such a buffer all of them start over, and a length no buffer can have changes none.
  lemma {:induction false} LostTrailer(p: Params, r: Rx, f: Frame, len: int)
    requires p.Valid() && InRange(p, r) && f.cmd.ProcessRxBuffer? && len == f.data8[2] as int * 256 + f.data8[3]
    requires forall i :: 0 <= i < p.num ==> r.offs[i] != len
    ensures var (r1, out) := Step(p, r, f);
            && out == [] && r1.bufs == r.bufs
            && forall i :: 0 <= i < p.num ==> r1.offs[i] == if len <= p.size then 0 else r.offs[i]
  {
  }

  // A short buffer is delivered from the frame itself.
  lemma ShortLaw(p: Params, r: Rx, f: Frame)
    requires p.Valid() && InRange(p, r) && f.cmd.ProcessShortBuffer?
    ensures var (r1, out) := Step(p, r, f);
            && r1.bufs == r.bufs && r1.offs == r.offs
            && out == (if f.replaced && f.data8[2] in {1, 2, 3, 73, 81} then []
                       else Outcome(f.data8[1], f.data8[2..f.dlc]))
  {
  }

  // Both set the address of the reply: the sender's id for codes 0 and 3, and then it stays; the reply is
  // of code 0 for code 3, else of code 1.
  lemma ReplyLaw(p: Params, r: Rx, f: Frame)
    requires p.Valid() && InRange(p, r)
    ensures var r1 := Step(p, r, f).0;
            if f.cmd.ProcessRxBuffer? || f.cmd.ProcessShortBuffer? then
              && r1.lastId == (if f.data8[1] == 0 || f.data8[1] == 3 then f.data8[0] else r.lastId)
              && r1.responseType == (if f.data8[1] == 3 then 0 else 1)
            else r1.lastId == r.lastId && r1.responseType == r.responseType
  {
  }
}
