/** The frames that carry one buffer over CAN: what the sender cuts a payload
    into and how the bytes of a frame are read back (comm/comm_can.c). */
module CanFrames {
  import opened Bytes

  datatype Packet = FillRxBuffer | FillRxBufferLong | ProcessRxBuffer | ProcessShortBuffer | Unrelated

  // A frame as the decoder gets it: the eight data registers, the number of them that were sent, and
  // whether it came from this very controller and its second motor instead of the bus.
  datatype Registers = Registers(cmd: Packet, data8: seq<byte>, dlc: nat, replaced: bool)

  // The shortest data lengths for which the receiver's memcpy lengths are not negative.
  predicate WellFormed(f: Registers) {
    && |f.data8| == 8
    && f.dlc <= 8
    && match f.cmd
       case FillRxBuffer => 1 <= f.dlc
       case FillRxBufferLong => 2 <= f.dlc
       case ProcessShortBuffer => 2 <= f.dlc
       case _ => true
  }

  type Frame = f: Registers | WellFormed(f) witness Registers(Unrelated, [0, 0, 0, 0, 0, 0, 0, 0], 0, false)

  predicate IsFill(f: Frame) { f.cmd.FillRxBuffer? || f.cmd.FillRxBufferLong? }

  function Offset(f: Frame): (k: int)
    requires IsFill(f)
    ensures 0 <= k < 0x1_0000
    ensures f.cmd.FillRxBuffer? ==> k < 0x100
  {
    if f.cmd.FillRxBuffer? then f.data8[0] else Join(f.data8[0], f.data8[1])
  }

  function Fragment(f: Frame): (d: seq<byte>)
    requires IsFill(f)
    ensures |d| <= 7
  {
    if f.cmd.FillRxBuffer? then f.data8[1..f.dlc] else f.data8[2..f.dlc]
  }

  // A frame on the bus. Only `data` travels; the registers behind it read as zero here (see
  // CanReassembly.PadIsIgnored).
  function Transmit(cmd: Packet, data: seq<byte>): Frame
    requires |data| <= 8
    requires WellFormed(Registers(cmd, data + seq(8 - |data|, _ => 0), |data|, false))
  {
    Registers(cmd, data + seq(8 - |data|, _ => 0), |data|, false)
  }

  // Where the fragment that starts at i ends: 7 bytes while the offset fits one byte, then 6.
  function Next(len: int, i: int): (j: int)
    ensures i < len ==> i < j <= len
  {
    Min(len, if i <= 255 then i + 7 else i + 6)
  }

  function FrameAt(payload: seq<byte>, i: int): (f: Frame)
    requires 0 <= i < |payload| < 0x1_0000
  {
    var chunk := payload[i..Next(|payload|, i)];
    if i <= 255 then Transmit(FillRxBuffer, [i] + chunk)
    else Transmit(FillRxBufferLong, [Hi(i), Lo(i)] + chunk)
  }

  function Fills(payload: seq<byte>, i: int): (fs: seq<Frame>)
    requires 0 <= i <= |payload| < 0x1_0000
    decreases |payload| - i
  {
    if i == |payload| then [] else [FrameAt(payload, i)] + Fills(payload, Next(|payload|, i))
  }

  // A message: the payload, what the receiver shall do with it, and the sender's own id.
  datatype Message = Message(payload: seq<byte>, send: byte, from: byte)

  function Trailer(m: Message, crc: seq<byte> -> word16): Frame
    requires |m.payload| < 0x1_0000
  {
    var n, c := |m.payload|, crc(m.payload);
    Transmit(ProcessRxBuffer, [m.from, m.send, Hi(n), Lo(n), Hi(c), Lo(c)])
  }

  function Transmission(m: Message, crc: seq<byte> -> word16): seq<Frame>
    requires |m.payload| < 0x1_0000
  {
    if |m.payload| <= 6 then [Transmit(ProcessShortBuffer, [m.from, m.send] + m.payload)]
    else Fills(m.payload, 0) + [Trailer(m, crc)]
  }

  // Reading a fill frame back gives the offset and the bytes that were cut out at it.
  lemma FrameAtReadsBack(payload: seq<byte>, i: int)
    requires 0 <= i < |payload| < 0x1_0000
    ensures var f := FrameAt(payload, i);
            && IsFill(f)
            && Offset(f) == i
            && Fragment(f) == payload[i..Next(|payload|, i)]
  {
    var chunk := payload[i..Next(|payload|, i)];
    var f := FrameAt(payload, i);
    if i <= 255 {
      assert f.data8[1..f.dlc] == chunk;
    } else {
      assert f.data8[2..f.dlc] == chunk;
    }
  }

  // The frames carry payload[at..] gap-free: each names the offset where the previous one ended.
  predicate Tiles(fs: seq<Frame>, payload: seq<byte>, at: int) {
    if fs == [] then at == |payload|
    else
      && IsFill(fs[0])
      && Offset(fs[0]) == at
      && 0 <= at < at + |Fragment(fs[0])| <= |payload|
      && Fragment(fs[0]) == payload[at..at + |Fragment(fs[0])|]
      && Tiles(fs[1..], payload, at + |Fragment(fs[0])|)
  }

  lemma {:induction false} FillsTilePayload(payload: seq<byte>, i: int)
    requires 0 <= i <= |payload| < 0x1_0000
    ensures Tiles(Fills(payload, i), payload, i)
    decreases |payload| - i
  {
    if i < |payload| {
      FrameAtReadsBack(payload, i);
      FillsTilePayload(payload, Next(|payload|, i));
    }
  }

  // One iteration of a fragment loop.
  lemma AppendFrame(frames: seq<Frame>, data: seq<byte>, i: int)
    requires 0 <= i < |data| < 0x1_0000
    ensures frames + Fills(data, i) == frames + [FrameAt(data, i)] + Fills(data, Next(|data|, i))
  {
  }

  // The loop over the fragments with an 8-bit offset; endA is where it stopped.
  method SendFills(data: seq<byte>) returns (frames: seq<Frame>, endA: int)
    requires |data| < 0x1_0000
    ensures 0 <= endA && (|data| <= endA || 255 < endA)
    ensures frames + Fills(data, Min(endA, |data|)) == Fills(data, 0)
  {
    hide Transmit, FrameAt;
    var len := |data|;
    frames, endA := [], 0;
    var i := 0;
    while i < len
      invariant i % 7 == 0 && 0 <= i <= 259 && i < len + 7
      invariant endA == i
      invariant frames + Fills(data, Min(i, len)) == Fills(data, 0)
      decreases len - i
    {
      if i > 255 {
        break;
      }
      endA := i + 7;
      AppendFrame(frames, data, i);
      var sendLen := if i + 7 <= len then 7 else len - i;
      ShortFrame(data, i, sendLen);
      frames := frames + [Transmit(FillRxBuffer, [i] + data[i..i + sendLen])];
      i := i + 7;
    }
  }

  lemma ShortFrame(data: seq<byte>, i: int, sendLen: int)
    requires 0 <= i < |data| < 0x1_0000 && i <= 255 && sendLen == Min(7, |data| - i)
    ensures FrameAt(data, i) == Transmit(FillRxBuffer, [i] + data[i..i + sendLen])
  {
  }

  // The loop over those with a 16-bit offset.
  method SendLongFills(data: seq<byte>, start: int) returns (frames: seq<Frame>)
    requires |data| < 0x1_0000 && 0 <= start && (|data| <= start || 255 < start)
    ensures frames == Fills(data, Min(start, |data|))
  {
    hide Transmit, FrameAt;
    var len := |data|;
    frames := [];
    var i := start;
    while i < len
      invariant len <= i || 255 < i
      invariant frames + Fills(data, Min(i, len)) == Fills(data, Min(start, len))
      decreases len - i
    {
      AppendFrame(frames, data, i);
      var sendLen := if i + 6 <= len then 6 else len - i;
      LongFrame(data, i, sendLen);
      frames := frames + [Transmit(FillRxBufferLong, [Hi(i), Lo(i)] + data[i..i + sendLen])];
      i := i + 6;
    }
  }

  lemma LongFrame(data: seq<byte>, i: int, sendLen: int)
    requires 255 < i < |data| < 0x1_0000 && sendLen == Min(6, |data| - i)
    ensures FrameAt(data, i) == Transmit(FillRxBufferLong, [Hi(i), Lo(i)] + data[i..i + sendLen])
  {
  }

  // comm_can_send_buffer: the two fragment loops and the trailer.
  method SendBuffer(controllerId: byte, data: seq<byte>, send: byte, crc: seq<byte> -> word16)
    returns (frames: seq<Frame>)
    requires |data| < 0x1_0000
    ensures frames == Transmission(Message(data, send, controllerId), crc)
  {
    hide Transmit, Fills;
    var len := |data|;
    if len <= 6 {
      frames := [Transmit(ProcessShortBuffer, [controllerId, send] + data)];
    } else {
      var shortFrames, endA := SendFills(data);
      var longFrames := SendLongFills(data, endA);
      var c := crc(data);
      frames := shortFrames + longFrames;
      frames := frames + [Transmit(ProcessRxBuffer, [controllerId, send, Hi(len), Lo(len), Hi(c), Lo(c)])];
    }
  }
}
