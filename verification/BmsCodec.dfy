/** The multi-frame status report of the BMS module: what bms_send_status_can sends and
    bms_process_can_frame reads back (bms.c:591-655, 227-305). Values are the scaled 16-bit integers. */
module BmsCodec {
  import opened BmsClock
  import opened Bytes

  const MAX := 50          // BMS_MAX_CELLS and BMS_MAX_TEMPS

  type int16 = v: int | -0x8000 <= v < 0x8000

  datatype Command = VCell | Bal | Temps | Hum

  datatype RawFrame = RawFrame(cmd: Command, id: byte, data8: seq<byte>, len: nat)

  type BmsFrame = f: RawFrame | |f.data8| == 8 && f.len <= 8 witness RawFrame(Hum, 0, [0, 0, 0, 0, 0, 0, 0, 0], 0)

  function Transmit(cmd: Command, id: byte, data: seq<byte>): BmsFrame
    requires |data| <= 8
  {
    RawFrame(cmd, id, data + seq(8 - |data|, _ => 0), |data|)
  }

  // buffer_append_float16 and buffer_get_float16 on scaled values: two's complement, high byte first.
  function Unsigned(v: int16): word16 { if 0 <= v then v else v + 0x1_0000 }

  function Enc(v: int16): seq<byte> { [Hi(Unsigned(v)), Lo(Unsigned(v))] }

  function Dec(hi: byte, lo: byte): int16 {
    var u := Join(hi, lo);
    if u < 0x8000 then u else u - 0x1_0000
  }

  lemma DecEnc(v: int16)
    ensures Dec(Enc(v)[0], Enc(v)[1]) == v
  {
  }

  datatype Values = Values(
    cellNum: int, vCell: seq<int16>, balState: seq<bool>,
    tempAdcNum: int, tempsAdc: seq<int16>,
    tempHum: int16, hum: int16, tempIc: int16, pressure: int16,
    canId: int, updateTime: nat)
  {
    predicate Valid() { |vCell| == MAX && |balState| == MAX && |tempsAdc| == MAX }

    // cell_max and temp_max
    function CellMax(): int { Min(cellNum, MAX) }

    function TempMax(): int { Min(tempAdcNum, MAX) }

    predicate Accepts(id: byte, now: nat) { id == canId || Stale(updateTime, now) }
  }

  // The receiver after bms_init: nobody owns it, nothing is known.
  function Initial(): (v: Values)
    ensures v.Valid()
  {
    Values(0, seq(MAX, _ => 0), seq(MAX, _ => false), 0, seq(MAX, _ => 0), 0, 0, 0, 0, -1, 0)
  }

  // One frame holds the index of its first value, the announced count and up to three values.
  function Chunk(cmd: Command, id: byte, vals: seq<int16>, num: byte, from: int): BmsFrame
    requires 0 <= from < |vals| <= MAX
  {
    Transmit(cmd, id, [from, num] + Enc(vals[from])
                      + (if from + 1 < |vals| then Enc(vals[from + 1]) else [])
                      + (if from + 2 < |vals| then Enc(vals[from + 2]) else []))
  }

  function Chunks(cmd: Command, id: byte, vals: seq<int16>, num: byte, from: int): seq<BmsFrame>
    requires 0 <= from && |vals| <= MAX
    decreases |vals| - from
  {
    if |vals| <= from then [] else [Chunk(cmd, id, vals, num, from)] + Chunks(cmd, id, vals, num, from + 3)
  }

  // w >> n, one place at a time
  function Shr(w: nat, n: nat): nat
    decreases n
  {
    if n == 0 then w else Shr(w / 2, n - 1)
  }

  // w is the balance word: bit i is the state of cell i.
  function BalFrame(id: byte, cellMax: byte, w: nat): BmsFrame {
    Transmit(Bal, id, [cellMax,
                       w / 0x1_0000_0000_0000 % 0x100, w / 0x100_0000_0000 % 0x100, w / 0x1_0000_0000 % 0x100,
                       w / 0x100_0000 % 0x100, w / 0x1_0000 % 0x100, w / 0x100 % 0x100, w % 0x100])
  }

  function HumFrame(id: byte, tempHum: int16, hum: int16, tempIc: int16, pressure: int16): BmsFrame {
    Transmit(Hum, id, Enc(tempHum) + Enc(hum) + Enc(tempIc) + Enc(pressure))
  }

  function Prefix<T>(s: seq<T>, n: int): seq<T>
    requires n <= |s|
  {
    if n <= 0 then [] else s[..n]
  }

  function StatusFrames(v: Values, id: byte): seq<BmsFrame>
    requires v.Valid()
  {
    Chunks(VCell, id, Prefix(v.vCell, v.CellMax()), v.cellNum % 0x100, 0)
    + [BalFrame(id, v.CellMax() % 0x100, Word(Prefix(v.balState, v.CellMax())))]
    + Chunks(Temps, id, Prefix(v.tempsAdc, v.TempMax()), v.TempMax() % 0x100, 0)
    + [HumFrame(id, v.tempHum, v.hum, v.tempIc, v.pressure)]
  }

  // The receiver's loop over the values of a frame.
  function StoreValues(arr: seq<int16>, ofs: nat, f: BmsFrame, ind: nat): (arr': seq<int16>)
    requires |arr| == MAX && ind % 2 == 0
    ensures |arr'| == MAX
    decreases f.len - ind
  {
    if f.len <= ind || MAX <= ofs then arr
    else StoreValues(arr[ofs := Dec(f.data8[ind], f.data8[ind + 1])], ofs + 1, f, ind + 2)
  }

  function Word32(f: BmsFrame, ind: nat): nat
    requires ind + 4 <= 8
  {
    Join4(f.data8[ind], f.data8[ind + 1], f.data8[ind + 2], f.data8[ind + 3])
  }

  function ReadBal(f: BmsFrame): nat { Word32(f, 0) % 0x100_0000 * 0x1_0000_0000 + Word32(f, 4) }

  function StoreBits(bits: seq<bool>, n: int, w: nat): (bits': seq<bool>)
    requires |bits| == MAX
    ensures |bits'| == MAX
  {
    seq(MAX, i requires 0 <= i < MAX => if i < n then Shr(w, i) % 2 == 1 else bits[i])
  }

  function ProcessFrame(v: Values, f: BmsFrame, now: nat): (v': Values)
    requires v.Valid()
    ensures v'.Valid()
  {
    if !v.Accepts(f.id, now) then v
    else
      var v1 := v.(canId := f.id, updateTime := now);
      var d := f.data8;
      match f.cmd
      case VCell => v1.(cellNum := d[1], vCell := StoreValues(v.vCell, d[0], f, 2))
      case Bal => v1.(balState := StoreBits(v.balState, d[0], ReadBal(f)))
      case Temps => v1.(tempAdcNum := d[1], tempsAdc := StoreValues(v.tempsAdc, d[0], f, 2))
      case Hum =>
        var v2 := v1.(tempHum := Dec(d[0], d[1]), hum := Dec(d[2], d[3]), tempIc := Dec(d[4], d[5]));
        if f.len == 8 then v2.(pressure := Dec(d[6], d[7])) else v2
  }

  // Frame number k of the run arrives at clock(k).
  function Feed(v: Values, fs: seq<BmsFrame>, clock: nat -> nat, k: nat): (v': Values)
    requires v.Valid()
    ensures v'.Valid()
    decreases |fs|
  {
    if fs == [] then v else Feed(ProcessFrame(v, fs[0], clock(k)), fs[1..], clock, k + 1)
  }

  class BmsModule {
    var cellNum: int
    const vCell: array<int16>
    const balState: array<bool>
    var tempAdcNum: int
    const tempsAdc: array<int16>
    var tempHum: int16
    var hum: int16
    var tempIc: int16
    var pressure: int16
    var canId: int
    var updateTime: nat

    ghost predicate Valid()
      reads this
    {
      vCell.Length == MAX && balState.Length == MAX && tempsAdc.Length == MAX && vCell != tempsAdc
    }

    ghost function State(): (v: Values)
      requires Valid()
      reads this, vCell, balState, tempsAdc
      ensures v.Valid()
    {
      Values(cellNum, vCell[..], balState[..], tempAdcNum, tempsAdc[..],
             tempHum, hum, tempIc, pressure, canId, updateTime)
    }

    // bms_init
    constructor ()
      ensures Valid() && fresh(vCell) && fresh(balState) && fresh(tempsAdc)
      ensures State() == Initial()
      ensures canId == -1 && updateTime == 0
    {
      vCell := new int16[MAX](i => 0);
      balState := new bool[MAX](i => false);
      tempsAdc := new int16[MAX](i => 0);
      cellNum, tempAdcNum, canId, updateTime := 0, 0, -1, 0;
      tempHum, hum, tempIc, pressure := 0, 0, 0, 0;
    }

    // The body of the loops over v_cell and temps_adc: up to three values in one frame.
    method SendChunk(cmd: Command, id: byte, values: array<int16>, max: int, num: byte, from: int)
      returns (frame: BmsFrame, now: int)
      requires values.Length == MAX && 0 <= from < max <= MAX
      ensures frame == Chunk(cmd, id, values[..max], num, from)
      ensures now == Min(from + 3, max)
    {
      var buffer: seq<byte> := [from, num] + Enc(values[from]);
      now := from + 1;
      if now < max {
        buffer := buffer + Enc(values[now]);
        now := now + 1;
      }
      if now < max {
        buffer := buffer + Enc(values[now]);
        now := now + 1;
      }
      assert buffer == [from, num] + Enc(values[from])
                       + (if from + 1 < max then Enc(values[from + 1]) else [])
                       + (if from + 2 < max then Enc(values[from + 2]) else []);
      frame := Transmit(cmd, id, buffer);
    }

    method SendValues(cmd: Command, id: byte, values: array<int16>, max: int, num: byte) returns (frames: seq<BmsFrame>)
      requires values.Length == MAX && max <= MAX
      ensures frames == Chunks(cmd, id, Prefix(values[..], max), num, 0)
    {
      hide Chunk;
      frames := [];
      var now := 0;
      ghost var vals := Prefix(values[..], max);
      while now < max
        invariant 0 <= now <= |vals|
        invariant frames + Chunks(cmd, id, vals, num, now) == Chunks(cmd, id, vals, num, 0)
        decreases max - now
      {
        assert vals == values[..max];
        var frame, next := SendChunk(cmd, id, values, max, num, now);
        NextChunks(frames, cmd, id, vals, num, now, next);
        frames, now := frames + [frame], next;
      }
    }

    // Bit i is clear before it is set, so adding it is or-ing it in.
    method PackBalance(cellMax: int) returns (bal: nat)
      requires Valid() && cellMax <= MAX
      ensures bal == Word(Prefix(balState[..], cellMax))
    {
      bal := 0;
      var i := 0;
      while i < cellMax
        invariant 0 <= i && (if cellMax < 0 then i == 0 else i <= cellMax)
        invariant bal == Word(balState[..i])
      {
        WordSnoc(balState[..i], balState[i]);
        assert balState[..i + 1] == balState[..i] + [balState[i]];
        bal := bal + (if balState[i] then Pow2(i) else 0);
        i := i + 1;
      }
      assert balState[..i] == Prefix(balState[..], cellMax);
    }

    method SendStatusCan(id: byte) returns (frames: seq<BmsFrame>)
      requires Valid()
      ensures frames == StatusFrames(State(), id)
    {
      hide Chunks, Word, BalFrame, Transmit;
      var cellMax := if cellNum > MAX then MAX else cellNum;
      var cellFrames := SendValues(VCell, id, vCell, cellMax, cellNum % 0x100);
      var bal := PackBalance(cellMax);
      var tempMax := if tempAdcNum > MAX then MAX else tempAdcNum;
      var tempFrames := SendValues(Temps, id, tempsAdc, tempMax, tempMax % 0x100);
      frames := cellFrames + [BalFrame(id, cellMax % 0x100, bal)] + tempFrames
                + [HumFrame(id, tempHum, hum, tempIc, pressure)];
    }

    // while (ind < len) { if (ofs >= size) break; values[ofs++] = ... }
    method ReadValues(f: BmsFrame, values: array<int16>)
      requires values.Length == MAX
      modifies values
      ensures values[..] == StoreValues(old(values[..]), f.data8[0], f, 2)
    {
      var ofs: int, ind: int := f.data8[0], 2;
      while ind < f.len
        invariant 0 <= ofs && 0 <= ind <= 8 && ind % 2 == 0
        invariant StoreValues(values[..], ofs, f, ind) == StoreValues(old(values[..]), f.data8[0], f, 2)
        decreases 8 - ind
      {
        if MAX <= ofs {
          break;
        }
        ghost var before := values[..];
        values[ofs] := Dec(f.data8[ind], f.data8[ind + 1]);
        assert values[..] == before[ofs := Dec(f.data8[ind], f.data8[ind + 1])];
        ofs, ind := ofs + 1, ind + 2;
      }
    }

    method ReadBalance(f: BmsFrame)
      requires Valid()
      modifies balState
      ensures balState[..] == StoreBits(old(balState[..]), f.data8[0], ReadBal(f))
    {
      var cells: int := f.data8[0];
      var bal := Word32(f, 0) % 0x100_0000 * 0x1_0000_0000 + Word32(f, 4);
      var ind := 0;
      while ind < MAX && ind < cells
        invariant 0 <= ind <= MAX && (ind <= cells || ind == 0)
        invariant forall j :: 0 <= j < ind ==> balState[j] == (Shr(bal, j) % 2 == 1)
        invariant forall j :: ind <= j < MAX ==> balState[j] == old(balState[j])
      {
        balState[ind] := Shr(bal, ind) % 2 == 1;
        ind := ind + 1;
      }
    }

    method ProcessCanFrame(f: BmsFrame, now: nat)
      requires Valid()
      modifies this, vCell, balState, tempsAdc
      ensures Valid() && State() == ProcessFrame(old(State()), f, now)
    {
      if f.id == canId || now - updateTime > MAX_AGE {
        canId, updateTime := f.id, now;
        match f.cmd
        case VCell =>
          cellNum := f.data8[1];
          ReadValues(f, vCell);
        case Bal => ReadBalance(f);
        case Temps =>
          tempAdcNum := f.data8[1];
          ReadValues(f, tempsAdc);
        case Hum =>
          tempHum, hum, tempIc := Dec(f.data8[0], f.data8[1]), Dec(f.data8[2], f.data8[3]), Dec(f.data8[4], f.data8[5]);
          if f.len == 8 {
            pressure := Dec(f.data8[6], f.data8[7]);
          }
      }
    }
  }

  lemma NextChunks(frames: seq<BmsFrame>, cmd: Command, id: byte, vals: seq<int16>, num: byte, from: int, next: int)
    requires 0 <= from < |vals| <= MAX && next == Min(from + 3, |vals|)
    ensures frames + Chunks(cmd, id, vals, num, from)
         == frames + [Chunk(cmd, id, vals, num, from)] + Chunks(cmd, id, vals, num, next)
  {
    hide Chunk;
  }
}
