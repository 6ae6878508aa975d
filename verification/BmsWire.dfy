/** The BMS report byte by byte: what is on the wire (bms.c:591-655), and what one frame changes in a receiver
    (bms.c:227-305), in the positions and values of the frames. */
module BmsWire {
  import opened Bytes
  import opened BmsCodec
  import opened BmsRoundTrip

  // ---- Single values ----

  // A value takes two bytes, the high one first; negative ones are congruent modulo 2 to the 16.
  lemma EncIsBigEndian(v: int16)
    ensures |Enc(v)| == 2
    ensures var high: int, low: int := Enc(v)[0], Enc(v)[1];
            high * 256 + low == if v < 0 then v + 65536 else v
  {
  }

  lemma DecIsBigEndian(hi: byte, lo: byte)
    ensures var high: int, low: int := hi, lo;
            Dec(hi, lo) == if high < 128 then high * 256 + low else high * 256 + low - 65536
  {
  }

  // ---- Who is listened to ----

  // The owner, and everybody once the last frame taken is more than 20000 ticks old, becomes the owner.
  lemma TakeOver(v: Values, f: BmsFrame, now: nat)
    requires v.Valid() && (f.id == v.canId || now - v.updateTime > 20000)
    ensures ProcessFrame(v, f, now).canId == f.id && ProcessFrame(v, f, now).updateTime == now
  {
  }

  // Until then frames of others change nothing.
  lemma OthersAreIgnored(v: Values, f: BmsFrame, now: nat)
    requires v.Valid() && f.id != v.canId && now - v.updateTime <= 20000
    ensures ProcessFrame(v, f, now) == v
  {
  }

  // ---- What a frame changes ----

  // A list frame stores two bytes for each place from data8[0] on, as far as the frame and the array reach.
  lemma {:induction false} StoredAt(arr: seq<int16>, ofs: nat, f: BmsFrame, ind: nat, i: nat)
    requires |arr| == MAX && ind % 2 == 0 && i < MAX
    ensures StoreValues(arr, ofs, f, ind)[i]
            == if ofs <= i && ind + 2 * (i - ofs) < f.len
               then Dec(f.data8[ind + 2 * (i - ofs)], f.data8[ind + 2 * (i - ofs) + 1]) else arr[i]
    decreases f.len - ind
  {
    hide Dec;
    if ind < f.len && ofs < MAX {
      StoredAt(arr[ofs := Dec(f.data8[ind], f.data8[ind + 1])], ofs + 1, f, ind + 2, i);
    }
  }

  lemma {:induction false} CellFrameLaw(v: Values, f: BmsFrame, now: nat)
    requires v.Valid() && (f.id == v.canId || now - v.updateTime > 20000) && f.cmd.VCell?
    ensures var v1 := ProcessFrame(v, f, now);
            && v1 == v.(canId := f.id, updateTime := now, cellNum := f.data8[1], vCell := v1.vCell)
            && forall i: nat :: i < 50 ==>
                 var at := 2 + 2 * (i - f.data8[0]);
                 v1.vCell[i] == if 2 <= at < f.len then Dec(f.data8[at], f.data8[at + 1]) else v.vCell[i]
  {
    hide Dec, StoreValues;
    forall i: nat | i < 50
      ensures var at := 2 + 2 * (i - f.data8[0]);
              StoreValues(v.vCell, f.data8[0], f, 2)[i]
              == if 2 <= at < f.len then Dec(f.data8[at], f.data8[at + 1]) else v.vCell[i]
    {
      StoredAt(v.vCell, f.data8[0], f, 2, i);
    }
  }

  lemma {:induction false} TempFrameLaw(v: Values, f: BmsFrame, now: nat)
    requires v.Valid() && (f.id == v.canId || now - v.updateTime > 20000) && f.cmd.Temps?
    ensures var v1 := ProcessFrame(v, f, now);
            && v1 == v.(canId := f.id, updateTime := now, tempAdcNum := f.data8[1], tempsAdc := v1.tempsAdc)
            && forall i: nat :: i < 50 ==>
                 var at := 2 + 2 * (i - f.data8[0]);
                 v1.tempsAdc[i] == if 2 <= at < f.len then Dec(f.data8[at], f.data8[at + 1]) else v.tempsAdc[i]
  {
    hide Dec, StoreValues;
    forall i: nat | i < 50
      ensures var at := 2 + 2 * (i - f.data8[0]);
              StoreValues(v.tempsAdc, f.data8[0], f, 2)[i]
              == if 2 <= at < f.len then Dec(f.data8[at], f.data8[at + 1]) else v.tempsAdc[i]
    {
      StoredAt(v.tempsAdc, f.data8[0], f, 2, i);
    }
  }

  // Temperature of the sensor, humidity and temperature of the chip always; the pressure of long frames only.
  lemma HumFrameLaw(v: Values, f: BmsFrame, now: nat)
    requires v.Valid() && (f.id == v.canId || now - v.updateTime > 20000) && f.cmd.Hum?
    ensures var d := f.data8;
            ProcessFrame(v, f, now)
            == v.(canId := f.id, updateTime := now,
                  tempHum := Dec(d[0], d[1]), hum := Dec(d[2], d[3]), tempIc := Dec(d[4], d[5]),
                  pressure := if f.len == 8 then Dec(d[6], d[7]) else v.pressure)
  {
    hide Dec;
  }

  // ---- Balance bits ----

  // The number that bytes stand for, highest first.
  function Number(bytes: seq<byte>): nat {
    if bytes == [] then 0 else Number(bytes[..|bytes| - 1]) * 256 + bytes[|bytes| - 1]
  }

  function Bit(w: nat, i: nat): bool { w / Pow2(i) % 2 == 1 }

  lemma {:induction false} ShrIsQuotient(w: nat, i: nat)
    ensures Shr(w, i) == w / Pow2(i)
  {
    if i > 0 {
      ShrIsQuotient(w / 2, i - 1);
      HalfOfDouble(w, Pow2(i - 1));
    }
  }

  // A byte put behind a number holds the lowest eight bits.
  lemma {:induction false} ShrOfPair(high: nat, low: nat, m: nat, i: nat)
    requires low < Pow2(m)
    ensures Shr(high * Pow2(m) + low, i) % 2 == if i < m then Shr(low, i) % 2 else Shr(high, i - m) % 2
    decreases i
  {
    if m == 0 {
      assert high * Pow2(m) + low == high;
    } else {
      HalfOfPair(high, low, Pow2(m - 1));
      if i > 0 {
        ShrOfPair(high, low / 2, m - 1, i - 1);
      }
    }
  }

  lemma HalfOfPair(high: nat, low: nat, p: nat)
    ensures high * (2 * p) + low == 2 * (high * p) + low
    ensures (high * (2 * p) + low) / 2 == high * p + low / 2 && (high * (2 * p) + low) % 2 == low % 2
  {
    assert high * (2 * p) == 2 * (high * p);
  }

  lemma {:induction false} ShrOfNumber(bytes: seq<byte>, i: nat)
    requires i < 8 * |bytes|
    ensures Shr(Number(bytes), i) % 2 == Shr(bytes[|bytes| - 1 - i / 8], i % 8) % 2
  {
    hide Shr, Pow2;
    var last := |bytes| - 1;
    Pow2Of8();
    ShrOfPair(Number(bytes[..last]), bytes[last], 8, i);
    if 8 <= i {
      ShrOfNumber(bytes[..last], i - 8);
    }
  }

  lemma Pow2Of8()
    ensures Pow2(8) == 256
  {
    Pow2OfZero();
    Pow2Byte(0);
  }

  lemma NumberGrows(d: seq<byte>, k: nat)
    requires 1 <= k < |d|
    ensures Number(d[1..k + 1]) == Number(d[1..k]) * 256 + d[k]
  {
    assert d[1..k + 1][..k - 1] == d[1..k];
  }

  lemma {:induction false} NumberOfSeven(d: seq<byte>)
    requires |d| == 8
    ensures Number(d[1..])
            == ((((((d[1] as int) * 256 + d[2]) * 256 + d[3]) * 256 + d[4]) * 256 + d[5]) * 256 + d[6]) * 256 + d[7]
  {
    hide Number;
    NumberGrows(d, 1);
    NumberGrows(d, 2);
    NumberGrows(d, 3);
    NumberGrows(d, 4);
    NumberGrows(d, 5);
    NumberGrows(d, 6);
    NumberGrows(d, 7);
    NumberOfNothing();
    assert d[1..1] == [] && d[1..8] == d[1..];
  }

  lemma ReadBalIsNumber(f: BmsFrame)
    ensures ReadBal(f) == Number(f.data8[1..])
  {
    NumberOfSeven(f.data8);
    hide Number;
    var d := f.data8;
    TwoWords(d[0], d[1], d[2], d[3]);
  }

  lemma NumberOfNothing()
    ensures Number([]) == 0
  {
  }

  lemma {:induction false} WireBit(f: BmsFrame, i: nat)
    requires i < 56
    ensures Shr(ReadBal(f), i) % 2 == 1 <==> Bit(f.data8[7 - i / 8], i % 8)
  {
    hide Shr, ReadBal;
    ReadBalIsNumber(f);
    ShrOfNumber(f.data8[1..], i);
    ShrIsQuotient(f.data8[7 - i / 8], i % 8);
  }

  // The state of cell i is bit i % 8 of byte 7 - i / 8; cells that are not announced keep theirs.
  lemma {:induction false} BalFrameLaw(v: Values, f: BmsFrame, now: nat)
    requires v.Valid() && (f.id == v.canId || now - v.updateTime > 20000) && f.cmd.Bal?
    ensures var v1 := ProcessFrame(v, f, now);
            && v1 == v.(canId := f.id, updateTime := now, balState := v1.balState)
            && forall i: nat :: i < 50 ==>
                 v1.balState[i] == if i < f.data8[0] then Bit(f.data8[7 - i / 8], i % 8) else v.balState[i]
  {
    hide Shr, ReadBal, Bit;
    forall i: nat | i < 50
      ensures Shr(ReadBal(f), i) % 2 == 1 <==> Bit(f.data8[7 - i / 8], i % 8)
    {
      WireBit(f, i);
    }
  }

  // ---- The frames of a report ----

  lemma {:induction false} ChunkNumber(cmd: Command, id: byte, vals: seq<int16>, num: byte, from: int, k: nat)
    requires 0 <= from && |vals| <= MAX && from + 3 * k < |vals|
    ensures |Chunks(cmd, id, vals, num, from)| == (|vals| - from + 2) / 3
    ensures Chunks(cmd, id, vals, num, from)[k] == Chunk(cmd, id, vals, num, from + 3 * k)
    decreases |vals| - from
  {
    hide Chunk;
    if k > 0 {
      ChunkNumber(cmd, id, vals, num, from + 3, k - 1);
    } else if from + 3 < |vals| {
      ChunkNumber(cmd, id, vals, num, from + 3, 0);
    }
  }

  // The list frame that starts with value number `from`, byte by byte.
  ghost predicate CarriesFrom(f: BmsFrame, cmd: Command, id: byte, vals: seq<int16>, num: int, from: nat) {
    && from < |vals| && f.cmd == cmd && f.id == id && f.data8[0] == from && f.data8[1] == num
    && (|vals| - from <= 3 ==> f.len == 2 + 2 * (|vals| - from)) && (3 < |vals| - from ==> f.len == 8)
    && forall j: nat :: 2 + 2 * j < f.len && from + j < |vals| ==> f.data8[2 + 2 * j..4 + 2 * j] == Enc(vals[from + j])
  }

  lemma ChunkBytes(cmd: Command, id: byte, vals: seq<int16>, num: byte, from: int)
    requires 0 <= from < |vals| <= MAX
    ensures CarriesFrom(Chunk(cmd, id, vals, num, from), cmd, id, vals, num, from)
  {
    hide Unsigned, Hi, Lo;
  }

  // A list of n values takes n / 3 frames, rounded up.
  ghost predicate CarryAll(fs: seq<BmsFrame>, cmd: Command, id: byte, vals: seq<int16>, num: int) {
    && |fs| == (|vals| + 2) / 3
    && forall k: nat :: k < |fs| ==> CarriesFrom(fs[k], cmd, id, vals, num, 3 * k)
  }

  lemma {:induction false} ListLayout(cmd: Command, id: byte, vals: seq<int16>, num: byte)
    requires |vals| <= MAX
    ensures CarryAll(Chunks(cmd, id, vals, num, 0), cmd, id, vals, num)
  {
    hide Chunk, CarriesFrom;
    if vals != [] {
      ChunkNumber(cmd, id, vals, num, 0, 0);
    }
    forall k: nat | k < (|vals| + 2) / 3
      ensures CarriesFrom(Chunks(cmd, id, vals, num, 0)[k], cmd, id, vals, num, 3 * k)
    {
      ChunkNumber(cmd, id, vals, num, 0, k);
      ChunkBytes(cmd, id, vals, num, 3 * k);
    }
  }

  // A report of n cells and t temperatures: the cell frames, three cells each; the balance frame; the
  // temperature frames; the humidity frame. Cells announce the whole count, temperatures at most 50.
  lemma {:induction false} ReportLayout(s: Values, id: byte)
    requires s.Valid() && 0 <= s.cellNum < 256 && 0 <= s.tempAdcNum
    ensures var n: nat := if s.cellNum < 50 then s.cellNum else 50;
            var t: nat := if s.tempAdcNum < 50 then s.tempAdcNum else 50;
            var a, b := (n + 2) / 3, (t + 2) / 3;
            var fs := StatusFrames(s, id);
            && |fs| == a + 1 + b + 1
            && CarryAll(fs[..a], VCell, id, s.vCell[..n], s.cellNum)
            && fs[a] == BalFrame(id, n, Word(s.balState[..n]))
            && CarryAll(fs[a + 1..a + 1 + b], Temps, id, s.tempsAdc[..t], t)
            && fs[a + 1 + b] == HumFrame(id, s.tempHum, s.hum, s.tempIc, s.pressure)
  {
    hide BalFrame, HumFrame, CarriesFrom, Word, Chunks, StatusFrames;
    var n, t := s.CellMax(), s.TempMax();
    StatusFramesSplit(s, id);
    ListLayout(VCell, id, s.vCell[..n], s.cellNum);
    ListLayout(Temps, id, s.tempsAdc[..t], t);
    Sections(Chunks(VCell, id, s.vCell[..n], s.cellNum, 0), BalFrame(id, n, Word(s.balState[..n])),
             Chunks(Temps, id, s.tempsAdc[..t], t, 0), HumFrame(id, s.tempHum, s.hum, s.tempIc, s.pressure));
  }

  lemma Sections(a: seq<BmsFrame>, x: BmsFrame, b: seq<BmsFrame>, y: BmsFrame)
    ensures var fs := a + [x] + (b + [y]);
            && |fs| == |a| + 1 + |b| + 1 && fs[..|a|] == a && fs[|a|] == x
            && fs[|a| + 1..|a| + 1 + |b|] == b && fs[|a| + 1 + |b|] == y
  {
  }

  // The balance frame announces its cells and has the bit of each one that balances set, and no other.
  lemma {:induction false} BalFrameBits(id: byte, bits: seq<bool>, i: nat)
    requires |bits| <= 50 && i < 56
    ensures var f := BalFrame(id, |bits|, Word(bits));
            && f.cmd == Bal && f.id == id && f.data8[0] == |bits| && f.len == 8
            && (Bit(f.data8[7 - i / 8], i % 8) <==> i < |bits| && bits[i])
  {
    var f := BalFrame(id, |bits|, Word(bits));
    assert f.cmd == Bal && f.id == id && f.data8[0] == |bits| && f.len == 8;
    hide BalFrame, Shr, Word, ReadBal, Bit;
    BalWordFits(bits);
    BalFrameReadsBack(id, |bits|, Word(bits));
    WireBit(f, i);
    if i < |bits| {
      BalWordBit(bits, i);
    } else {
      NoBitAbove(bits, i);
    }
  }

  lemma {:induction false} NoBitAbove(bits: seq<bool>, i: nat)
    requires |bits| <= i
    ensures Shr(Word(bits), i) % 2 == 0
  {
    if bits == [] {
      ShrOfZero(i);
    } else {
      NoBitAbove(bits[1..], i - 1);
    }
  }

  lemma {:induction false} ShrOfZero(i: nat)
    ensures Shr(0, i) == 0
  {
    if i > 0 {
      ShrOfZero(i - 1);
    }
  }

  lemma HumFrameBytes(id: byte, tempHum: int16, hum: int16, tempIc: int16, pressure: int16)
    ensures var f := HumFrame(id, tempHum, hum, tempIc, pressure);
            && f.cmd == Hum && f.id == id && f.len == 8
            && f.data8[0..2] == Enc(tempHum) && f.data8[2..4] == Enc(hum)
            && f.data8[4..6] == Enc(tempIc) && f.data8[6..8] == Enc(pressure)
  {
    hide Unsigned, Hi, Lo;
  }

  // ---- The round trip, value by value ----

  // What a receiver holds after a report, place by place: the sender's values as far as the sender has
  // any, its own old ones behind them, and the sender's counts unless there was nothing to count.
  lemma {:induction false} ReportArrives(v: Values, s: Values, id: byte, clock: nat -> nat)
    requires v.Valid() && s.Valid() && (v.canId == id || clock(0) - v.updateTime > 20000)
    requires 0 <= s.cellNum < 256 && 0 <= s.tempAdcNum
    ensures var v1 := Feed(v, StatusFrames(s, id), clock, 0);
            && (forall i: nat :: i < 50 ==> v1.vCell[i] == if i < s.cellNum then s.vCell[i] else v.vCell[i])
            && (forall i: nat :: i < 50 ==> v1.balState[i] == if i < s.cellNum then s.balState[i] else v.balState[i])
            && (forall i: nat :: i < 50 ==>
                  v1.tempsAdc[i] == if i < s.tempAdcNum then s.tempsAdc[i] else v.tempsAdc[i])
            && v1.cellNum == (if 0 < s.cellNum then s.cellNum else v.cellNum)
            && v1.tempAdcNum == (if s.tempAdcNum == 0 then v.tempAdcNum
                                 else if s.tempAdcNum < 50 then s.tempAdcNum else 50)
            && v1.tempHum == s.tempHum && v1.hum == s.hum && v1.tempIc == s.tempIc && v1.pressure == s.pressure
  {
    hide Feed, StatusFrames;
    StatusRoundTrip(v, s, id, clock);
  }

  // From system start: a report that begins later than two seconds is received whole, whoever sends it.
  lemma {:induction false} FirstReportArrives(s: Values, id: byte, clock: nat -> nat)
    requires s.Valid() && 0 <= s.cellNum < 256 && 0 <= s.tempAdcNum <= 50 && 20000 < clock(0)
    ensures var v1 := Feed(Initial(), StatusFrames(s, id), clock, 0);
            && v1.canId == id && v1.cellNum == s.cellNum && v1.tempAdcNum == s.tempAdcNum
            && (forall i: nat :: i < 50 && i < s.cellNum ==>
                  v1.vCell[i] == s.vCell[i] && v1.balState[i] == s.balState[i])
            && (forall i: nat :: i < s.tempAdcNum ==> v1.tempsAdc[i] == s.tempsAdc[i])
            && v1.tempHum == s.tempHum && v1.hum == s.hum && v1.tempIc == s.tempIc && v1.pressure == s.pressure
  {
    ReportArrives(Initial(), s, id, clock);
    AllFrom(s, id);
    var fs := StatusFrames(s, id);
    hide StatusFrames, ProcessFrame;
    OwnerAfter(Initial(), fs, id, clock, 0);
  }

  // Nothing that comes before that is taken from anybody.
  lemma {:induction false} EarlyFramesAreIgnored(v: Values, fs: seq<BmsFrame>, clock: nat -> nat, k: nat)
    requires v == Initial() && forall j: nat :: clock(j) <= 20000
    ensures Feed(v, fs, clock, k) == v
    decreases |fs|
  {
    if fs != [] {
      OthersAreIgnored(v, fs[0], clock(k));
      EarlyFramesAreIgnored(v, fs[1..], clock, k + 1);
    }
  }

  lemma {:induction false} AllFrom(s: Values, id: byte)
    requires s.Valid() && 0 <= s.cellNum < 256 && 0 <= s.tempAdcNum
    ensures StatusFrames(s, id) != [] && forall f <- StatusFrames(s, id) :: f.id == id
  {
    hide Chunk, Word;
    ChunksFrom(VCell, id, Prefix(s.vCell, s.CellMax()), s.cellNum % 0x100, 0);
    ChunksFrom(Temps, id, Prefix(s.tempsAdc, s.TempMax()), s.TempMax() % 0x100, 0);
  }

  lemma {:induction false} ChunksFrom(cmd: Command, id: byte, vals: seq<int16>, num: byte, from: int)
    requires 0 <= from && |vals| <= MAX
    ensures forall f <- Chunks(cmd, id, vals, num, from) :: f.id == id
    decreases |vals| - from
  {
    if from < |vals| {
      ChunksFrom(cmd, id, vals, num, from + 3);
    }
  }

  lemma {:induction false} OwnerAfter(v: Values, fs: seq<BmsFrame>, id: byte, clock: nat -> nat, k: nat)
    requires v.Valid() && (v.canId == id || (fs != [] && clock(k) - v.updateTime > 20000))
    requires forall f <- fs :: f.id == id
    ensures Feed(v, fs, clock, k).canId == id
    decreases |fs|
  {
    hide ProcessFrame;
    if fs != [] {
      TakeOver(v, fs[0], clock(k));
      OwnerAfter(ProcessFrame(v, fs[0], clock(k)), fs[1..], id, clock, k + 1);
    }
  }
}
