/** A receiver that takes all frames of one status report ends up with the sender's values (bms.c:227-305, 591-655). */
module BmsRoundTrip {
  import opened Bytes
  import opened BmsClock
  import opened BmsCodec

  lemma {:induction false} FeedConcat(v: Values, a: seq<BmsFrame>, b: seq<BmsFrame>, clock: nat -> nat, k: nat)
    requires v.Valid()
    ensures Feed(v, a + b, clock, k) == Feed(Feed(v, a, clock, k), b, clock, k + |a|)
    decreases |a|
  {
    hide ProcessFrame;
    if a == [] {
      assert a + b == b;
    } else {
      assert (a + b)[1..] == a[1..] + b;
      FeedConcat(ProcessFrame(v, a[0], clock(k)), a[1..], b, clock, k + 1);
    }
  }

  lemma ChunkReads(cmd: Command, id: byte, vals: seq<int16>, num: byte, from: int, j: nat)
    requires 0 <= from < |vals| <= MAX && from + j < |vals| && j < 3
    ensures var f := Chunk(cmd, id, vals, num, from);
            && f.cmd == cmd && f.id == id && f.data8[0] == from && f.data8[1] == num
            && f.len == 2 + 2 * (Min(from + 3, |vals|) - from)
            && Dec(f.data8[2 + 2 * j], f.data8[3 + 2 * j]) == vals[from + j]
  {
    DecEnc(vals[from + j]);
  }

  // `arr` with the values from..to taken from `vals`.
  function Spliced(arr: seq<int16>, vals: seq<int16>, from: nat, to: nat): (r: seq<int16>)
    requires from <= to <= |vals| <= |arr|
    ensures |r| == |arr|
  {
    arr[..from] + vals[from..to] + arr[to..]
  }

  // The frame carries the values from..to.
  ghost predicate Carries(f: BmsFrame, vals: seq<int16>, from: nat, to: nat)
    requires from <= to <= |vals| && to <= from + 3
  {
    f.len == 2 + 2 * (to - from)
    && forall j: nat :: j < to - from ==> Dec(f.data8[2 + 2 * j], f.data8[3 + 2 * j]) == vals[from + j]
  }

  // The receiver's loop puts the values of a frame, from number ofs on, where the sender took them.
  lemma {:induction false} ValuesAreStored(f: BmsFrame, arr: seq<int16>, vals: seq<int16>, from: int, ofs: int, to: int)
    requires |arr| == MAX && 0 <= from <= ofs <= to <= |vals| <= MAX && to <= from + 3 && Carries(f, vals, from, to)
    ensures StoreValues(Spliced(arr, vals, from, ofs), ofs, f, 2 + 2 * (ofs - from)) == Spliced(arr, vals, from, to)
    decreases |vals| - ofs
  {
    if ofs < to {
      var j: nat := ofs - from;
      assert Dec(f.data8[2 + 2 * j], f.data8[3 + 2 * j]) == vals[ofs];
      assert Spliced(arr, vals, from, ofs)[ofs := vals[ofs]] == Spliced(arr, vals, from, ofs + 1);
      hide Spliced, Dec, Carries;
      ValuesAreStored(f, arr, vals, from, ofs + 1, to);
    }
  }

  lemma ChunkIsStored(cmd: Command, id: byte, vals: seq<int16>, num: byte, from: int, arr: seq<int16>)
    requires |arr| == MAX && 0 <= from < |vals| <= MAX
    ensures var to := Min(from + 3, |vals|);
            StoreValues(arr, from, Chunk(cmd, id, vals, num, from), 2) == Spliced(arr, vals, from, to)
  {
    var f, to := Chunk(cmd, id, vals, num, from), Min(from + 3, |vals|);
    assert Spliced(arr, vals, from, from) == arr;
    hide Chunk, Dec, StoreValues, Spliced;
    ChunkReads(cmd, id, vals, num, from, 0);
    forall j: nat | j < to - from
      ensures Dec(f.data8[2 + 2 * j], f.data8[3 + 2 * j]) == vals[from + j]
    {
      ChunkReads(cmd, id, vals, num, from, j);
    }
    ValuesAreStored(f, arr, vals, from, from, to);
  }

  function ValuesOf(v: Values, cmd: Command): seq<int16> { if cmd.VCell? then v.vCell else v.tempsAdc }

  function WithValues(v: Values, cmd: Command, arr: seq<int16>, num: int): Values {
    if cmd.VCell? then v.(vCell := arr, cellNum := num) else v.(tempsAdc := arr, tempAdcNum := num)
  }

  // The count the receiver holds after a list of n values.
  function Announced(v: Values, cmd: Command, n: int, num: int): int {
    if n > 0 then num else if cmd.VCell? then v.cellNum else v.tempAdcNum
  }

  // Everything but the time stamp, with the sender as the owner.
  function Owned(v: Values, id: byte): Values { v.(canId := id, updateTime := 0) }

  lemma ChunkArrives(v: Values, cmd: Command, id: byte, vals: seq<int16>, num: byte, from: int, now: nat)
    requires v.Valid() && (cmd.VCell? || cmd.Temps?) && v.Accepts(id, now)
    requires 0 <= from < |vals| <= MAX && ValuesOf(v, cmd)[..from] == vals[..from]
    ensures var to := Min(from + 3, |vals|);
            var v1 := ProcessFrame(v, Chunk(cmd, id, vals, num, from), now);
            && v1.canId == id
            && Owned(v1, id) == Owned(WithValues(v, cmd, vals[..to] + ValuesOf(v, cmd)[to..], num), id)
  {
    var to := Min(from + 3, |vals|);
    ChunkReads(cmd, id, vals, num, from, 0);
    ChunkIsStored(cmd, id, vals, num, from, ValuesOf(v, cmd));
    assert vals[..from] + vals[from..to] == vals[..to];
    hide Chunk, StoreValues;
  }

  lemma SameTail(head: seq<int16>, s: seq<int16>, n: int)
    requires |head| <= n <= |s|
    ensures (head + s[|head|..])[n..] == s[n..]
  {
  }

  // All chunks of a value list, in order, replace the first |vals| values and announce their number.
  lemma {:induction false} ChunksArrive(
      v: Values, cmd: Command, id: byte, vals: seq<int16>, num: byte, from: int, clock: nat -> nat, k: nat)
    requires v.Valid() && (cmd.VCell? || cmd.Temps?) && v.Accepts(id, clock(k))
    requires 0 <= from < |vals| <= MAX && ValuesOf(v, cmd)[..from] == vals[..from]
    ensures var v1 := Feed(v, Chunks(cmd, id, vals, num, from), clock, k);
            && v1.canId == id
            && Owned(v1, id) == Owned(WithValues(v, cmd, vals + ValuesOf(v, cmd)[|vals|..], num), id)
    decreases |vals| - from
  {
    hide Chunk, ProcessFrame;
    var f, to := Chunk(cmd, id, vals, num, from), Min(from + 3, |vals|);
    var v1 := ProcessFrame(v, f, clock(k));
    ChunkArrives(v, cmd, id, vals, num, from, clock(k));
    var rest := Chunks(cmd, id, vals, num, from + 3);
    assert Chunks(cmd, id, vals, num, from) == [f] + rest;
    assert ([f] + rest)[1..] == rest;
    if from + 3 < |vals| {
      ChunksArrive(v1, cmd, id, vals, num, to, clock, k + 1);
      SameTail(vals[..to], ValuesOf(v, cmd), |vals|);
    } else {
      assert Feed(v1, [], clock, k + 1) == v1;
      assert vals[..to] == vals;
    }
  }

  // Bit i of the packed word is the state of cell i.
  lemma {:induction false} BalWordBit(bits: seq<bool>, i: nat)
    requires i < |bits|
    ensures Shr(Word(bits), i) % 2 == 1 <==> bits[i]
  {
    if i > 0 {
      BalWordBit(bits[1..], i - 1);
    }
  }

  lemma Nest1(w: nat) ensures w / 0x1_0000 == w / 0x100 / 0x100 {}

  lemma Nest2(w: nat) ensures w / 0x100_0000 == w / 0x1_0000 / 0x100 {}

  lemma Nest3(w: nat) ensures w / 0x1_0000_0000 == w / 0x100_0000 / 0x100 {}

  lemma Nest4(w: nat) ensures w / 0x100_0000_0000 == w / 0x1_0000_0000 / 0x100 {}

  lemma Nest5(w: nat) ensures w / 0x1_0000_0000_0000 == w / 0x100_0000_0000 / 0x100 {}

  lemma {:induction false} SevenBytes(w: nat)
    requires w < 0x100_0000_0000_0000
    ensures w == w / 0x1_0000_0000_0000 % 0x100 * 0x1_0000_0000_0000 + w / 0x100_0000_0000 % 0x100 * 0x100_0000_0000
                 + w / 0x1_0000_0000 % 0x100 * 0x1_0000_0000 + w / 0x100_0000 % 0x100 * 0x100_0000
                 + w / 0x1_0000 % 0x100 * 0x1_0000 + w / 0x100 % 0x100 * 0x100 + w % 0x100
  {
    Nest1(w);
    Nest2(w);
    Nest3(w);
    Nest4(w);
    Nest5(w);
  }

  // The 56-bit word sent as seven bytes and read as two 32-bit words is the same word.
  lemma {:induction false} BalFrameReadsBack(id: byte, cellMax: byte, w: nat)
    requires w < 0x100_0000_0000_0000
    ensures ReadBal(BalFrame(id, cellMax, w)) == w
  {
    SevenBytes(w);
    var d := BalFrame(id, cellMax, w).data8;
    var b6: int, b5: int, b4: int, b3: int, b2: int, b1: int, b0: int := d[1], d[2], d[3], d[4], d[5], d[6], d[7];
    assert w == b6 * 0x1_0000_0000_0000 + b5 * 0x100_0000_0000 + b4 * 0x1_0000_0000 + b3 * 0x100_0000
                + b2 * 0x1_0000 + b1 * 0x100 + b0;
    TwoWords(d[0], b6, b5, b4);
  }

  // The mask 0x00FFFFFF takes the count byte off the first word.
  lemma TwoWords(n: byte, b6: int, b5: int, b4: int)
    requires 0 <= b6 < 0x100 && 0 <= b5 < 0x100 && 0 <= b4 < 0x100
    ensures (n * 0x100_0000 + b6 * 0x1_0000 + b5 * 0x100 + b4) % 0x100_0000 == b6 * 0x1_0000 + b5 * 0x100 + b4
  {
  }

  lemma BalWordFits(bits: seq<bool>)
    requires |bits| <= 56
    ensures Word(bits) < 0x100_0000_0000_0000
  {
    hide Word, Pow2;
    Pow2Grows(|bits|, 56);
    Pow2Of56();
  }

  lemma Pow2Of56()
    ensures Pow2(56) == 0x100_0000_0000_0000
  {
    hide Pow2;
    Pow2OfZero();
    Pow2Byte(0);
    Pow2Byte(8);
    Pow2Byte(16);
    Pow2Byte(24);
    Pow2Byte(32);
    Pow2Byte(40);
    Pow2Byte(48);
  }

  lemma Pow2OfZero()
    ensures Pow2(0) == 1
  {
  }

  lemma Pow2Byte(n: nat)
    ensures Pow2(n + 8) == 0x100 * Pow2(n)
  {
    assert Pow2(n + 2) == 4 * Pow2(n);
    assert Pow2(n + 4) == 4 * Pow2(n + 2);
    assert Pow2(n + 6) == 4 * Pow2(n + 4);
  }

  lemma {:induction false} BitsArrive(before: seq<bool>, bits: seq<bool>)
    requires |before| == MAX && |bits| <= MAX
    ensures StoreBits(before, |bits|, Word(bits)) == bits + before[|bits|..]
  {
    hide Word, Shr;
    var bits1 := StoreBits(before, |bits|, Word(bits));
    forall i | 0 <= i < |bits|
      ensures bits1[i] == bits[i]
    {
      BalWordBit(bits, i);
    }
  }

  lemma {:induction false} BalArrives(v: Values, id: byte, bits: seq<bool>, now: nat)
    requires v.Valid() && v.Accepts(id, now) && |bits| <= MAX
    ensures Owned(ProcessFrame(v, BalFrame(id, |bits|, Word(bits)), now), id)
            == Owned(v.(balState := bits + v.balState[|bits|..]), id)
    ensures ProcessFrame(v, BalFrame(id, |bits|, Word(bits)), now).canId == id
  {
    BalWordFits(bits);
    BalFrameReadsBack(id, |bits|, Word(bits));
    BitsArrive(v.balState, bits);
    var f := BalFrame(id, |bits|, Word(bits));
    assert f.data8[0] == |bits| && f.cmd == Bal && f.id == id;
    hide BalFrame, Word, ReadBal, StoreBits;
  }

  lemma HumArrives(v: Values, id: byte, tempHum: int16, hum: int16, tempIc: int16, pressure: int16, now: nat)
    requires v.Valid() && v.Accepts(id, now)
    ensures Owned(ProcessFrame(v, HumFrame(id, tempHum, hum, tempIc, pressure), now), id)
            == Owned(v.(tempHum := tempHum, hum := hum, tempIc := tempIc, pressure := pressure), id)
  {
    var f := HumFrame(id, tempHum, hum, tempIc, pressure);
    assert f.data8[..2] == Enc(tempHum) && f.data8[2..4] == Enc(hum);
    assert f.data8[4..6] == Enc(tempIc) && f.data8[6..8] == Enc(pressure);
    DecEnc(tempHum);
    DecEnc(hum);
    DecEnc(tempIc);
    DecEnc(pressure);
  }

  // All chunks of a value list; without values there is no chunk and the count stays what it was.
  lemma ValuesArrive(v: Values, cmd: Command, id: byte, vals: seq<int16>, num: byte, clock: nat -> nat, k: nat)
    requires v.Valid() && (cmd.VCell? || cmd.Temps?) && v.Accepts(id, clock(k)) && |vals| <= MAX
    ensures var fs := Chunks(cmd, id, vals, num, 0);
            var v1 := Feed(v, fs, clock, k);
            && v1.Accepts(id, clock(k + |fs|))
            && Owned(v1, id)
               == Owned(WithValues(v, cmd, vals + ValuesOf(v, cmd)[|vals|..], Announced(v, cmd, |vals|, num)), id)
  {
    if vals == [] {
      assert Chunks(cmd, id, vals, num, 0) == [];
      assert vals + ValuesOf(v, cmd)[|vals|..] == ValuesOf(v, cmd);
    } else {
      ChunksArrive(v, cmd, id, vals, num, 0, clock, k);
    }
  }

  // What the receiver should hold afterwards: the sender's values, behind them its own old ones, and
  // the sender's counts unless they are zero.
  function Received(v: Values, s: Values): Values
    requires v.Valid() && s.Valid() && 0 <= s.cellNum && 0 <= s.tempAdcNum
  {
    var n, t := s.CellMax(), s.TempMax();
    v.(cellNum := Announced(v, VCell, n, s.cellNum), vCell := s.vCell[..n] + v.vCell[n..],
       balState := s.balState[..n] + v.balState[n..],
       tempAdcNum := Announced(v, Temps, t, t), tempsAdc := s.tempsAdc[..t] + v.tempsAdc[t..],
       tempHum := s.tempHum, hum := s.hum, tempIc := s.tempIc, pressure := s.pressure)
  }

  // The first half of a report: cell voltages and balance bits.
  lemma {:induction false} CellsArrive(v: Values, s: Values, id: byte, clock: nat -> nat)
    requires v.Valid() && s.Valid() && v.Accepts(id, clock(0)) && 0 <= s.cellNum < 0x100
    ensures var n := s.CellMax();
            var fs := Chunks(VCell, id, s.vCell[..n], s.cellNum, 0) + [BalFrame(id, n, Word(s.balState[..n]))];
            var v1 := Feed(v, fs, clock, 0);
            && v1.canId == id
            && Owned(v1, id)
               == Owned(v.(cellNum := Announced(v, VCell, n, s.cellNum), vCell := s.vCell[..n] + v.vCell[n..],
                           balState := s.balState[..n] + v.balState[n..]), id)
  {
    var n := s.CellMax();
    var cells, bits := s.vCell[..n], s.balState[..n];
    var a, b := Chunks(VCell, id, cells, s.cellNum, 0), BalFrame(id, n, Word(bits));
    hide Chunks, BalFrame, ProcessFrame, Word;
    FeedConcat(v, a, [b], clock, 0);
    ValuesArrive(v, VCell, id, cells, s.cellNum, clock, 0);
    var v1 := Feed(v, a, clock, 0);
    BalArrives(v1, id, bits, clock(|a|));
    FeedOne(v1, b, clock, |a|);
  }

  // The second half: temperatures and the humidity frame.
  lemma TempsArrive(v: Values, s: Values, id: byte, clock: nat -> nat, k: nat)
    requires v.Valid() && s.Valid() && v.canId == id && 0 <= s.tempAdcNum
    ensures var t := s.TempMax();
            var fs := Chunks(Temps, id, s.tempsAdc[..t], t, 0) + [HumFrame(id, s.tempHum, s.hum, s.tempIc, s.pressure)];
            Owned(Feed(v, fs, clock, k), id)
            == Owned(v.(tempAdcNum := Announced(v, Temps, t, t), tempsAdc := s.tempsAdc[..t] + v.tempsAdc[t..],
                        tempHum := s.tempHum, hum := s.hum, tempIc := s.tempIc, pressure := s.pressure), id)
  {
    var t := s.TempMax();
    var c, d := Chunks(Temps, id, s.tempsAdc[..t], t, 0), HumFrame(id, s.tempHum, s.hum, s.tempIc, s.pressure);
    hide Chunks, HumFrame, ProcessFrame;
    FeedConcat(v, c, [d], clock, k);
    ValuesArrive(v, Temps, id, s.tempsAdc[..t], t, clock, k);
    var v1 := Feed(v, c, clock, k);
    HumArrives(v1, id, s.tempHum, s.hum, s.tempIc, s.pressure, clock(k + |c|));
    FeedOne(v1, d, clock, k + |c|);
  }

  lemma StatusFramesSplit(s: Values, id: byte)
    requires s.Valid() && 0 <= s.cellNum < 0x100 && 0 <= s.tempAdcNum
    ensures var n, t := s.CellMax(), s.TempMax();
            StatusFrames(s, id)
            == Chunks(VCell, id, s.vCell[..n], s.cellNum, 0) + [BalFrame(id, n, Word(s.balState[..n]))]
               + (Chunks(Temps, id, s.tempsAdc[..t], t, 0)
                  + [HumFrame(id, s.tempHum, s.hum, s.tempIc, s.pressure)])
  {
    hide Chunks, BalFrame, HumFrame, Word;
  }

  // The two halves make up the whole.
  lemma HalvesCompose(v: Values, s: Values, id: byte, v1: Values, v2: Values)
    requires v.Valid() && s.Valid() && v1.Valid() && 0 <= s.cellNum && 0 <= s.tempAdcNum
    requires var n := s.CellMax();
             Owned(v1, id)
             == Owned(v.(cellNum := Announced(v, VCell, n, s.cellNum), vCell := s.vCell[..n] + v.vCell[n..],
                         balState := s.balState[..n] + v.balState[n..]), id)
    requires var t := s.TempMax();
             Owned(v2, id)
             == Owned(v1.(tempAdcNum := Announced(v1, Temps, t, t), tempsAdc := s.tempsAdc[..t] + v1.tempsAdc[t..],
                          tempHum := s.tempHum, hum := s.hum, tempIc := s.tempIc, pressure := s.pressure), id)
    ensures Owned(v2, id) == Owned(Received(v, s), id)
  {
  }

  // One report, taken from its first frame on by a receiver that the sender owns or that has heard nothing
  // for more than 20000 ticks, transfers every cell voltage, balance bit and temperature, and all counts
  // that are not zero.
  lemma {:induction false} StatusRoundTrip(v: Values, s: Values, id: byte, clock: nat -> nat)
    requires v.Valid() && s.Valid() && (v.canId == id || clock(0) - v.updateTime > 20000)
    requires 0 <= s.cellNum < 0x100 && 0 <= s.tempAdcNum
    ensures Owned(Feed(v, StatusFrames(s, id), clock, 0), id) == Owned(Received(v, s), id)
  {
    hide Chunks, BalFrame, HumFrame, ProcessFrame, Word, Feed, StatusFrames, Owned, Received;
    var n, t := s.CellMax(), s.TempMax();
    var a := Chunks(VCell, id, s.vCell[..n], s.cellNum, 0) + [BalFrame(id, n, Word(s.balState[..n]))];
    var b := Chunks(Temps, id, s.tempsAdc[..t], t, 0) + [HumFrame(id, s.tempHum, s.hum, s.tempIc, s.pressure)];
    StatusFramesSplit(s, id);
    FeedConcat(v, a, b, clock, 0);
    CellsArrive(v, s, id, clock);
    var v1 := Feed(v, a, clock, 0);
    TempsArrive(v1, s, id, clock, |a|);
    HalvesCompose(v, s, id, v1, Feed(v1, b, clock, |a|));
  }

  lemma FeedOne(v: Values, f: BmsFrame, clock: nat -> nat, k: nat)
    requires v.Valid()
    ensures Feed(v, [f], clock, k) == ProcessFrame(v, f, clock(k))
  {
    assert [f][1..] == [];
  }

  // Without cells or temperatures no frame announces their number, so it arrives iff there are some
  // or the receiver's was zero already.
  lemma {:induction false} CountsArriveIff(v: Values, s: Values, id: byte, clock: nat -> nat)
    requires v.Valid() && s.Valid() && (v.canId == id || clock(0) - v.updateTime > 20000)
    requires 0 <= s.cellNum < 0x100 && 0 <= s.tempAdcNum
    ensures var v1 := Feed(v, StatusFrames(s, id), clock, 0);
            && (v1.cellNum == s.cellNum <==> 1 <= s.cellNum || v.cellNum == 0)
            && (v1.tempAdcNum == s.TempMax() <==> 1 <= s.tempAdcNum || v.tempAdcNum == 0)
  {
    StatusRoundTrip(v, s, id, clock);
    hide Feed, StatusFrames;
  }

  // The values of a module that has just started, announcing n cells and as many temperatures.
  function Announcing(n: int): (v: Values)
    ensures v.Valid()
  {
    Values(n, seq(MAX, _ => 0), seq(MAX, _ => false), n, seq(MAX, _ => 0), 0, 0, 0, 0, 7, 0)
  }

  // An input for the other case: the owner announced a cell and a temperature and now has neither.
  lemma CountsOfNothingAreLost(clock: nat -> nat)
    ensures var v := Feed(Announcing(1), StatusFrames(Announcing(0), 7), clock, 0); v.cellNum == v.tempAdcNum == 1
  {
    StatusRoundTrip(Announcing(1), Announcing(0), 7, clock);
    hide Feed, StatusFrames;
  }

  // ---- Frames of other senders in between ----

  function Own(fs: seq<BmsFrame>, id: byte): seq<BmsFrame> {
    if fs == [] then [] else (if fs[0].id == id then [fs[0]] else []) + Own(fs[1..], id)
  }

  // Each frame of another sender arrives at most two seconds after the owner's last one.
  predicate Timely(last: nat, fs: seq<BmsFrame>, id: byte, clock: nat -> nat, k: nat)
    decreases |fs|
  {
    fs == [] ||
    if fs[0].id == id then Timely(clock(k), fs[1..], id, clock, k + 1)
    else !Stale(last, clock(k)) && Timely(last, fs[1..], id, clock, k + 1)
  }

  // But for the time stamp, what a frame of the owner does not depend on when it arrives.
  lemma OwnFrame(v: Values, w: Values, f: BmsFrame, now: nat, later: nat)
    requires v.Valid() && w.Valid() && Owned(v, f.id) == Owned(w, f.id)
    requires v.Accepts(f.id, now) && w.Accepts(f.id, later)
    ensures var v1, w1 := ProcessFrame(v, f, now), ProcessFrame(w, f, later);
            && Owned(v1, f.id) == Owned(w1, f.id)
            && v1.canId == w1.canId == f.id && v1.updateTime == now
  {
    hide Dec, ReadBal, StoreBits, StoreValues;
  }

  lemma {:induction false} ForeignFramesAreIgnored(
      v: Values, w: Values, fs: seq<BmsFrame>, id: byte, clock: nat -> nat, k: nat, clock1: nat -> nat, j: nat)
    requires v.Valid() && w.Valid() && Owned(v, id) == Owned(w, id) && v.canId == w.canId == id
    requires Timely(v.updateTime, fs, id, clock, k)
    ensures Owned(Feed(v, fs, clock, k), id) == Owned(Feed(w, Own(fs, id), clock1, j), id)
    decreases |fs|
  {
    hide ProcessFrame, Owned;
    if fs != [] {
      var f := fs[0];
      if f.id == id {
        var v1, w1 := ProcessFrame(v, f, clock(k)), ProcessFrame(w, f, clock1(j));
        OwnFrame(v, w, f, clock(k), clock1(j));
        ForeignFramesAreIgnored(v1, w1, fs[1..], id, clock, k + 1, clock1, j + 1);
        assert Own(fs, id)[1..] == Own(fs[1..], id);
      } else {
        ForeignFrame(v, f, clock(k));
        ForeignFramesAreIgnored(v, w, fs[1..], id, clock, k + 1, clock1, j);
        assert Own(fs, id) == Own(fs[1..], id);
      }
    }
  }

  lemma ForeignFrame(v: Values, f: BmsFrame, now: nat)
    requires v.Valid() && !v.Accepts(f.id, now)
    ensures ProcessFrame(v, f, now) == v
  {
  }

  // The round trip on a shared bus: every merge of the report with frames of other senders does what the
  // report does alone, if the sender owns the receiver, or its first frame takes it over from a stale
  // owner, and it is never silent for so long that another sender takes over.
  lemma {:induction false} SharedBusRoundTrip(v: Values, s: Values, id: byte, fs: seq<BmsFrame>, clock: nat -> nat)
    requires v.Valid() && s.Valid() && 0 <= s.cellNum < 0x100 && 0 <= s.tempAdcNum
    requires v.canId == id || (fs != [] && fs[0].id == id && clock(0) - v.updateTime > 20000)
    requires Timely(v.updateTime, fs, id, clock, 0) && Own(fs, id) == StatusFrames(s, id)
    ensures Owned(Feed(v, fs, clock, 0), id) == Owned(Received(v, s), id)
  {
    hide ProcessFrame, StatusFrames, Received, Owned;
    StatusRoundTrip(v, s, id, clock);
    if v.canId == id {
      ForeignFramesAreIgnored(v, v, fs, id, clock, 0, clock, 0);
    } else {
      var v1 := ProcessFrame(v, fs[0], clock(0));
      OwnFrame(v, v, fs[0], clock(0), clock(0));
      ForeignFramesAreIgnored(v1, v1, fs[1..], id, clock, 1, clock, 1);
      assert Own(fs, id)[1..] == Own(fs[1..], id);
    }
  }
}
