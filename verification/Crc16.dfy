/** The 16-bit CRC that guards buffers and stored code (util/crc.c:26-65): what the table of the source
    computes, and how the CRC tells a string of zeros from one with a single other byte. */
module Crc16 {
  import opened Bytes

  const POLY: bv16 := 0x1021

  function Shift(x: bv16): bv16 { if x & 0x8000 != 0 then (x << 1) ^ POLY else x << 1 }

  // Eight steps of the shift register.
  function ShiftByte(x: bv16): bv16 { Shift(Shift(Shift(Shift(Shift(Shift(Shift(Shift(x)))))))) }

  function Xor(a: bv16, b: bv16): bv16 { a ^ b }

  // What they make of a byte in the upper half.
  function Closed(i: bv8): bv16 {
    var t := (i ^ (i >> 4)) as bv16;
    (t << 12) ^ (t << 5) ^ t
  }

  lemma ClosedIsShiftByte(i: bv8)
    ensures Closed(i) == ShiftByte((i as bv16) << 8)
  {
  }

  lemma ClosedOfNibbles(i: bv8)
    ensures Closed(i) == Xor(Closed((i >> 4) << 4), Closed(i & 0xF))
  {
  }

  // Sixteen entries of the table that differ in the low places of the index.
  predicate IsRow(row: seq<bv16>, base: bv16) {
    && |row| == 16
    && row[0] == Xor(base, 0x0000) && row[1] == Xor(base, 0x1021) && row[2] == Xor(base, 0x2042)
    && row[3] == Xor(base, 0x3063) && row[4] == Xor(base, 0x4084) && row[5] == Xor(base, 0x50A5)
    && row[6] == Xor(base, 0x60C6) && row[7] == Xor(base, 0x70E7) && row[8] == Xor(base, 0x8108)
    && row[9] == Xor(base, 0x9129) && row[10] == Xor(base, 0xA14A) && row[11] == Xor(base, 0xB16B)
    && row[12] == Xor(base, 0xC18C) && row[13] == Xor(base, 0xD1AD) && row[14] == Xor(base, 0xE1CE)
    && row[15] == Xor(base, 0xF1EF)
  }

  function Row0(): (row: seq<bv16>)
    ensures IsRow(row, 0x0000)
  {
    [0x0000, 0x1021, 0x2042, 0x3063, 0x4084, 0x50A5, 0x60C6, 0x70E7,
     0x8108, 0x9129, 0xA14A, 0xB16B, 0xC18C, 0xD1AD, 0xE1CE, 0xF1EF]
  }

  function Row1(): (row: seq<bv16>)
    ensures IsRow(row, 0x1231)
  {
    [0x1231, 0x0210, 0x3273, 0x2252, 0x52B5, 0x4294, 0x72F7, 0x62D6,
     0x9339, 0x8318, 0xB37B, 0xA35A, 0xD3BD, 0xC39C, 0xF3FF, 0xE3DE]
  }

  function Row2(): (row: seq<bv16>)
    ensures IsRow(row, 0x2462)
  {
    [0x2462, 0x3443, 0x0420, 0x1401, 0x64E6, 0x74C7, 0x44A4, 0x5485,
     0xA56A, 0xB54B, 0x8528, 0x9509, 0xE5EE, 0xF5CF, 0xC5AC, 0xD58D]
  }

  function Row3(): (row: seq<bv16>)
    ensures IsRow(row, 0x3653)
  {
    [0x3653, 0x2672, 0x1611, 0x0630, 0x76D7, 0x66F6, 0x5695, 0x46B4,
     0xB75B, 0xA77A, 0x9719, 0x8738, 0xF7DF, 0xE7FE, 0xD79D, 0xC7BC]
  }

  function Row4(): (row: seq<bv16>)
    ensures IsRow(row, 0x48C4)
  {
    [0x48C4, 0x58E5, 0x6886, 0x78A7, 0x0840, 0x1861, 0x2802, 0x3823,
     0xC9CC, 0xD9ED, 0xE98E, 0xF9AF, 0x8948, 0x9969, 0xA90A, 0xB92B]
  }

  function Row5(): (row: seq<bv16>)
    ensures IsRow(row, 0x5AF5)
  {
    [0x5AF5, 0x4AD4, 0x7AB7, 0x6A96, 0x1A71, 0x0A50, 0x3A33, 0x2A12,
     0xDBFD, 0xCBDC, 0xFBBF, 0xEB9E, 0x9B79, 0x8B58, 0xBB3B, 0xAB1A]
  }

  function Row6(): (row: seq<bv16>)
    ensures IsRow(row, 0x6CA6)
  {
    [0x6CA6, 0x7C87, 0x4CE4, 0x5CC5, 0x2C22, 0x3C03, 0x0C60, 0x1C41,
     0xEDAE, 0xFD8F, 0xCDEC, 0xDDCD, 0xAD2A, 0xBD0B, 0x8D68, 0x9D49]
  }

  function Row7(): (row: seq<bv16>)
    ensures IsRow(row, 0x7E97)
  {
    [0x7E97, 0x6EB6, 0x5ED5, 0x4EF4, 0x3E13, 0x2E32, 0x1E51, 0x0E70,
     0xFF9F, 0xEFBE, 0xDFDD, 0xCFFC, 0xBF1B, 0xAF3A, 0x9F59, 0x8F78]
  }

  function Row8(): (row: seq<bv16>)
    ensures IsRow(row, 0x9188)
  {
    [0x9188, 0x81A9, 0xB1CA, 0xA1EB, 0xD10C, 0xC12D, 0xF14E, 0xE16F,
     0x1080, 0x00A1, 0x30C2, 0x20E3, 0x5004, 0x4025, 0x7046, 0x6067]
  }

  function Row9(): (row: seq<bv16>)
    ensures IsRow(row, 0x83B9)
  {
    [0x83B9, 0x9398, 0xA3FB, 0xB3DA, 0xC33D, 0xD31C, 0xE37F, 0xF35E,
     0x02B1, 0x1290, 0x22F3, 0x32D2, 0x4235, 0x5214, 0x6277, 0x7256]
  }

  function RowA(): (row: seq<bv16>)
    ensures IsRow(row, 0xB5EA)
  {
    [0xB5EA, 0xA5CB, 0x95A8, 0x8589, 0xF56E, 0xE54F, 0xD52C, 0xC50D,
     0x34E2, 0x24C3, 0x14A0, 0x0481, 0x7466, 0x6447, 0x5424, 0x4405]
  }

  function RowB(): (row: seq<bv16>)
    ensures IsRow(row, 0xA7DB)
  {
    [0xA7DB, 0xB7FA, 0x8799, 0x97B8, 0xE75F, 0xF77E, 0xC71D, 0xD73C,
     0x26D3, 0x36F2, 0x0691, 0x16B0, 0x6657, 0x7676, 0x4615, 0x5634]
  }

  function RowC(): (row: seq<bv16>)
    ensures IsRow(row, 0xD94C)
  {
    [0xD94C, 0xC96D, 0xF90E, 0xE92F, 0x99C8, 0x89E9, 0xB98A, 0xA9AB,
     0x5844, 0x4865, 0x7806, 0x6827, 0x18C0, 0x08E1, 0x3882, 0x28A3]
  }

  function RowD(): (row: seq<bv16>)
    ensures IsRow(row, 0xCB7D)
  {
    [0xCB7D, 0xDB5C, 0xEB3F, 0xFB1E, 0x8BF9, 0x9BD8, 0xABBB, 0xBB9A,
     0x4A75, 0x5A54, 0x6A37, 0x7A16, 0x0AF1, 0x1AD0, 0x2AB3, 0x3A92]
  }

  function RowE(): (row: seq<bv16>)
    ensures IsRow(row, 0xFD2E)
  {
    [0xFD2E, 0xED0F, 0xDD6C, 0xCD4D, 0xBDAA, 0xAD8B, 0x9DE8, 0x8DC9,
     0x7C26, 0x6C07, 0x5C64, 0x4C45, 0x3CA2, 0x2C83, 0x1CE0, 0x0CC1]
  }

  function RowF(): (row: seq<bv16>)
    ensures IsRow(row, 0xEF1F)
  {
    [0xEF1F, 0xFF3E, 0xCF5D, 0xDF7C, 0xAF9B, 0xBFBA, 0x8FD9, 0x9FF8,
     0x6E17, 0x7E36, 0x4E55, 0x5E74, 0x2E93, 0x3EB2, 0x0ED1, 0x1EF0]
  }

  function LowerRow(h: bv8): (row: seq<bv16>)
    requires h < 8
    ensures |row| == 16
  {
    match h
    case 0 => Row0() case 1 => Row1() case 2 => Row2() case 3 => Row3()
    case 4 => Row4() case 5 => Row5() case 6 => Row6() case _ => Row7()
  }

  function UpperRow(h: bv8): (row: seq<bv16>)
    requires 8 <= h < 16
    ensures |row| == 16
  {
    match h
    case 0x8 => Row8() case 0x9 => Row9() case 0xA => RowA() case 0xB => RowB()
    case 0xC => RowC() case 0xD => RowD() case 0xE => RowE() case _ => RowF()
  }

  function Row(h: bv8): (row: seq<bv16>)
    requires h < 16
    ensures |row| == 16
  {
    if h < 8 then LowerRow(h) else UpperRow(h)
  }

  function Entry(row: seq<bv16>, l: bv8): bv16
    requires |row| == 16
  {
    match l
    case 0x0 => row[0] case 0x1 => row[1] case 0x2 => row[2] case 0x3 => row[3] case 0x4 => row[4] case 0x5 => row[5]
    case 0x6 => row[6] case 0x7 => row[7] case 0x8 => row[8] case 0x9 => row[9] case 0xA => row[10]
    case 0xB => row[11] case 0xC => row[12] case 0xD => row[13] case 0xE => row[14] case _ => row[15]
  }

  lemma ClosedOfLow()
    ensures Closed(0) == 0x0000 && Closed(1) == 0x1021 && Closed(2) == 0x2042 && Closed(3) == 0x3063
    ensures Closed(4) == 0x4084 && Closed(5) == 0x50A5 && Closed(6) == 0x60C6 && Closed(7) == 0x70E7
    ensures Closed(8) == 0x8108 && Closed(9) == 0x9129 && Closed(10) == 0xA14A && Closed(11) == 0xB16B
    ensures Closed(12) == 0xC18C && Closed(13) == 0xD1AD && Closed(14) == 0xE1CE && Closed(15) == 0xF1EF
  {
  }

  lemma ClosedOfHigh()
    ensures Closed(0x00) == 0x0000 && Closed(0x10) == 0x1231 && Closed(0x20) == 0x2462 && Closed(0x30) == 0x3653
    ensures Closed(0x40) == 0x48C4 && Closed(0x50) == 0x5AF5 && Closed(0x60) == 0x6CA6 && Closed(0x70) == 0x7E97
    ensures Closed(0x80) == 0x9188 && Closed(0x90) == 0x83B9 && Closed(0xA0) == 0xB5EA && Closed(0xB0) == 0xA7DB
    ensures Closed(0xC0) == 0xD94C && Closed(0xD0) == 0xCB7D && Closed(0xE0) == 0xFD2E && Closed(0xF0) == 0xEF1F
  {
  }

  lemma LowerRowIsRow(h: bv8)
    requires h < 8
    ensures IsRow(LowerRow(h), Closed(h << 4))
  {
    hide IsRow, Closed;
    ClosedOfHigh();
  }

  lemma UpperRowIsRow(h: bv8)
    requires 8 <= h < 16
    ensures IsRow(UpperRow(h), Closed(h << 4))
  {
    hide IsRow, Closed;
    ClosedOfHigh();
  }

  lemma RowIsRow(h: bv8)
    requires h < 16
    ensures IsRow(Row(h), Closed(h << 4))
  {
    hide IsRow, Closed, LowerRow, UpperRow;
    if h < 8 {
      LowerRowIsRow(h);
    } else {
      UpperRowIsRow(h);
    }
  }

  lemma EntryIsClosed(row: seq<bv16>, base: bv16, l: bv8)
    requires IsRow(row, base) && l < 16
    ensures Entry(row, l) == Xor(base, Closed(l))
  {
    hide Xor, Closed;
    ClosedOfLow();
  }

  // crc16_tab, in rows of sixteen.
  function Table(i: bv8): bv16 { Entry(Row(i >> 4), i & 0xF) }

  lemma TableIsClosed(i: bv8)
    ensures Table(i) == Closed(i)
  {
    hide Closed, Row, Entry, IsRow;
    ClosedOfNibbles(i);
    RowIsRow(i >> 4);
    EntryIsClosed(Row(i >> 4), Closed((i >> 4) << 4), i & 0xF);
  }

  // Each entry is what eight steps of the shift register make of its index.
  lemma TableIsShiftByte(i: bv8)
    ensures Table(i) == ShiftByte((i as bv16) << 8)
  {
    hide Table, Closed, ShiftByte;
    TableIsClosed(i);
    ClosedIsShiftByte(i);
  }

  // The checksum after one more byte, and after all of them.
  function Update(cksum: bv16, b: bv8): bv16 {
    Table((((cksum >> 8) ^ (b as bv16)) & 0xFF) as bv8) ^ (cksum << 8)
  }

  function Fold(cksum: bv16, s: seq<bv8>): bv16
    decreases |s|
  {
    if s == [] then cksum else Fold(Update(cksum, s[0]), s[1..])
  }

  function Value(cksum: bv16): word16 { cksum as word16 }

  lemma ValueZeroIff(cksum: bv16)
    ensures Value(cksum) == 0 <==> cksum == 0
  {
  }

  function Crc(s: seq<bv8>): word16 { Value(Fold(0, s)) }

  lemma {:induction false} FoldSnoc(cksum: bv16, s: seq<bv8>, b: bv8)
    ensures Fold(cksum, s + [b]) == Update(Fold(cksum, s), b)
    decreases |s|
  {
    hide Update;
    if s == [] {
      assert [] + [b] == [b] && [b][1..] == [];
    } else {
      assert (s + [b])[1..] == s[1..] + [b];
      FoldSnoc(Update(cksum, s[0]), s[1..], b);
    }
  }

  // crc16_rolling
  method Rolling(cksum: bv16, buf: seq<bv8>) returns (res: bv16)
    ensures res == Fold(cksum, buf)
  {
    hide Update, Fold;
    res := cksum;
    assert buf[..0] == [] && Fold(cksum, []) == cksum by { FoldOfNothing(cksum); }
    for i := 0 to |buf|
      invariant res == Fold(cksum, buf[..i])
    {
      FoldSnoc(cksum, buf[..i], buf[i]);
      assert buf[..i + 1] == buf[..i] + [buf[i]];
      res := Update(res, buf[i]);
    }
    assert buf[..|buf|] == buf;
  }

  lemma FoldOfNothing(cksum: bv16)
    ensures Fold(cksum, []) == cksum
  {
  }

  method Compute(buf: seq<bv8>) returns (crc: word16)
    ensures crc == Crc(buf)
  {
    hide Fold, Value;
    var cksum := Rolling(0, buf);
    crc := Value(cksum);
  }

  // ---- Zeros, and one other byte among them ----

  predicate AllZero(s: seq<bv8>) { forall i :: 0 <= i < |s| ==> s[i] == 0 }

  predicate OnlyByte(s: seq<bv8>, q: int) {
    0 <= q < |s| && s[q] != 0 && forall i :: 0 <= i < |s| && i != q ==> s[i] == 0
  }

  // A byte that is not zero shows in the lower half of its entry.
  lemma ClosedZeroIff(i: bv8)
    ensures Closed(i) & 0xFF == 0 <==> i == 0
    ensures Closed(0) == 0
  {
  }

  lemma HalvesOf(cksum: bv16, e: bv16)
    ensures e & 0xFF != 0 ==> e ^ (cksum << 8) != 0
    ensures cksum & 0xFF00 == 0 && cksum << 8 == 0 ==> cksum == 0
    ensures 0 ^ (cksum << 8) == cksum << 8
  {
  }

  lemma IndexZeroIff(cksum: bv16, b: bv8)
    ensures (((cksum >> 8) ^ 0) & 0xFF) as bv8 == 0 <==> cksum & 0xFF00 == 0
    ensures (((0 >> 8) ^ (b as bv16)) & 0xFF) as bv8 == b
  {
  }

  // One step maps only zero to zero, and shows the byte.
  lemma UpdateZeroIff(cksum: bv16, b: bv8)
    ensures Update(cksum, 0) == 0 <==> cksum == 0
    ensures Update(0, b) == 0 <==> b == 0
  {
    hide Table, Closed;
    var i := (((cksum >> 8) ^ 0) & 0xFF) as bv8;
    TableIsClosed(i);
    TableIsClosed(b);
    ClosedZeroIff(i);
    ClosedZeroIff(b);
    IndexZeroIff(cksum, b);
    HalvesOf(cksum, Table(i));
    HalvesOf(0, Table(b));
  }

  lemma {:induction false} FoldOfZeros(cksum: bv16, s: seq<bv8>)
    requires AllZero(s)
    ensures Fold(cksum, s) == 0 <==> cksum == 0
    decreases |s|
  {
    hide Update;
    if s != [] {
      UpdateZeroIff(cksum, 0);
      FoldOfZeros(Update(cksum, s[0]), s[1..]);
    }
  }

  lemma {:induction false} FoldOfOnlyByte(s: seq<bv8>, q: int)
    requires OnlyByte(s, q)
    ensures Fold(0, s) != 0
    decreases |s|
  {
    hide Update;
    UpdateZeroIff(0, s[0]);
    if q == 0 {
      FoldOfZeros(Update(0, s[0]), s[1..]);
    } else {
      FoldOfOnlyByte(s[1..], q - 1);
    }
  }

  // What a checksum must do to notice one byte among zeros.
  ghost predicate Detecting(crc: seq<bv8> -> word16) {
    && (forall s: seq<bv8> :: AllZero(s) ==> crc(s) == 0)
    && (forall s: seq<bv8>, q: int :: OnlyByte(s, q) ==> crc(s) != 0)
  }

  lemma CrcIsDetecting()
    ensures Detecting(Crc)
  {
    hide Fold, Value;
    forall s: seq<bv8> | AllZero(s)
      ensures Crc(s) == 0
    {
      FoldOfZeros(0, s);
      ValueZeroIff(Fold(0, s));
    }
    forall s: seq<bv8>, q: int | OnlyByte(s, q)
      ensures Crc(s) != 0
    {
      FoldOfOnlyByte(s, q);
      ValueZeroIff(Fold(0, s));
    }
  }

  // ---- The CRC as a shift register, and what it notices ----

  predicate Top(x: bv16) { x & 0x8000 != 0 }

  // What falls out at the top comes back as the polynomial.
  function Feedback(x: bv16): bv16 { if Top(x) then POLY else 0 }

  function Up(x: bv16): bv16 { x << 1 }

  lemma XorNothing(x: bv16)
    ensures Xor(x, 0) == x
  {
  }

  lemma ShiftOut(x: bv16)
    requires Top(x)
    ensures Shift(x) == Xor(Up(x), POLY)
  {
  }

  lemma ShiftUp(x: bv16)
    requires !Top(x)
    ensures Shift(x) == Up(x)
  {
  }

  lemma ShiftParts(x: bv16)
    ensures Shift(x) == Xor(Up(x), Feedback(x))
  {
    hide Shift, Xor, Up, Top;
    XorNothing(Up(x));
    if Top(x) {
      ShiftOut(x);
    } else {
      ShiftUp(x);
    }
  }

  lemma UpOfXor(x: bv16, y: bv16)
    ensures Up(Xor(x, y)) == Xor(Up(x), Up(y))
  {
  }

  lemma FeedbackOfXor(x: bv16, y: bv16)
    ensures Feedback(Xor(x, y)) == Xor(Feedback(x), Feedback(y))
  {
    hide Xor, Top;
    TopOfXor(x, y);
    XorOfPoly();
  }

  lemma TopOfXor(x: bv16, y: bv16)
    ensures Top(Xor(x, y)) <==> Top(x) != Top(y)
  {
  }

  lemma XorOfPoly()
    ensures Xor(POLY, POLY) == Xor(0, 0) == 0 && Xor(POLY, 0) == Xor(0, POLY) == POLY
  {
  }

  lemma XorComm(x: bv16, y: bv16)
    ensures Xor(x, y) == Xor(y, x)
  {
  }

  lemma XorAssoc(x: bv16, y: bv16, z: bv16)
    ensures Xor(x, Xor(y, z)) == Xor(Xor(x, y), z)
  {
  }

  lemma XorOfXors(a: bv16, b: bv16, c: bv16, d: bv16)
    ensures Xor(Xor(a, b), Xor(c, d)) == Xor(Xor(a, c), Xor(b, d))
  {
    hide Xor;
    XorAssoc(a, b, Xor(c, d));
    XorAssoc(b, c, d);
    XorComm(b, c);
    XorAssoc(c, b, d);
    XorAssoc(a, c, Xor(b, d));
  }

  lemma ShiftOfXor(x: bv16, y: bv16)
    ensures Shift(Xor(x, y)) == Xor(Shift(x), Shift(y))
  {
    hide Shift, Xor, Up, Feedback;
    ShiftParts(x);
    ShiftParts(y);
    ShiftParts(Xor(x, y));
    UpOfXor(x, y);
    FeedbackOfXor(x, y);
    XorOfXors(Up(x), Up(y), Feedback(x), Feedback(y));
  }

  lemma ShiftByteOfXor(x: bv16, y: bv16)
    ensures ShiftByte(Xor(x, y)) == Xor(ShiftByte(x), ShiftByte(y))
  {
    hide Shift, Xor;
    var x1, y1 := Shift(x), Shift(y);
    var x2, y2 := Shift(x1), Shift(y1);
    var x3, y3 := Shift(x2), Shift(y2);
    var x4, y4 := Shift(x3), Shift(y3);
    var x5, y5 := Shift(x4), Shift(y4);
    var x6, y6 := Shift(x5), Shift(y5);
    ShiftOfXor(x, y);
    ShiftOfXor(x1, y1);
    ShiftOfXor(x2, y2);
    ShiftOfXor(x3, y3);
    ShiftOfXor(x4, y4);
    ShiftOfXor(x5, y5);
    ShiftOfXor(x6, y6);
    ShiftOfXor(Shift(x6), Shift(y6));
  }

  // The byte that meets the upper half of the register.
  function Index(cksum: bv16, b: bv8): bv8 { (((cksum >> 8) ^ (b as bv16)) & 0xFF) as bv8 }

  function OnTop(cksum: bv16, b: bv8): bv16 { cksum ^ ((b as bv16) << 8) }

  lemma OnTopSplits(cksum: bv16, b: bv8)
    ensures OnTop(cksum, b) == Xor((Index(cksum, b) as bv16) << 8, cksum & 0xFF)
  {
  }

  lemma LowHalfShifts(cksum: bv16)
    ensures ShiftByte(cksum & 0xFF) == cksum << 8
  {
  }

  lemma UpdateIsXor(cksum: bv16, b: bv8)
    ensures Update(cksum, b) == Xor(Table(Index(cksum, b)), cksum << 8)
  {
    hide Table;
  }

  // One step of the loop is the byte put on top of the register and eight shifts.
  lemma UpdateIsShiftByte(cksum: bv16, b: bv8)
    ensures Update(cksum, b) == ShiftByte(OnTop(cksum, b))
  {
    hide Table, ShiftByte, Update, Xor, Index, OnTop;
    var i := Index(cksum, b);
    UpdateIsXor(cksum, b);
    TableIsShiftByte(i);
    OnTopSplits(cksum, b);
    ShiftByteOfXor((i as bv16) << 8, cksum & 0xFF);
    LowHalfShifts(cksum);
  }

  // Bit by bit: the register goes up by one place, and takes the polynomial if a one falls out.
  function Register(cksum: bv16, s: seq<bv8>): bv16
    decreases |s|
  {
    if s == [] then cksum else Register(ShiftByte(OnTop(cksum, s[0])), s[1..])
  }

  // The table-driven loop computes what the bit-serial shift register does, for every buffer.
  lemma {:induction false} TableRefinesRegister(cksum: bv16, s: seq<bv8>)
    ensures Fold(cksum, s) == Register(cksum, s)
    decreases |s|
  {
    hide Update, ShiftByte, OnTop;
    if s != [] {
      UpdateIsShiftByte(cksum, s[0]);
      TableRefinesRegister(Update(cksum, s[0]), s[1..]);
    }
  }

  lemma ShiftZeroIff(x: bv16)
    ensures Shift(x) == 0 <==> x == 0
  {
  }

  lemma XorSelf(x: bv16)
    ensures Xor(x, x) == 0
  {
  }

  lemma XorZeroIff(x: bv16, y: bv16)
    ensures Xor(x, y) == 0 <==> x == y
  {
    hide Xor;
    XorSelf(y);
    XorNothing(x);
    XorNothing(y);
    XorAssoc(x, y, y);
    XorComm(0, y);
  }

  lemma ShiftIsInjective(x: bv16, y: bv16)
    ensures Shift(x) == Shift(y) <==> x == y
  {
    hide Shift, Xor;
    ShiftOfXor(x, y);
    XorZeroIff(x, y);
    XorZeroIff(Shift(x), Shift(y));
    ShiftZeroIff(Xor(x, y));
  }

  lemma ShiftByteIsInjective(x: bv16, y: bv16)
    ensures ShiftByte(x) == ShiftByte(y) <==> x == y
  {
    hide Shift;
    var x1, y1 := Shift(x), Shift(y);
    var x2, y2 := Shift(x1), Shift(y1);
    var x3, y3 := Shift(x2), Shift(y2);
    var x4, y4 := Shift(x3), Shift(y3);
    var x5, y5 := Shift(x4), Shift(y4);
    var x6, y6 := Shift(x5), Shift(y5);
    ShiftIsInjective(x, y);
    ShiftIsInjective(x1, y1);
    ShiftIsInjective(x2, y2);
    ShiftIsInjective(x3, y3);
    ShiftIsInjective(x4, y4);
    ShiftIsInjective(x5, y5);
    ShiftIsInjective(x6, y6);
    ShiftIsInjective(Shift(x6), Shift(y6));
  }

  lemma OnTopIsInjective(x: bv16, y: bv16, a: bv8, b: bv8)
    ensures OnTop(x, a) == OnTop(y, a) <==> x == y
    ensures OnTop(x, a) == OnTop(x, b) <==> a == b
  {
  }

  lemma {:induction false} FoldIsInjective(x: bv16, y: bv16, s: seq<bv8>)
    ensures Fold(x, s) == Fold(y, s) <==> x == y
    decreases |s|
  {
    hide Update, ShiftByte, OnTop;
    if s != [] {
      var b := s[0];
      UpdateIsShiftByte(x, b);
      UpdateIsShiftByte(y, b);
      ShiftByteIsInjective(OnTop(x, b), OnTop(y, b));
      OnTopIsInjective(x, y, b, b);
      FoldIsInjective(Update(x, b), Update(y, b), s[1..]);
    }
  }

  // The buffers differ in the byte at q, and in no other.
  predicate DifferAt(s: seq<bv8>, t: seq<bv8>, q: int) {
    0 <= q < |s| && |s| == |t| && s[q] != t[q] && forall i :: 0 <= i < |s| && i != q ==> s[i] == t[i]
  }

  lemma {:induction false} FoldNotices(cksum: bv16, s: seq<bv8>, t: seq<bv8>, q: int)
    requires DifferAt(s, t, q)
    ensures Fold(cksum, s) != Fold(cksum, t)
    decreases |s|
  {
    hide Update, ShiftByte, OnTop;
    if q == 0 {
      UpdateIsShiftByte(cksum, s[0]);
      UpdateIsShiftByte(cksum, t[0]);
      ShiftByteIsInjective(OnTop(cksum, s[0]), OnTop(cksum, t[0]));
      OnTopIsInjective(cksum, cksum, s[0], t[0]);
      assert s[1..] == t[1..];
      FoldIsInjective(Update(cksum, s[0]), Update(cksum, t[0]), s[1..]);
    } else {
      assert DifferAt(s[1..], t[1..], q - 1);
      FoldNotices(Update(cksum, s[0]), s[1..], t[1..], q - 1);
    }
  }

  lemma ValueIsInjective(x: bv16, y: bv16)
    ensures Value(x) == Value(y) <==> x == y
  {
    if Value(x) == Value(y) {
      assert x == (x as int) as bv16 && y == (y as int) as bv16;
    }
  }

  // A single changed byte always changes the CRC, wherever it is and whatever the others are.
  lemma {:induction false} OneByteIsNoticed(s: seq<bv8>, t: seq<bv8>, q: int)
    requires DifferAt(s, t, q)
    ensures Crc(s) != Crc(t)
  {
    hide Fold, Value, DifferAt;
    FoldNotices(0, s, t, q);
    ValueIsInjective(Fold(0, s), Fold(0, t));
  }

  lemma FoldAt(cksum: bv16, s: seq<bv8>, k: nat, next: bv16)
    requires k < |s| && ShiftByte(OnTop(cksum, s[k])) == next
    ensures Fold(cksum, s[k..]) == Fold(next, s[k + 1..])
  {
    hide Update, ShiftByte, OnTop;
    UpdateIsShiftByte(cksum, s[k]);
    assert s[k..][1..] == s[k + 1..];
  }

  function Digits(): seq<bv8> { [0x31, 0x32, 0x33, 0x34, 0x35, 0x36, 0x37, 0x38, 0x39] }

  // The CRC of the ASCII digits 1 to 9 is the check value this CRC (XMODEM) is listed with.
  lemma CheckValue()
    ensures Crc(Digits()) == 0x31C3
  {
    hide Fold;
    FoldAt(0x0000, Digits(), 0, 0x2672);
    FoldAt(0x2672, Digits(), 1, 0x20B5);
    FoldAt(0x20B5, Digits(), 2, 0x9752);
    FoldAt(0x9752, Digits(), 3, 0xD789);
    FoldAt(0xD789, Digits(), 4, 0x546C);
    FoldAt(0x546C, Digits(), 5, 0x20E4);
    FoldAt(0x20E4, Digits(), 6, 0x86D6);
    FoldAt(0x86D6, Digits(), 7, 0x9015);
    FoldAt(0x9015, Digits(), 8, 0x31C3);
    FoldOfNothing(0x31C3);
    assert Digits()[0..] == Digits() && Digits()[9..] == [];
  }
}
