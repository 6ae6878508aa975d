/** The stored code (QML, Lisp, Lisp constants): programming its flash sectors and the cached
    validity check in front of the readers (flash_helper.c:41-66, 94-117, 184-252, 414-495; the CRC is in Crc16). */
module CodeCache {
  import opened Bytes
  import Crc16

  const FLASH_SIZE := 0x10_0000
  const SECTOR := 0x2_0000            // 1024 * 128
  const QMLUI_MAX_SIZE := 0x1_FFF8    // SECTOR - 8

  type CrcFun = seq<bv8> -> word16

  // The bytes of the flash are bit vectors, for what programming does to them.
  function Int(b: bv8): byte { b as byte }

  // CODE_IND_QML, CODE_IND_LISP and CODE_IND_LISP_CONST in sectors 9, 10 and 8.
  type CodeInd = i: int | 0 <= i <= 2

  function Base(ind: CodeInd): int { if ind == 0 then 0xA_0000 else if ind == 1 then 0xC_0000 else 0x8_0000 }

  function Sector(flash: seq<bv8>, ind: CodeInd): (s: seq<bv8>)
    requires |flash| == FLASH_SIZE
    ensures |s| == SECTOR
  {
    flash[Base(ind)..Base(ind) + SECTOR]
  }

  lemma SectorAt(flash: seq<bv8>, ind: CodeInd, i: int)
    requires |flash| == FLASH_SIZE && 0 <= i < SECTOR
    ensures Sector(flash, ind)[i] == flash[Base(ind) + i]
  {
  }

  // The header: length, CRC over what follows it, and two bytes of flags; then the code.
  function Uint32(s: seq<bv8>): int
    requires 4 <= |s|
  {
    Join4(Int(s[0]), Int(s[1]), Int(s[2]), Int(s[3]))
  }

  function Uint16(s: seq<bv8>, at: int): word16
    requires 0 <= at && at + 2 <= |s|
  {
    Join(Int(s[at]), Int(s[at + 1]))
  }

  // Header length and CRC fit the bytes of the sector; reading the bytes stays inside the sector.
  predicate Intact(crc16: CrcFun, s: seq<bv8>)
    requires |s| == SECTOR
  {
    Uint32(s) <= QMLUI_MAX_SIZE && crc16(s[6..6 + Uint32(s) + 2]) == Uint16(s, 4)
  }

  // Programming can only clear bits.
  function And(a: bv8, b: bv8): bv8 { a & b }

  function ProgramBytes(flash: seq<bv8>, at: int, data: seq<bv8>): (r: seq<bv8>)
    requires 0 <= at <= at + |data| <= |flash|
    ensures |r| == |flash|
  {
    seq(|flash|, i requires 0 <= i < |flash| => if at <= i < at + |data| then And(flash[i], data[i - at]) else flash[i])
  }

  function WithSector(flash: seq<bv8>, ind: CodeInd, s: seq<bv8>): (r: seq<bv8>)
    requires |flash| == FLASH_SIZE && |s| == SECTOR
    ensures |r| == FLASH_SIZE
  {
    seq(FLASH_SIZE, i requires 0 <= i < FLASH_SIZE =>
          if Base(ind) <= i < Base(ind) + SECTOR then s[i - Base(ind)] else flash[i])
  }

  function Blank(flash: seq<bv8>, ind: CodeInd): (r: seq<bv8>)
    requires |flash| == FLASH_SIZE
    ensures |r| == FLASH_SIZE
  {
    WithSector(flash, ind, seq(SECTOR, _ => 0xFF))
  }

  datatype State = State(flash: seq<bv8>, checkDone: seq<bool>, ok: seq<bool>) {
    predicate Valid() { |flash| == FLASH_SIZE && |checkDone| == |ok| == 3 }
  }

  // The calls. `released` says whether the motor could be released, `failed` what an erase that the flash
  // controller could not complete left in the sector, `programmed` how many bytes were programmed before
  // the controller reported an error.
  datatype Call =
    | Erase(ind: CodeInd, released: bool, failed: Option<seq<bv8>>)
    | Write(ind: CodeInd, offset: nat, data: seq<bv8>, released: bool, programmed: nat)
    | CodeData(ind: CodeInd) | CodeSize(ind: CodeInd) | CodeFlags(ind: CodeInd)

  // A write ends within the flash.
  predicate Legal(c: Call) {
    && (c.Erase? && c.failed.Some? ==> |c.failed.value| == SECTOR)
    && (c.Write? ==> Base(c.ind) + c.offset + |c.data| <= FLASH_SIZE && c.programmed <= |c.data|)
  }

  datatype Status = Complete | Busy | FlashError

  datatype Answer = Returned(status: Status) | Address(a: int) | Null | Number(n: int)

  // What a reader returns for a sector that is known to be intact or not.
  function Read(flash: seq<bv8>, c: Call, ok: bool): Answer
    requires |flash| == FLASH_SIZE
  {
    match c
    case CodeData(ind) => if ok then Address(Base(ind) + 8) else Null
    case CodeSize(ind) => Number(if ok then Uint32(Sector(flash, ind)) else 0)
    case CodeFlags(ind) => Number(if ok then Uint16(Sector(flash, ind), 6) else 0)
    case _ => Null
  }

  // What a call does to the flash; erasing looks at the first byte only.
  function Flashed(flash: seq<bv8>, c: Call): (res: (seq<bv8>, Status))
    requires |flash| == FLASH_SIZE && Legal(c)
    ensures |res.0| == FLASH_SIZE
  {
    match c
    case Erase(ind, released, failed) =>
      if Sector(flash, ind)[0] == 0xFF then (flash, Complete)
      else if !released then (flash, Busy)
      else
        (match failed
         case None => (Blank(flash, ind), Complete)
         case Some(left) => (WithSector(flash, ind, left), FlashError))
    case Write(ind, offset, data, released, programmed) =>
      if !released then (flash, Busy)
      else
        (ProgramBytes(flash, Base(ind) + offset, data[..programmed]),
         if programmed == |data| then Complete else FlashError)
    case _ => (flash, Complete)
  }

  predicate Changes(flash: seq<bv8>, c: Call)
    requires |flash| == FLASH_SIZE
  {
    c.Write? || (c.Erase? && Sector(flash, c.ind)[0] != 0xFF)
  }

  // qmlui_check
  function Checked(crc16: CrcFun, s: State, ind: CodeInd): (s1: State)
    requires s.Valid()
    ensures s1.Valid()
  {
    if s.checkDone[ind] then s
    else s.(checkDone := s.checkDone[ind := true], ok := s.ok[ind := Intact(crc16, Sector(s.flash, ind))])
  }

  function Step(crc16: CrcFun, s: State, c: Call): (res: (State, Answer))
    requires s.Valid() && Legal(c)
    ensures res.0.Valid()
  {
    if c.Erase? || c.Write? then
      var (flash, status) := Flashed(s.flash, c);
      (if Changes(s.flash, c) then State(flash, s.checkDone[c.ind := false], s.ok[c.ind := false]) else s,
       Returned(status))
    else
      var s1 := Checked(crc16, s, c.ind);
      (s1, Read(s.flash, c, s1.ok[c.ind]))
  }

  class CodeStore {
    const crc16: CrcFun
    const flash: array<bv8>
    const checkDone: array<bool>
    const ok: array<bool>

    ghost predicate Valid() {
      flash.Length == FLASH_SIZE && checkDone.Length == ok.Length == 3 && checkDone != ok
    }

    ghost function Value(): (s: State)
      requires Valid()
      reads flash, checkDone, ok
      ensures s.Valid()
    {
      State(flash[..], checkDone[..], ok[..])
    }

    // static _code_checks code_checks[3] = {0}
    constructor (crc16: CrcFun, flash: array<bv8>)
      requires flash.Length == FLASH_SIZE
      ensures Valid() && this.flash == flash && this.crc16 == crc16 && fresh(checkDone) && fresh(ok)
      ensures Value() == State(flash[..], [false, false, false], [false, false, false])
    {
      this.crc16, this.flash := crc16, flash;
      checkDone := new bool[3](i => false);
      ok := new bool[3](i => false);
    }

    method Forget(ind: CodeInd)
      requires Valid()
      modifies checkDone, ok
      ensures checkDone[..] == old(checkDone[..])[ind := false] && ok[..] == old(ok[..])[ind := false]
    {
      checkDone[ind], ok[ind] := false, false;
    }

    // erase_sector
    method EraseSector(ind: CodeInd, released: bool, failed: Option<seq<bv8>>) returns (res: Status)
      requires Valid() && (failed.Some? ==> |failed.value| == SECTOR)
      modifies flash
      ensures flash[..] == if !released then old(flash[..])
                           else if failed.Some? then WithSector(old(flash[..]), ind, failed.value)
                           else Blank(old(flash[..]), ind)
      ensures res == if !released then Busy else if failed.Some? then FlashError else Complete
    {
      if !released {
        return Busy;
      }
      if failed.Some? {
        forall i | Base(ind) <= i < Base(ind) + SECTOR {
          flash[i] := failed.value[i - Base(ind)];
        }
        return FlashError;
      }
      forall i | Base(ind) <= i < Base(ind) + SECTOR {
        flash[i] := 0xFF;
      }
      res := Complete;
    }

    method EraseCode(ind: CodeInd, released: bool, failed: Option<seq<bv8>>) returns (res: Status)
      requires Valid() && (failed.Some? ==> |failed.value| == SECTOR)
      modifies flash, checkDone, ok
      ensures (Value(), Returned(res)) == Step(crc16, old(Value()), Erase(ind, released, failed))
    {
      // The source's scan for data never advances its pointer.
      SectorAt(flash[..], ind, 0);
      hide Sector, WithSector;
      if flash[Base(ind)] == 0xFF {
        return Complete;
      }
      Forget(ind);
      res := EraseSector(ind, released, failed);
    }

    // write_data: byte by byte until the flash controller reports an error.
    method WriteData(base: int, data: seq<bv8>, released: bool, programmed: nat) returns (res: Status)
      requires Valid() && 0 <= base && base + |data| <= FLASH_SIZE && programmed <= |data|
      modifies flash
      ensures flash[..] == if released then ProgramBytes(old(flash[..]), base, data[..programmed]) else old(flash[..])
      ensures res == if !released then Busy else if programmed == |data| then Complete else FlashError
    {
      if !released {
        return Busy;
      }
      hide And;
      res := Complete;
      var i := 0;
      while i < |data|
        invariant 0 <= i <= programmed
        invariant forall j :: 0 <= j < FLASH_SIZE ==>
                    flash[j] == if base <= j < base + i then And(old(flash[j]), data[j - base]) else old(flash[j])
      {
        if i == programmed {
          res := FlashError;
          break;
        }
        flash[base + i] := And(flash[base + i], data[i]);
        i := i + 1;
      }
    }

    method WriteCode(ind: CodeInd, offset: nat, data: seq<bv8>, released: bool, programmed: nat) returns (res: Status)
      requires Valid() && Base(ind) + offset + |data| <= FLASH_SIZE && programmed <= |data|
      modifies flash, checkDone, ok
      ensures (Value(), Returned(res)) == Step(crc16, old(Value()), Write(ind, offset, data, released, programmed))
    {
      Forget(ind);
      res := WriteData(Base(ind) + offset, data, released, programmed);
    }

    method QmluiCheck(ind: CodeInd)
      requires Valid()
      modifies checkDone, ok
      ensures Value() == Checked(crc16, old(Value()), ind) && checkDone[ind]
    {
      if checkDone[ind] {
        return;
      }
      var base := flash[Base(ind)..Base(ind) + SECTOR];
      assert base == Sector(flash[..], ind);
      var len := Uint32(base);
      var crc := Uint16(base, 4);
      if len <= QMLUI_MAX_SIZE {
        var computed := crc16(base[6..6 + len + 2]);
        ok[ind] := computed == crc;
      } else {
        ok[ind] := false;
      }
      checkDone[ind] := true;
    }

    method GetCodeData(ind: CodeInd) returns (res: Answer)
      requires Valid()
      modifies checkDone, ok
      ensures (Value(), res) == Step(crc16, old(Value()), CodeData(ind))
    {
      QmluiCheck(ind);
      if checkDone[ind] && ok[ind] {
        res := Address(Base(ind) + 8);
      } else {
        res := Null;
      }
    }

    method GetCodeSize(ind: CodeInd) returns (res: Answer)
      requires Valid()
      modifies checkDone, ok
      ensures (Value(), res) == Step(crc16, old(Value()), CodeSize(ind))
    {
      QmluiCheck(ind);
      assert flash[Base(ind)..Base(ind) + SECTOR] == Sector(flash[..], ind);
      if checkDone[ind] && ok[ind] {
        res := Number(Uint32(flash[Base(ind)..Base(ind) + SECTOR]));
      } else {
        res := Number(0);
      }
    }

    method GetCodeFlags(ind: CodeInd) returns (res: Answer)
      requires Valid()
      modifies checkDone, ok
      ensures (Value(), res) == Step(crc16, old(Value()), CodeFlags(ind))
    {
      QmluiCheck(ind);
      assert flash[Base(ind)..Base(ind) + SECTOR] == Sector(flash[..], ind);
      if checkDone[ind] && ok[ind] {
        res := Number(Uint16(flash[Base(ind)..Base(ind) + SECTOR], 6));
      } else {
        res := Number(0);
      }
    }
  }

  // ---- The cache agrees with the flash ----

  predicate Coherent(crc16: CrcFun, s: State)
    requires s.Valid()
  {
    forall ind: CodeInd :: s.checkDone[ind] ==> s.ok[ind] == Intact(crc16, Sector(s.flash, ind))
  }

  // The call clears a bit in the sector of another code.
  predicate SpillsInto(c: Call, j: int, other: CodeInd)
    requires Legal(c) && c.Write?
  {
    && 0 <= j < c.programmed && c.data[j] != 0xFF
    && other != c.ind && Base(other) <= Base(c.ind) + c.offset + j < Base(other) + SECTOR
  }

  ghost predicate Spills(c: Call)
    requires Legal(c)
  {
    c.Write? && c.released && exists j: int, other: CodeInd :: SpillsInto(c, j, other)
  }

  // Callers that keep a write inside its sector are safe.
  lemma InsideNeverSpills(c: Call)
    requires Legal(c) && (c.Write? ==> c.offset + |c.data| <= SECTOR)
    ensures !Spills(c)
  {
  }

  lemma AndFull(a: bv8)
    ensures And(a, 0xFF) == a
  {
  }

  // A call on one kind of code leaves the sectors of the others alone, unless it spills.
  lemma SectorsAreSeparate(flash: seq<bv8>, c: Call, other: CodeInd)
    requires |flash| == FLASH_SIZE && Legal(c) && c.ind != other && !Spills(c)
    ensures Sector(Flashed(flash, c).0, other) == Sector(flash, other)
  {
    hide And;
    var flash1 := Flashed(flash, c).0;
    forall i | 0 <= i < SECTOR
      ensures Sector(flash1, other)[i] == Sector(flash, other)[i]
    {
      var at := Base(other) + i;
      SectorAt(flash, other, i);
      SectorAt(flash1, other, i);
      if c.Write? && c.released {
        var j := at - Base(c.ind) - c.offset;
        if 0 <= j < c.programmed {
          assert !SpillsInto(c, j, other) && c.data[..c.programmed][j] == c.data[j];
          AndFull(flash[at]);
        }
      }
    }
  }

  lemma {:induction false} StepKeepsCoherent(crc16: CrcFun, s: State, c: Call)
    requires s.Valid() && Legal(c) && !Spills(c) && Coherent(crc16, s)
    ensures Coherent(crc16, Step(crc16, s, c).0)
  {
    hide Intact, Sector, Flashed, Spills;
    var s1 := Step(crc16, s, c).0;
    forall ind: CodeInd | s1.checkDone[ind]
      ensures s1.ok[ind] == Intact(crc16, Sector(s1.flash, ind))
    {
      if c.ind != ind {
        SectorsAreSeparate(s.flash, c, ind);
      }
    }
  }

  // The same calls without a cache: every reader checks the sector it reads.
  function Uncached(crc16: CrcFun, flash: seq<bv8>, c: Call): (res: (seq<bv8>, Answer))
    requires |flash| == FLASH_SIZE && Legal(c)
    ensures |res.0| == FLASH_SIZE
  {
    if c.Erase? || c.Write? then (Flashed(flash, c).0, Returned(Flashed(flash, c).1))
    else (flash, Read(flash, c, Intact(crc16, Sector(flash, c.ind))))
  }

  predicate AllLegal(calls: seq<Call>) { forall k :: 0 <= k < |calls| ==> Legal(calls[k]) }

  function Steps(crc16: CrcFun, s: State, calls: seq<Call>): (res: (State, seq<Answer>))
    requires s.Valid() && AllLegal(calls)
    ensures res.0.Valid()
    decreases |calls|
  {
    if calls == [] then (s, [])
    else
      var (s1, a) := Step(crc16, s, calls[0]);
      var (s2, answers) := Steps(crc16, s1, calls[1..]);
      (s2, [a] + answers)
  }

  function UncachedSteps(crc16: CrcFun, flash: seq<bv8>, calls: seq<Call>): (res: (seq<bv8>, seq<Answer>))
    requires |flash| == FLASH_SIZE && AllLegal(calls)
    ensures |res.0| == FLASH_SIZE
    decreases |calls|
  {
    if calls == [] then (flash, [])
    else
      var (f1, a) := Uncached(crc16, flash, calls[0]);
      var (f2, answers) := UncachedSteps(crc16, f1, calls[1..]);
      (f2, [a] + answers)
  }

  lemma StepAgrees(crc16: CrcFun, s: State, c: Call)
    requires s.Valid() && Legal(c) && Coherent(crc16, s)
    ensures Step(crc16, s, c).0.flash == Uncached(crc16, s.flash, c).0
    ensures Step(crc16, s, c).1 == Uncached(crc16, s.flash, c).1
  {
    hide Intact;
  }

  ghost predicate NoneSpills(calls: seq<Call>)
    requires AllLegal(calls)
  {
    forall k :: 0 <= k < |calls| ==> !Spills(calls[k])
  }

  // In every run the cache is coherent and no answer differs from that of a check made on the spot.
  lemma {:induction false} CacheIsTransparent(crc16: CrcFun, s: State, calls: seq<Call>)
    requires s.Valid() && AllLegal(calls) && NoneSpills(calls) && Coherent(crc16, s)
    ensures Coherent(crc16, Steps(crc16, s, calls).0)
    ensures Steps(crc16, s, calls).0.flash == UncachedSteps(crc16, s.flash, calls).0
    ensures Steps(crc16, s, calls).1 == UncachedSteps(crc16, s.flash, calls).1
    decreases |calls|
  {
    if calls != [] {
      StepKeepsCoherent(crc16, s, calls[0]);
      StepAgrees(crc16, s, calls[0]);
      hide Step, Uncached, Coherent;
      CacheIsTransparent(crc16, Step(crc16, s, calls[0]).0, calls[1..]);
    }
  }

  function Fresh(flash: seq<bv8>): State { State(flash, [false, false, false], [false, false, false]) }

  // A freshly started system is coherent whatever the flash holds.
  lemma StartIsCoherent(crc16: CrcFun, flash: seq<bv8>)
    requires |flash| == FLASH_SIZE
    ensures Coherent(crc16, Fresh(flash))
  {
  }

  // So from a start of the system, whatever the flash holds, nobody can tell the cache from checks made on the spot.
  lemma {:induction false} FreshCacheIsTransparent(crc16: CrcFun, flash: seq<bv8>, calls: seq<Call>)
    requires |flash| == FLASH_SIZE && AllLegal(calls) && NoneSpills(calls)
    ensures Steps(crc16, Fresh(flash), calls).1 == UncachedSteps(crc16, flash, calls).1
  {
    StartIsCoherent(crc16, flash);
    CacheIsTransparent(crc16, Fresh(flash), calls);
  }

  // ---- Writes beyond the sector ----

  ghost predicate KeepsCoherent(crc16: CrcFun, c: Call)
    requires Legal(c)
  {
    forall s: State :: s.Valid() && Coherent(crc16, s) ==> Coherent(crc16, Step(crc16, s, c).0)
  }

  lemma ComplementClears(v: bv8)
    ensures And(!v, v) == 0 && (v != 0xFF ==> !v != 0)
  {
  }

  lemma ZeroStays(v: bv8)
    ensures And(0, v) == 0
  {
  }

  lemma NonZero(a: bv8)
    ensures a != 0 ==> Int(a) != 0
    ensures Int(0) == 0
  {
  }

  // Byte q has been cleared; those before it stayed, those behind it at most lost bits.
  predicate Cleared(s: seq<bv8>, t: seq<bv8>, q: nat)
    requires q < |s|
  {
    && |t| == |s| == SECTOR && t[q] == 0
    && (forall i :: 0 <= i < q ==> t[i] == s[i])
    && (forall i :: 0 <= i < |s| && s[i] == 0 ==> t[i] == 0)
  }

  function Zeros(): (s: seq<bv8>)
    ensures |s| == SECTOR && forall i :: 0 <= i < SECTOR ==> s[i] == 0
  {
    seq(SECTOR, _ => 0)
  }

  // An empty code without flags, and a CRC of zero.
  lemma EmptyCodeIsIntact(crc16: CrcFun, t: seq<bv8>)
    requires Crc16.Detecting(crc16) && |t| == SECTOR && forall i :: 0 <= i < 8 ==> t[i] == 0
    ensures Intact(crc16, t)
  {
    NonZero(0);
    assert Uint32(t) == 0 && Uint16(t, 4) == 0;
    assert Crc16.AllZero(t[6..8]);
    hide Int;
  }

  lemma OnlyByteOfSlice(s: seq<bv8>, lo: int, hi: int, q: int)
    requires 0 <= lo <= q < hi <= |s| && s[q] != 0
    requires forall i :: lo <= i < hi && i != q ==> s[i] == 0
    ensures Crc16.OnlyByte(s[lo..hi], q - lo)
  {
  }

  // A length that becomes zero: what it covers ends with the one byte that is not zero.
  lemma TurningLength(crc16: CrcFun, q: nat, a: bv8) returns (s: seq<bv8>)
    requires Crc16.Detecting(crc16) && q < 4 && a != 0
    ensures |s| == SECTOR && s[q] == a && !Intact(crc16, s)
    ensures forall t: seq<bv8> :: Cleared(s, t, q) ==> Intact(crc16, t)
  {
    NonZero(a);
    hide Int;
    s := Zeros()[q := a];
    var len := Uint32(s);
    assert 0 < len;
    if len <= QMLUI_MAX_SIZE {
      s := s[6 + len + 1 := 1];
      assert Uint32(s) == len && Uint16(s, 4) == 0;
      OnlyByteOfSlice(s, 6, 6 + len + 2, 6 + len + 1);
    }
    forall t: seq<bv8> | Cleared(s, t, q)
      ensures Intact(crc16, t)
    {
      EmptyCodeIsIntact(crc16, t);
    }
  }

  // A CRC that becomes the one of an empty code.
  lemma TurningCrc(crc16: CrcFun, q: nat, a: bv8) returns (s: seq<bv8>)
    requires Crc16.Detecting(crc16) && 4 <= q < 6 && a != 0
    ensures |s| == SECTOR && s[q] == a && !Intact(crc16, s)
    ensures forall t: seq<bv8> :: Cleared(s, t, q) ==> Intact(crc16, t)
  {
    NonZero(a);
    hide Int;
    s := Zeros()[q := a];
    assert Uint32(s) == 0 && Uint16(s, 4) != 0;
    assert Crc16.AllZero(s[6..8]);
    forall t: seq<bv8> | Cleared(s, t, q)
      ensures Intact(crc16, t)
    {
      EmptyCodeIsIntact(crc16, t);
    }
  }

  // Flags or code, of the greatest length, that become all zero as the CRC says.
  lemma TurningCode(crc16: CrcFun, q: nat, a: bv8) returns (s: seq<bv8>)
    requires Crc16.Detecting(crc16) && 6 <= q < SECTOR && a != 0
    ensures |s| == SECTOR && s[q] == a && !Intact(crc16, s)
    ensures forall t: seq<bv8> :: Cleared(s, t, q) ==> Intact(crc16, t)
  {
    assert Int(0) == 0 && Int(1) == 1 && Int(0xFF) == 0xFF && Int(0xF8) == 0xF8;
    hide Int;
    s := Zeros()[1 := 1][2 := 0xFF][3 := 0xF8][q := a];
    assert Uint32(s) == QMLUI_MAX_SIZE && Uint16(s, 4) == 0;
    OnlyByteOfSlice(s, 6, SECTOR, q);
    forall t: seq<bv8> | Cleared(s, t, q)
      ensures Intact(crc16, t)
    {
      assert Uint32(t) == QMLUI_MAX_SIZE && Uint16(t, 4) == 0;
      assert Crc16.AllZero(t[6..SECTOR]);
    }
  }

  // A sector that is not intact and becomes so when byte q, with value a, is cleared.
  lemma TurningSector(crc16: CrcFun, q: nat, a: bv8) returns (s: seq<bv8>)
    requires Crc16.Detecting(crc16) && q < SECTOR && a != 0
    ensures |s| == SECTOR && s[q] == a && !Intact(crc16, s)
    ensures forall t: seq<bv8> :: Cleared(s, t, q) ==> Intact(crc16, t)
  {
    hide Intact, Cleared, Crc16.Detecting;
    if q < 4 {
      s := TurningLength(crc16, q, a);
    } else if q < 6 {
      s := TurningCrc(crc16, q, a);
    } else {
      s := TurningCode(crc16, q, a);
    }
  }

  // The first byte of the write that clears bits of the other code.
  predicate FirstSpill(c: Call, j: int, other: CodeInd)
    requires Legal(c) && c.Write?
  {
    SpillsInto(c, j, other) && forall k :: 0 <= k < j ==> !SpillsInto(c, k, other)
  }

  lemma {:induction false} SomeFirstSpill(c: Call, j: int, other: CodeInd) returns (first: int)
    requires Legal(c) && c.Write? && SpillsInto(c, j, other)
    ensures FirstSpill(c, first, other)
    decreases j
  {
    hide SpillsInto;
    first := j;
    if k :| 0 <= k < j && SpillsInto(c, k, other) {
      first := SomeFirstSpill(c, k, other);
    }
  }

  // The bytes of a sector that a spilling write has gone over.
  lemma SpillClears(flash: seq<bv8>, c: Call, j: int, other: CodeInd)
    requires |flash| == FLASH_SIZE && Legal(c) && c.Write? && c.released && FirstSpill(c, j, other)
    requires Sector(flash, other)[Base(c.ind) + c.offset + j - Base(other)] == !c.data[j]
    ensures Cleared(Sector(flash, other), Sector(Flashed(flash, c).0, other), Base(c.ind) + c.offset + j - Base(other))
  {
    hide And, Sector;
    var flash1 := Flashed(flash, c).0;
    var s, t := Sector(flash, other), Sector(flash1, other);
    forall i | 0 <= i < SECTOR
      ensures s[i] == 0 ==> t[i] == 0
      ensures Base(other) + i == Base(c.ind) + c.offset + j ==> t[i] == 0
      ensures Base(other) + i < Base(c.ind) + c.offset + j ==> t[i] == s[i]
    {
      var at := Base(other) + i;
      var k := at - Base(c.ind) - c.offset;
      SectorAt(flash, other, i);
      SectorAt(flash1, other, i);
      if 0 <= k < c.programmed {
        assert c.data[..c.programmed][k] == c.data[k];
        ZeroStays(c.data[k]);
        ComplementClears(c.data[k]);
        if k < j {
          assert !SpillsInto(c, k, other);
          AndFull(flash[at]);
        }
      }
    }
  }

  lemma SectorOfWithSector(flash: seq<bv8>, ind: CodeInd, s: seq<bv8>)
    requires |flash| == FLASH_SIZE && |s| == SECTOR
    ensures Sector(WithSector(flash, ind, s), ind) == s
  {
    hide Sector;
    var flash1 := WithSector(flash, ind, s);
    forall i | 0 <= i < SECTOR
      ensures Sector(flash1, ind)[i] == s[i]
    {
      SectorAt(flash1, ind, i);
    }
  }

  lemma SpillBreaksCoherence(crc16: CrcFun, c: Call, j: int, other: CodeInd)
    requires Crc16.Detecting(crc16) && Legal(c) && c.Write? && c.released && FirstSpill(c, j, other)
    ensures !KeepsCoherent(crc16, c)
  {
    hide Intact, WithSector, Sector, Flashed, Cleared, Crc16.Detecting;
    var q := Base(c.ind) + c.offset + j - Base(other);
    ComplementClears(c.data[j]);
    var sector := TurningSector(crc16, q, !c.data[j]);
    var zeros: seq<bv8> := seq(FLASH_SIZE, _ => 0);
    var flash := WithSector(zeros, other, sector);
    SectorOfWithSector(zeros, other, sector);
    var no := [false, false, false];
    var s := State(flash, no[other := true], no);
    SpillClears(flash, c, j, other);
    assert Coherent(crc16, s);
    var s1 := Step(crc16, s, c).0;
    assert s1.checkDone[other] && !s1.ok[other] && Intact(crc16, Sector(s1.flash, other));
    assert !Coherent(crc16, s1);
  }

  // With any CRC that notices a single byte among zeros, a call keeps every coherent cache coherent iff it
  // does not clear bits of another code.
  lemma {:induction false} KeepsCoherentIff(crc16: CrcFun, c: Call)
    requires Crc16.Detecting(crc16) && Legal(c)
    ensures KeepsCoherent(crc16, c) <==> !Spills(c)
  {
    hide Coherent, Step, FirstSpill, Crc16.Detecting;
    if !Spills(c) {
      forall s: State | s.Valid() && Coherent(crc16, s)
        ensures Coherent(crc16, Step(crc16, s, c).0)
      {
        StepKeepsCoherent(crc16, s, c);
      }
    } else {
      var j: int, other: CodeInd :| SpillsInto(c, j, other);
      var first := SomeFirstSpill(c, j, other);
      SpillBreaksCoherence(crc16, c, first, other);
    }
  }

  // So it is with the CRC of the source.
  lemma {:induction false} SpillFalsifiesCacheIff(c: Call)
    requires Legal(c)
    ensures KeepsCoherent(Crc16.Crc, c) <==> !Spills(c)
  {
    Crc16.CrcIsDetecting();
    hide KeepsCoherent, Spills, Crc16.Detecting;
    KeepsCoherentIff(Crc16.Crc, c);
  }

  predicate IsBlank(flash: seq<bv8>, ind: CodeInd)
    requires |flash| == FLASH_SIZE
  {
    forall i :: 0 <= i < SECTOR ==> Sector(flash, ind)[i] == 0xFF
  }

  // Erasing reports completion without erasing when only the first byte of the sector is blank: the
  // sector is blank afterwards iff it was before or its first byte was not.
  lemma EraseBlanksIff(flash: seq<bv8>, ind: CodeInd)
    requires |flash| == FLASH_SIZE
    ensures var (flash1, status) := Flashed(flash, Erase(ind, true, None));
            && status == Complete
            && (IsBlank(flash1, ind) <==> IsBlank(flash, ind) || Sector(flash, ind)[0] != 0xFF)
  {
    var flash1 := Flashed(flash, Erase(ind, true, None)).0;
    if Sector(flash, ind)[0] != 0xFF {
      forall i | 0 <= i < SECTOR
        ensures Sector(flash1, ind)[i] == 0xFF
      {
        SectorAt(flash1, ind, i);
      }
    }
  }

  // An input for the other case: one byte is written behind the first one of a blank sector. Erasing
  // reports completion and leaves it there.
  lemma EraseKeepsData(flash: seq<bv8>, ind: CodeInd)
    requires |flash| == FLASH_SIZE && IsBlank(flash, ind)
    ensures var written := Flashed(flash, Write(ind, 1, [0], true, 1)).0;
            Flashed(written, Erase(ind, true, None)) == (written, Complete) && !IsBlank(written, ind)
  {
    var written := Flashed(flash, Write(ind, 1, [0], true, 1)).0;
    hide Sector, And;
    SectorAt(written, ind, 0);
    SectorAt(flash, ind, 0);
    SectorAt(written, ind, 1);
    assert [0 as bv8][..1][0] == 0;
    ClearsAll(flash[Base(ind) + 1]);
    assert Sector(flash, ind)[0] == 0xFF;
  }

  lemma ClearsAll(a: bv8)
    ensures And(a, 0) == 0
  {
  }
}
