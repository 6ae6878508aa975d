/** The code store byte by byte: what each call does to the flash and what the readers answer about the bytes
    they find there (flash_helper.c:184-252, 414-495). */
module CodeBytes {
  import opened Bytes
  import opened CodeCache
  import Crc16

  // Where the three kinds of code lie: QML, Lisp, and the constants of Lisp.
  predicate LiesAt(ind: CodeInd, base: int) {
    (ind == 0 && base == 0xA_0000) || (ind == 1 && base == 0xC_0000) || (ind == 2 && base == 0x8_0000)
  }

  // ---- Writing ----

  // Programming ands the bytes in, from the first one up to a failure; nothing else changes. The motor
  // must let go for it.
  lemma WriteLaw(crc16: CrcFun, s: State, c: Call, base: int)
    requires s.Valid() && Legal(c) && c.Write? && LiesAt(c.ind, base)
    ensures var (s1, answer) := Step(crc16, s, c);
            && (forall i :: 0 <= i < 0x10_0000 ==>
                  s1.flash[i] == if c.released && base + c.offset <= i < base + c.offset + c.programmed
                                 then s.flash[i] & c.data[i - base - c.offset] else s.flash[i])
            && answer == Returned(if !c.released then Busy
                                  else if c.programmed == |c.data| then Complete else FlashError)
  {
    hide And;
    var flash1 := Step(crc16, s, c).0.flash;
    forall i | 0 <= i < 0x10_0000
      ensures flash1[i] == if c.released && base + c.offset <= i < base + c.offset + c.programmed
                           then s.flash[i] & c.data[i - base - c.offset] else s.flash[i]
    {
      WrittenByte(s.flash, c, base, i);
    }
  }

  lemma WrittenByte(flash: seq<bv8>, c: Call, base: int, i: int)
    requires |flash| == FLASH_SIZE && Legal(c) && c.Write? && LiesAt(c.ind, base) && 0 <= i < FLASH_SIZE
    ensures Flashed(flash, c).0[i]
         == if c.released && base + c.offset <= i < base + c.offset + c.programmed
            then flash[i] & c.data[i - base - c.offset] else flash[i]
  {
  }

  // Erasing gives up at once if the first byte is blank; else it turns the 128 kilobytes blank, or into
  // whatever a failing controller leaves.
  lemma EraseLaw(crc16: CrcFun, s: State, c: Call, base: int)
    requires s.Valid() && Legal(c) && c.Erase? && LiesAt(c.ind, base)
    ensures var (s1, answer) := Step(crc16, s, c);
            var erases := s.flash[base] != 0xFF && c.released;
            && (forall i :: 0 <= i < 0x10_0000 && !(erases && base <= i < base + 0x2_0000) ==>
                  s1.flash[i] == s.flash[i])
            && (forall i :: base <= i < base + 0x2_0000 && erases ==>
                  s1.flash[i] == if c.failed.Some? then c.failed.value[i - base] else 0xFF)
            && answer == Returned(if s.flash[base] == 0xFF then Complete else if !c.released then Busy
                                  else if c.failed.Some? then FlashError else Complete)
  {
  }

  // ---- Reading ----

  // The header at `base`: four bytes of length and two of CRC, high bytes first. The CRC is over the two
  // bytes of flags and the code behind them.
  function Length(flash: seq<bv8>, base: int): nat
    requires 0 <= base && base + 0x2_0000 <= |flash|
  {
    (flash[base] as int) * 0x100_0000 + (flash[base + 1] as int) * 0x1_0000
    + (flash[base + 2] as int) * 0x100 + (flash[base + 3] as int)
  }

  function Joined(high: bv8, low: bv8): int { (high as int) * 0x100 + (low as int) }

  function Pair(flash: seq<bv8>, at: int): int
    requires 0 <= at && at + 2 <= |flash|
  {
    Joined(flash[at], flash[at + 1])
  }

  predicate Checks(crc16: CrcFun, flash: seq<bv8>, base: int)
    requires 0 <= base && base + 0x2_0000 <= |flash|
  {
    && Length(flash, base) <= 0x1_FFF8
    && crc16(flash[base + 6..base + 8 + Length(flash, base)]) == Pair(flash, base + 4)
  }

  lemma SectorBytes(flash: seq<bv8>, ind: CodeInd, base: int)
    requires |flash| == FLASH_SIZE && LiesAt(ind, base)
    ensures Base(ind) == base
    ensures forall i :: 0 <= i < 0x2_0000 ==> Sector(flash, ind)[i] == flash[base + i]
  {
  }

  lemma LengthIsUint32(flash: seq<bv8>, ind: CodeInd, base: int)
    requires |flash| == FLASH_SIZE && LiesAt(ind, base)
    ensures Uint32(Sector(flash, ind)) == Length(flash, base)
  {
    SectorBytes(flash, ind, base);
    hide Sector;
  }

  lemma CoveredBytes(flash: seq<bv8>, ind: CodeInd, base: int, len: int)
    requires |flash| == FLASH_SIZE && LiesAt(ind, base) && 0 <= len <= 0x1_FFF8
    ensures Sector(flash, ind)[6..6 + len + 2] == flash[base + 6..base + 8 + len]
  {
    SectorBytes(flash, ind, base);
    hide Sector;
  }

  lemma FieldIsUint16(flash: seq<bv8>, ind: CodeInd, base: int, at: int)
    requires |flash| == FLASH_SIZE && LiesAt(ind, base) && 0 <= at < 8
    ensures Uint16(Sector(flash, ind), at) == Pair(flash, base + at)
  {
    SectorBytes(flash, ind, base);
    hide Sector;
  }

  lemma ChecksIsIntact(crc16: CrcFun, flash: seq<bv8>, ind: CodeInd, base: int)
    requires |flash| == FLASH_SIZE && LiesAt(ind, base)
    ensures Intact(crc16, Sector(flash, ind)) <==> Checks(crc16, flash, base)
  {
    hide Length, Sector, Uint32, Uint16, Pair, LiesAt, Intact, Checks;
    LengthIsUint32(flash, ind, base);
    FieldIsUint16(flash, ind, base, 4);
    InFlash(ind, base);
    var len := Length(flash, base);
    if len <= 0x1_FFF8 {
      CoveredBytes(flash, ind, base, len);
      SameVerdict(crc16, Sector(flash, ind), flash, base, len);
    } else {
      TooLong(crc16, Sector(flash, ind), flash, base);
    }
  }

  lemma InFlash(ind: CodeInd, base: int)
    requires LiesAt(ind, base)
    ensures 0 <= base && base + 0x2_0000 <= FLASH_SIZE
  {
  }

  lemma SameVerdict(crc16: CrcFun, s: seq<bv8>, flash: seq<bv8>, base: int, len: nat)
    requires |s| == SECTOR && 0 <= base && base + 0x2_0000 <= |flash| && len <= 0x1_FFF8
    requires Uint32(s) == Length(flash, base) == len && Uint16(s, 4) == Pair(flash, base + 4)
    requires s[6..6 + len + 2] == flash[base + 6..base + 8 + len]
    ensures Intact(crc16, s) <==> Checks(crc16, flash, base)
  {
    hide Length, Uint32, Uint16, Pair;
  }

  lemma TooLong(crc16: CrcFun, s: seq<bv8>, flash: seq<bv8>, base: int)
    requires |s| == SECTOR && 0 <= base && base + 0x2_0000 <= |flash|
    requires Uint32(s) == Length(flash, base) > 0x1_FFF8
    ensures !Intact(crc16, s) && !Checks(crc16, flash, base)
  {
    hide Length, Uint32, Uint16, Pair;
  }

  // What the three readers answer, in any coherent state.
  lemma {:induction false} ReadLaw(crc16: CrcFun, s: State, ind: CodeInd, base: int)
    requires s.Valid() && Coherent(crc16, s) && LiesAt(ind, base)
    ensures var good, f := Checks(crc16, s.flash, base), s.flash;
            && Step(crc16, s, CodeData(ind)).1 == (if good then Address(base + 8) else Null)
            && Step(crc16, s, CodeSize(ind)).1 == Number(if good then Length(f, base) else 0)
            && Step(crc16, s, CodeFlags(ind)).1 == Number(if good then Pair(f, base + 6) else 0)
    ensures forall c <- [CodeData(ind), CodeSize(ind), CodeFlags(ind)] :: Step(crc16, s, c).0.flash == s.flash
  {
    hide Length, Pair, Checks, Intact;
    ChecksIsIntact(crc16, s.flash, ind, base);
    LengthIsUint32(s.flash, ind, base);
    FieldIsUint16(s.flash, ind, base, 6);
    SectorBytes(s.flash, ind, base);
    hide Sector, Uint32, Uint16;
  }

  // After every run of erasing, writing inside the sectors and reading, from any start of the system, the
  // readers answer what the bytes now in flash say: the cache never shows.
  lemma {:induction false} AnswersTellTheFlash(
      crc16: CrcFun, flash: seq<bv8>, calls: seq<Call>, ind: CodeInd, base: int)
    requires |flash| == FLASH_SIZE && LiesAt(ind, base) && AllLegal(calls)
    requires forall k :: 0 <= k < |calls| && calls[k].Write? ==> calls[k].offset + |calls[k].data| <= 0x2_0000
    ensures var s := Steps(crc16, Fresh(flash), calls).0;
            var good, f := Checks(crc16, s.flash, base), s.flash;
            && Step(crc16, s, CodeData(ind)).1 == (if good then Address(base + 8) else Null)
            && Step(crc16, s, CodeSize(ind)).1 == Number(if good then Length(f, base) else 0)
            && Step(crc16, s, CodeFlags(ind)).1 == Number(if good then Pair(f, base + 6) else 0)
  {
    forall k | 0 <= k < |calls|
      ensures !Spills(calls[k])
    {
      InsideNeverSpills(calls[k]);
    }
    StartIsCoherent(crc16, flash);
    hide Coherent, Step, Checks, Length, Pair, LiesAt, Spills;
    CacheIsTransparent(crc16, Fresh(flash), calls);
    ReadLaw(crc16, Steps(crc16, Fresh(flash), calls).0, ind, base);
  }

  // ---- Damage ----

  lemma SlicesDiffer(f: seq<bv8>, g: seq<bv8>, lo: int, hi: int, q: int)
    requires Crc16.DifferAt(f, g, q) && 0 <= lo <= hi <= |f|
    ensures if lo <= q < hi then Crc16.DifferAt(f[lo..hi], g[lo..hi], q - lo) else f[lo..hi] == g[lo..hi]
  {
    if !(lo <= q < hi) {
      assert forall i :: lo <= i < hi ==> f[i] == g[i];
    }
  }

  lemma JoinedDiffer(a: bv8, b: bv8, c: bv8, d: bv8)
    requires (a != c) != (b != d)
    ensures Joined(a, b) != Joined(c, d)
  {
    assert a == (a as int) as bv8 && b == (b as int) as bv8 && c == (c as int) as bv8 && d == (d as int) as bv8;
  }

  lemma PairsDiffer(f: seq<bv8>, g: seq<bv8>, at: int, q: int)
    requires Crc16.DifferAt(f, g, q) && 0 <= at && at + 2 <= |f|
    ensures Pair(f, at) == Pair(g, at) <==> !(at <= q < at + 2)
  {
    hide Joined;
    if q == at || q == at + 1 {
      JoinedDiffer(f[at], f[at + 1], g[at], g[at + 1]);
    }
  }

  lemma LengthsAgree(f: seq<bv8>, g: seq<bv8>, base: int, q: int)
    requires Crc16.DifferAt(f, g, q) && 0 <= base && base + 0x2_0000 <= |f| && base + 4 <= q
    ensures Length(f, base) == Length(g, base)
  {
  }

  // What the CRC is over.
  function Covered(f: seq<bv8>, base: int): seq<bv8>
    requires 0 <= base && base + 0x2_0000 <= |f| && Length(f, base) <= 0x1_FFF8
  {
    f[base + 6..base + 8 + Length(f, base)]
  }

  lemma ChecksByCrc(f: seq<bv8>, base: int)
    requires 0 <= base && base + 0x2_0000 <= |f| && Length(f, base) <= 0x1_FFF8
    ensures Checks(Crc16.Crc, f, base) <==> Crc16.Crc(Covered(f, base)) == Pair(f, base + 4)
  {
    hide Crc16.Crc, Length, Pair;
  }

  lemma CoveredDiffer(f: seq<bv8>, g: seq<bv8>, base: int, q: int)
    requires 0 <= base && base + 0x2_0000 <= |f| && Crc16.DifferAt(f, g, q) && |f| == |g|
    requires Length(f, base) == Length(g, base) <= 0x1_FFF8 && q < base + 8 + Length(f, base)
    ensures if base + 6 <= q then Crc16.DifferAt(Covered(f, base), Covered(g, base), q - base - 6)
            else Covered(f, base) == Covered(g, base)
  {
    hide Length, Crc16.DifferAt;
    SlicesDiffer(f, g, base + 6, base + 8 + Length(f, base), q);
  }

  // A stored code that checks no longer does when one byte behind its length changes: of the CRC, the
  // flags or the code itself.
  lemma {:induction false} DamageIsNoticed(f: seq<bv8>, g: seq<bv8>, base: int, q: int)
    requires 0 <= base && base + 0x2_0000 <= |f| && Crc16.DifferAt(f, g, q)
    requires Checks(Crc16.Crc, f, base) && base + 4 <= q < base + 8 + Length(f, base)
    ensures !Checks(Crc16.Crc, g, base)
  {
    assert |f| == |g| && Length(f, base) <= 0x1_FFF8;
    hide Crc16.Crc, Crc16.DifferAt, Length, Pair, Checks, Covered;
    LengthsAgree(f, g, base, q);
    PairsDiffer(f, g, base + 4, q);
    ChecksByCrc(f, base);
    ChecksByCrc(g, base);
    CoveredDiffer(f, g, base, q);
    if base + 6 <= q {
      Crc16.OneByteIsNoticed(Covered(f, base), Covered(g, base), q - base - 6);
    }
  }
}
