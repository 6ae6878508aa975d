/** The integrity check of the application image in flash: the one-shot check with its first-boot
    store, and the incremental scan (flash_helper.c:41-76, 317-408; util/crc.c:75-93). */
module FlashIntegrity {
  // The memory map. Sizes are in bytes, places in 32-bit words from ADDR_FLASH_SECTOR_0.
  const FLASH_WORDS := 0x4_0000
  const VECTOR_TABLE_SIZE := 16384
  const APP_SIZE := 475128
  const TOT_BYTES := 491512
  const VECTOR_WORDS := 4096
  const APP_WORDS := 118782
  const APP_START := 12288
  const FLAG_ADDRESS := 131068
  const CRC_ADDRESS := 131069

  // The numbers are the ones the defines work out to; flag and CRC are the last two words of the application area.
  lemma MemoryMap()
    ensures var appMaxSize, eepromSize := 1024 * 128 * 4 - 8, 0x08010000 - 0x08008000;
            && VECTOR_TABLE_SIZE == 0x08004000 - 0x08000000
            && APP_SIZE == appMaxSize - VECTOR_TABLE_SIZE - eepromSize
            && TOT_BYTES == VECTOR_TABLE_SIZE + APP_SIZE
            && 4 * APP_START == 0x0800C000 - 0x08000000
            && 4 * FLAG_ADDRESS == appMaxSize - 8 && 4 * CRC_ADDRESS == appMaxSize - 4
            && 4 * VECTOR_WORDS == VECTOR_TABLE_SIZE && 4 * APP_WORDS == APP_SIZE
            && APP_START + APP_WORDS == CRC_ADDRESS + 1 == FLAG_ADDRESS + 2
            && CALLS == (TOT_BYTES + CHUNK - 1) / CHUNK
  {
  }

  const RESET: bv32 := 0xFFFF_FFFF
  const POLY: bv32 := 0x04C1_1DB7
  const CHUNK := 1024

  // The CRC unit: 32 steps of the shift register.
  function Shift(x: bv32): bv32 { if x & 0x8000_0000 != 0 then (x << 1) ^ POLY else x << 1 }

  function Shifts(x: bv32, n: nat): bv32
    decreases n
  {
    if n == 0 then x else Shifts(Shift(x), n - 1)
  }

  function CrcUnit(x: bv32): bv32 { Shifts(x, 32) }

  // The data register after writing the words one by one.
  function Fold(dr: bv32, words: seq<bv32>): bv32
    decreases |words|
  {
    if words == [] then dr else Fold(CrcUnit(dr ^ words[0]), words[1..])
  }

  // What the checks cover: the vector table and the application, without the emulated EEPROM between them.
  function Image(flash: seq<bv32>): (words: seq<bv32>)
    requires |flash| == FLASH_WORDS
    ensures |words| == VECTOR_WORDS + APP_WORDS
  {
    flash[..VECTOR_WORDS] + flash[APP_START..APP_START + APP_WORDS]
  }

  function ImageCrc(flash: seq<bv32>): bv32
    requires |flash| == FLASH_WORDS
  {
    Fold(RESET, Image(flash))
  }

  // Programming flash can only clear bits.
  function Program(flash: seq<bv32>, a: nat, w: bv32): seq<bv32>
    requires a < |flash|
  {
    flash[a := flash[a] & w]
  }

  // The CRC over all but the last word of the image.
  function StoredCrc(flash: seq<bv32>): bv32
    requires |flash| == FLASH_WORDS
  {
    var image := Image(flash);
    Fold(RESET, image[..|image| - 1])
  }

  datatype Outcome = NoFault | FlashCorruption | Reboot

  // Whether the flash controller completes the programming of the flag and of the CRC; a word that it
  // does not complete is taken to be unchanged.
  datatype Controller = Controller(flagDone: bool, crcDone: bool)

  const WORKING := Controller(true, true)

  // flash_helper_verify_flash_memory
  function Verify(flash: seq<bv32>, k: Controller): (res: (seq<bv32>, Outcome))
    requires |flash| == FLASH_WORDS
    ensures |res.0| == FLASH_WORDS
  {
    if flash[FLAG_ADDRESS] == 0 then (flash, if ImageCrc(flash) == 0 then NoFault else FlashCorruption)
    else if !k.flagDone then (flash, FlashCorruption)
    else
      var flagged := Program(flash, FLAG_ADDRESS, 0);
      if !k.crcDone then (flagged, FlashCorruption)
      else (Program(flagged, CRC_ADDRESS, StoredCrc(flagged)), Reboot)
  }

  // The words that one call of the incremental scan reads.
  function ChunkSize(index: nat): int {
    if TOT_BYTES <= index + CHUNK then TOT_BYTES - index else CHUNK
  }

  predicate ValidIndex(index: nat) { index % CHUNK == 0 && index < TOT_BYTES }

  function ChunkStart(index: nat): nat {
    if index < VECTOR_TABLE_SIZE then index / 4 else APP_START + (index - VECTOR_TABLE_SIZE) / 4
  }

  // A chunk lies in one of the two areas and ends within it.
  lemma ChunkDoesNotStraddle(index: nat)
    requires ValidIndex(index)
    ensures 0 < ChunkSize(index) <= CHUNK && ChunkSize(index) % 4 == 0
    ensures if index < VECTOR_TABLE_SIZE then ChunkStart(index) + ChunkSize(index) / 4 <= VECTOR_WORDS
            else APP_START <= ChunkStart(index) && ChunkStart(index) + ChunkSize(index) / 4 <= APP_START + APP_WORDS
  {
  }

  function ChunkWords(flash: seq<bv32>, index: nat): seq<bv32>
    requires |flash| == FLASH_WORDS && ValidIndex(index)
  {
    ChunkDoesNotStraddle(index);
    flash[ChunkStart(index)..ChunkStart(index) + ChunkSize(index) / 4]
  }

  datatype Scan = Scan(index: nat, dr: bv32)

  // flash_helper_verify_flash_memory_chunk
  function ScanChunk(flash: seq<bv32>, s: Scan): (res: (Scan, Outcome))
    requires |flash| == FLASH_WORDS && ValidIndex(s.index)
    ensures ValidIndex(res.0.index)
  {
    var dr := Fold(if s.index == 0 then RESET else s.dr, ChunkWords(flash, s.index));
    var next := s.index + ChunkSize(s.index);
    if TOT_BYTES <= next then
      (Scan(0, dr), if VECTOR_TABLE_SIZE <= s.index && dr != 0 then FlashCorruption else NoFault)
    else (Scan(next, dr), NoFault)
  }

  lemma {:induction false} FoldConcat(dr: bv32, a: seq<bv32>, b: seq<bv32>)
    ensures Fold(dr, a + b) == Fold(Fold(dr, a), b)
    decreases |a|
  {
    hide CrcUnit;
    if a == [] {
      assert a + b == b;
    } else {
      assert (a + b)[1..] == a[1..] + b;
      FoldConcat(CrcUnit(dr ^ a[0]), a[1..], b);
    }
  }

  lemma FoldOne(dr: bv32, w: bv32)
    ensures Fold(dr, [w]) == CrcUnit(dr ^ w)
  {
    hide CrcUnit;
    assert [w][1..] == [];
  }

  lemma FlaggedVerdict(flash: seq<bv32>, k: Controller)
    requires |flash| == FLASH_WORDS && flash[FLAG_ADDRESS] == 0
    ensures Verify(flash, k) == (flash, if ImageCrc(flash) == 0 then NoFault else FlashCorruption)
  {
    hide Fold, CrcUnit, Image;
  }

  class FlashHelper {
    const flash: array<bv32>
    var crcDr: bv32     // the data register of the CRC unit
    var index: nat      // static in flash_helper_verify_flash_memory_chunk

    ghost predicate Valid()
      reads this
    {
      flash.Length == FLASH_WORDS && ValidIndex(index)
    }

    constructor (flash: array<bv32>)
      requires flash.Length == FLASH_WORDS
      ensures Valid() && this.flash == flash && index == 0
    {
      this.flash := flash;
      crcDr, index := RESET, 0;
    }

    // crc32
    method Crc32(start: nat, len: nat) returns (crc: bv32)
      requires start + len <= flash.Length
      modifies this`crcDr
      ensures crc == crcDr == Fold(old(crcDr), flash[start..start + len])
    {
      hide CrcUnit;
      for i := 0 to len
        invariant crcDr == Fold(old(crcDr), flash[start..start + i])
      {
        FoldConcat(old(crcDr), flash[start..start + i], [flash[start + i]]);
        FoldOne(crcDr, flash[start + i]);
        assert flash[start..start + i + 1] == flash[start..start + i] + [flash[start + i]];
        crcDr := CrcUnit(crcDr ^ flash[start + i]);
      }
      crc := crcDr;
    }

    method VerifyFlashMemory(k: Controller) returns (res: Outcome)
      requires Valid()
      modifies this`crcDr, flash
      ensures (flash[..], res) == Verify(old(flash[..]), k)
    {
      hide Fold, CrcUnit;
      if flash[FLAG_ADDRESS] == 0 {
        crcDr := RESET;
        var crc := Crc32(0, VECTOR_WORDS);
        crc := Crc32(APP_START, APP_WORDS);
        FoldConcat(RESET, flash[0..VECTOR_WORDS], flash[APP_START..APP_START + APP_WORDS]);
        assert Image(flash[..]) == flash[0..VECTOR_WORDS] + flash[APP_START..APP_START + APP_WORDS];
        res := if crc == 0 then NoFault else FlashCorruption;
      } else {
        if !k.flagDone {
          return FlashCorruption;
        }
        flash[FLAG_ADDRESS] := flash[FLAG_ADDRESS] & 0;
        ghost var flagged := flash[..];
        assert flagged == Program(old(flash[..]), FLAG_ADDRESS, 0);
        crcDr := RESET;
        var crc := Crc32(0, VECTOR_WORDS);
        crc := Crc32(APP_START, APP_WORDS - 1);
        FoldConcat(RESET, flash[0..VECTOR_WORDS], flash[APP_START..APP_START + APP_WORDS - 1]);
        assert Image(flagged)[..|Image(flagged)| - 1]
            == flagged[0..VECTOR_WORDS] + flagged[APP_START..APP_START + APP_WORDS - 1];
        if !k.crcDone {
          return FlashCorruption;
        }
        flash[CRC_ADDRESS] := flash[CRC_ADDRESS] & crc;
        assert flash[..] == Program(flagged, CRC_ADDRESS, crc);
        res := Reboot;
      }
    }

    method VerifyFlashMemoryChunk() returns (res: Outcome)
      requires Valid()
      modifies this
      ensures Valid()
      ensures (Scan(index, crcDr), res) == ScanChunk(flash[..], old(Scan(index, crcDr)))
    {
      hide Fold, CrcUnit;
      ChunkDoesNotStraddle(index);
      var chunkSize := CHUNK;
      res := NoFault;
      var crc: bv32 := 0;
      var totBytes := TOT_BYTES;
      if index == 0 {
        crcDr := RESET;
      }
      if index + chunkSize >= totBytes {
        chunkSize := totBytes - index;
      }
      if index < VECTOR_TABLE_SIZE {
        var _ := Crc32(index / 4, chunkSize / 4);
      } else {
        crc := Crc32(APP_START + (index - VECTOR_TABLE_SIZE) / 4, chunkSize / 4);
      }
      index := index + chunkSize;
      if index >= totBytes {
        index := 0;
        if crc != 0 {
          res := FlashCorruption;
        }
      }
    }
  }

  // ---- The incremental scan refines the one-shot check ----

  const CALLS := 480   // TOT_BYTES / CHUNK, rounded up

  function Scans(flash: seq<bv32>, s: Scan, k: nat): (res: (Scan, seq<Outcome>))
    requires |flash| == FLASH_WORDS && ValidIndex(s.index)
    ensures ValidIndex(res.0.index) && |res.1| == k
  {
    if k == 0 then (s, [])
    else
      var (s1, out) := Scans(flash, s, k - 1);
      var (s2, o) := ScanChunk(flash, s1);
      (s2, out + [o])
  }

  // Chunk number k is the k-th kilobyte of the image.
  lemma ChunkOfImage(flash: seq<bv32>, k: nat)
    requires |flash| == FLASH_WORDS && k < CALLS
    ensures ValidIndex(k * CHUNK)
    ensures ChunkWords(flash, k * CHUNK) == Image(flash)[k * CHUNK / 4..(k * CHUNK + ChunkSize(k * CHUNK)) / 4]
  {
    ChunkDoesNotStraddle(k * CHUNK);
    var image, words := Image(flash), ChunkWords(flash, k * CHUNK);
    assert k * CHUNK / 4 == 256 * k;
    assert ChunkStart(k * CHUNK) == if k < 16 then 256 * k else APP_START + 256 * k - VECTOR_WORDS;
    forall j | 0 <= j < |words|
      ensures words[j] == image[256 * k + j]
    {
      assert words[j] == flash[ChunkStart(k * CHUNK) + j];
    }
  }

  // All words that k calls in a row feed to the CRC unit, in order.
  function FedBy(flash: seq<bv32>, s: Scan, k: nat): seq<bv32>
    requires |flash| == FLASH_WORDS && ValidIndex(s.index)
  {
    if k == 0 then [] else FedBy(flash, s, k - 1) + ChunkWords(flash, Scans(flash, s, k - 1).0.index)
  }

  // After k calls exactly the first k kilobytes of the image have been fed, and nothing is reported.
  lemma {:induction false} ScanProgress(flash: seq<bv32>, dr: bv32, k: nat)
    requires |flash| == FLASH_WORDS && 1 <= k < CALLS
    ensures FedBy(flash, Scan(0, dr), k) == Image(flash)[..k * CHUNK / 4]
    ensures Scans(flash, Scan(0, dr), k).0 == Scan(k * CHUNK, Fold(RESET, FedBy(flash, Scan(0, dr), k)))
    ensures forall j :: 0 <= j < k ==> Scans(flash, Scan(0, dr), k).1[j] == NoFault
  {
    hide Fold, CrcUnit, ChunkWords;
    var image := Image(flash);
    ChunkOfImage(flash, k - 1);
    if k == 1 {
      assert Scans(flash, Scan(0, dr), 0) == (Scan(0, dr), []);
      assert FedBy(flash, Scan(0, dr), 0) == [];
    } else {
      ScanProgress(flash, dr, k - 1);
      var before, chunk := image[..(k - 1) * CHUNK / 4], image[(k - 1) * CHUNK / 4..k * CHUNK / 4];
      FoldConcat(RESET, before, chunk);
      assert image[..k * CHUNK / 4] == before + chunk;
    }
  }

  lemma OneMoreScan(flash: seq<bv32>, s: Scan, k: nat)
    requires |flash| == FLASH_WORDS && ValidIndex(s.index)
    ensures var (s1, out) := Scans(flash, s, k);
            var (s2, o) := ScanChunk(flash, s1);
            Scans(flash, s, k + 1) == (s2, out + [o])
  {
    hide ScanChunk;
  }

  // The last call completes the image.
  lemma LastChunk(flash: seq<bv32>, k: nat)
    requires |flash| == FLASH_WORDS && k == CALLS - 1
    ensures ValidIndex(k * CHUNK)
    ensures ScanChunk(flash, Scan(k * CHUNK, Fold(RESET, Image(flash)[..k * CHUNK / 4])))
            == (Scan(0, ImageCrc(flash)), if ImageCrc(flash) == 0 then NoFault else FlashCorruption)
    ensures Image(flash)[..k * CHUNK / 4] + ChunkWords(flash, k * CHUNK) == Image(flash)
  {
    hide Fold, CrcUnit, ChunkWords;
    var image, last := Image(flash), k * CHUNK / 4;
    ChunkOfImage(flash, k);
    FoldConcat(RESET, image[..last], image[last..]);
    assert image == image[..last] + image[last..];
    assert ChunkWords(flash, k * CHUNK) == image[last..];
  }

  lemma OneMoreFed(flash: seq<bv32>, s: Scan, k: nat)
    requires |flash| == FLASH_WORDS && ValidIndex(s.index)
    ensures FedBy(flash, s, k + 1) == FedBy(flash, s, k) + ChunkWords(flash, Scans(flash, s, k).0.index)
  {
  }

  // One cycle of CALLS calls feeds the vector table and then the application to the CRC unit, each word
  // once and in order, and is back at its start.
  lemma {:induction false} CycleFeedsImage(flash: seq<bv32>, dr: bv32)
    requires |flash| == FLASH_WORDS
    ensures FedBy(flash, Scan(0, dr), CALLS) == Image(flash)
    ensures Scans(flash, Scan(0, dr), CALLS).0 == Scan(0, ImageCrc(flash))
  {
    LastChunk(flash, CALLS - 1);
    OneMoreScan(flash, Scan(0, dr), CALLS - 1);
    OneMoreFed(flash, Scan(0, dr), CALLS - 1);
    ScanProgress(flash, dr, CALLS - 1);
    hide Scans, FedBy, ImageCrc, Image;
  }

  // It reports corruption with its last call, and only there, iff the one-shot check would.
  lemma {:induction false} CycleRefinesOneShot(flash: seq<bv32>, dr: bv32, k: Controller)
    requires |flash| == FLASH_WORDS && flash[FLAG_ADDRESS] == 0
    ensures var out := Scans(flash, Scan(0, dr), CALLS).1;
            && out[CALLS - 1] == Verify(flash, k).1
            && forall j :: 0 <= j < CALLS - 1 ==> out[j] == NoFault
  {
    hide Verify;
    FlaggedVerdict(flash, k);
    LastChunk(flash, CALLS - 1);
    OneMoreScan(flash, Scan(0, dr), CALLS - 1);
    ScanProgress(flash, dr, CALLS - 1);
    hide Scans, FedBy, ImageCrc, Image;
  }

  lemma {:induction false} ScansAdd(flash: seq<bv32>, s: Scan, k: nat, m: nat)
    requires |flash| == FLASH_WORDS && ValidIndex(s.index)
    ensures var (s1, out1) := Scans(flash, s, k);
            var (s2, out2) := Scans(flash, s1, m);
            Scans(flash, s, k + m) == (s2, out1 + out2)
  {
    hide ScanChunk, ValidIndex;
    if m == 0 {
      assert Scans(flash, s, k).1 + [] == Scans(flash, s, k).1;
    } else {
      ScansAdd(flash, s, k, m - 1);
      OneMoreScan(flash, s, k + m - 1);
      var (s1, out1) := Scans(flash, s, k);
      OneMoreScan(flash, s1, m - 1);
      var (s2, out2) := Scans(flash, s1, m - 1);
      var (s3, o) := ScanChunk(flash, s2);
      assert (out1 + out2) + [o] == out1 + (out2 + [o]);
    }
  }

  lemma ScanAdvances(flash: seq<bv32>, s: Scan)
    requires |flash| == FLASH_WORDS && ValidIndex(s.index)
    ensures ScanChunk(flash, s).0.index == if s.index / CHUNK == CALLS - 1 then 0 else s.index + CHUNK
  {
    hide Fold;
  }

  // From any index the scan reaches its start after what is left of the cycle.
  lemma {:induction false} RestOfCycle(flash: seq<bv32>, s: Scan, k: nat)
    requires |flash| == FLASH_WORDS && ValidIndex(s.index) && s.index / CHUNK + k <= CALLS
    ensures Scans(flash, s, k).0.index == if s.index / CHUNK + k == CALLS then 0 else s.index + k * CHUNK
  {
    hide ScanChunk;
    if k > 0 {
      RestOfCycle(flash, s, k - 1);
      OneMoreScan(flash, s, k - 1);
      ScanAdvances(flash, Scans(flash, s, k - 1).0);
    }
  }

  // Wherever a scan stands, and whatever it has summed up so far: the cycle after the present one reports
  // what the one-shot check would. So a corruption is found within two cycles of its appearance.
  lemma {:induction false} ScanRecovers(flash: seq<bv32>, s: Scan, c: Controller)
    requires |flash| == FLASH_WORDS && ValidIndex(s.index) && flash[FLAG_ADDRESS] == 0
    ensures var rest := CALLS - s.index / CHUNK;
            var (s1, out) := Scans(flash, s, rest + CALLS);
            && 0 < rest <= CALLS && s1.index == 0
            && out[rest + CALLS - 1] == Verify(flash, c).1
            && forall j :: rest <= j < rest + CALLS - 1 ==> out[j] == NoFault
  {
    hide Scans, Verify, Image, ImageCrc;
    var rest := CALLS - s.index / CHUNK;
    RestOfCycle(flash, s, rest);
    var s1 := Scans(flash, s, rest).0;
    ScansAdd(flash, s, rest, CALLS);
    CycleRefinesOneShot(flash, s1.dr, c);
    CycleFeedsImage(flash, s1.dr);
  }

  // ---- Store, then verify ----

  // The shift register maps only zero to zero: the constant term of the polynomial is one.
  lemma ShiftZeroIff(x: bv32)
    ensures Shift(x) == 0 <==> x == 0
  {
  }

  lemma {:induction false} ShiftsZeroIff(x: bv32, n: nat)
    ensures Shifts(x, n) == 0 <==> x == 0
    decreases n
  {
    if n > 0 {
      ShiftZeroIff(x);
      ShiftsZeroIff(Shift(x), n - 1);
    }
  }

  lemma CrcUnitZeroIff(x: bv32)
    ensures CrcUnit(x) == 0 <==> x == 0
  {
    ShiftsZeroIff(x, 32);
    hide Shifts;
  }

  lemma XorZeroIff(a: bv32, b: bv32)
    ensures a ^ b == 0 <==> a == b
  {
  }

  lemma FoldOneZeroIff(dr: bv32, w: bv32)
    ensures Fold(dr, [w]) == 0 <==> w == dr
  {
    FoldOne(dr, w);
    CrcUnitZeroIff(dr ^ w);
    XorZeroIff(dr, w);
    hide Fold, CrcUnit;
  }

  // The image checks iff its last word is the CRC of all words before it.
  lemma ChecksIffCrcStored(flash: seq<bv32>)
    requires |flash| == FLASH_WORDS
    ensures ImageCrc(flash) == 0 <==> flash[CRC_ADDRESS] == StoredCrc(flash)
  {
    hide Fold, CrcUnit;
    var image := Image(flash);
    var n := |image| - 1;
    assert image[n] == flash[CRC_ADDRESS];
    assert image == image[..n] + [image[n]];
    FoldConcat(RESET, image[..n], [image[n]]);
    var s := StoredCrc(flash);
    FoldOneZeroIff(s, image[n]);
  }

  // The CRC of the image as it will be once its flag is cleared, which anybody can compute before.
  function DueCrc(flash: seq<bv32>): bv32
    requires |flash| == FLASH_WORDS
  {
    StoredCrc(flash[FLAG_ADDRESS := 0])
  }

  lemma FlagIsCleared(flash: seq<bv32>)
    requires |flash| == FLASH_WORDS
    ensures Program(flash, FLAG_ADDRESS, 0) == flash[FLAG_ADDRESS := 0]
  {
  }

  // The first-boot pass: the flag is cleared, the CRC is programmed, nothing else changes.
  lemma StorePass(flash: seq<bv32>)
    requires |flash| == FLASH_WORDS && flash[FLAG_ADDRESS] != 0
    ensures var (stored, out) := Verify(flash, WORKING);
            && out == Reboot
            && stored[FLAG_ADDRESS] == 0
            && stored[CRC_ADDRESS] == flash[CRC_ADDRESS] & DueCrc(flash)
            && StoredCrc(stored) == DueCrc(flash)
            && forall a :: 0 <= a < FLASH_WORDS && a != FLAG_ADDRESS && a != CRC_ADDRESS ==> stored[a] == flash[a]
  {
    hide Fold, CrcUnit;
    FlagIsCleared(flash);
    var flagged := Program(flash, FLAG_ADDRESS, 0);
    var stored := Program(flagged, CRC_ADDRESS, StoredCrc(flagged));
    var n := |Image(flash)| - 1;
    assert Image(stored)[..n] == Image(flagged)[..n];
    assert flagged[FLAG_ADDRESS] == 0;
  }

  lemma AndWithBlank(x: bv32)
    ensures 0xFFFF_FFFF & x == x
  {
  }

  // The check after the first-boot pass finds no fault iff the old CRC word can be programmed to the CRC
  // that is due, that is, has no zero where that has a one; a blank word always can.
  lemma {:induction false} StoreThenVerify(flash: seq<bv32>, k: Controller)
    requires |flash| == FLASH_WORDS && flash[FLAG_ADDRESS] != 0
    ensures var stored, crc := Verify(flash, WORKING).0, DueCrc(flash);
            && (Verify(stored, k) == (stored, NoFault) <==> flash[CRC_ADDRESS] & crc == crc)
            && (flash[CRC_ADDRESS] == 0xFFFF_FFFF ==> Verify(stored, k).1 == NoFault)
  {
    hide Verify, StoredCrc, ImageCrc, DueCrc;
    var stored := Verify(flash, WORKING).0;
    StorePass(flash);
    FlaggedVerdict(stored, k);
    ChecksIffCrcStored(stored);
    AndWithBlank(DueCrc(flash));
  }

  // A flash whose CRC word is already zero, with w as the word before the flag.
  function ZeroCrcFlash(flash: seq<bv32>, w: bv32): (f: seq<bv32>)
    requires |flash| == FLASH_WORDS
    ensures |f| == FLASH_WORDS
  {
    flash[CRC_ADDRESS := 0][FLAG_ADDRESS - 1 := w]
  }

  // The stored CRC of an image whose flag is clear is zero iff the word before the flag is the CRC of
  // all words before it.
  lemma StoredCrcZeroIff(flash: seq<bv32>, n: nat)
    requires |flash| == FLASH_WORDS && flash[FLAG_ADDRESS] == 0 && n == VECTOR_WORDS + APP_WORDS - 3
    ensures StoredCrc(flash) == 0 <==> flash[FLAG_ADDRESS - 1] == Fold(RESET, Image(flash)[..n])
  {
    hide Fold, CrcUnit;
    var image := Image(flash);
    var w, dr := flash[FLAG_ADDRESS - 1], Fold(RESET, image[..n]);
    assert image[n] == w && image[n + 1] == 0;
    assert image[..n + 1] == image[..n] + [w];
    assert image[..n + 2] == image[..n + 1] + [0];
    FoldConcat(RESET, image[..n], [w]);
    FoldConcat(RESET, image[..n + 1], [0]);
    FoldOneZeroIff(dr, w);
    FoldOneZeroIff(Fold(dr, [w]), 0);
  }

  // The store can fail: over a zero CRC word it does for every word before the flag but one.
  lemma {:induction false} StoreCanFail(flash: seq<bv32>, k: Controller) returns (good: bv32)
    requires |flash| == FLASH_WORDS && flash[FLAG_ADDRESS] != 0
    ensures forall w :: Verify(Verify(ZeroCrcFlash(flash, w), WORKING).0, k).1 == NoFault <==> w == good
  {
    hide Fold, CrcUnit, Verify, StoredCrc, ImageCrc, DueCrc;
    var n := VECTOR_WORDS + APP_WORDS - 3;
    good := Fold(RESET, Image(flash)[..n]);
    forall w
      ensures Verify(Verify(ZeroCrcFlash(flash, w), WORKING).0, k).1 == NoFault <==> w == good
    {
      var f := ZeroCrcFlash(flash, w);
      var stored := Verify(f, WORKING).0;
      StorePass(f);
      ZeroStays(StoredCrc(stored));
      FlaggedVerdict(stored, k);
      ChecksIffCrcStored(stored);
      StoredCrcZeroIff(stored, n);
      SameImageBefore(stored, flash, n);
    }
  }

  lemma SameImageBefore(f: seq<bv32>, g: seq<bv32>, n: nat)
    requires |f| == |g| == FLASH_WORDS && n == VECTOR_WORDS + APP_WORDS - 3
    requires forall a :: 0 <= a < FLAG_ADDRESS - 1 ==> f[a] == g[a]
    ensures Image(f)[..n] == Image(g)[..n]
  {
    var m := n - VECTOR_WORDS;
    assert f[..VECTOR_WORDS] == g[..VECTOR_WORDS];
    assert f[APP_START..APP_START + m] == g[APP_START..APP_START + m];
    assert Image(f)[..n] == f[..VECTOR_WORDS] + f[APP_START..APP_START + m];
    assert Image(g)[..n] == g[..VECTOR_WORDS] + g[APP_START..APP_START + m];
  }

  lemma ZeroStays(x: bv32)
    ensures 0 & x == 0
  {
  }

  // A first-boot pass that fails reports corruption. If only the CRC could not be programmed, the next
  // check reports it again unless the old word happens to be the CRC that is due.
  lemma {:induction false} FailedStore(flash: seq<bv32>, k: Controller, later: Controller)
    requires |flash| == FLASH_WORDS && flash[FLAG_ADDRESS] != 0 && !(k.flagDone && k.crcDone)
    ensures var (left, out) := Verify(flash, k);
            && out == FlashCorruption
            && (!k.flagDone ==> left == flash)
            && (k.flagDone ==> (Verify(left, later).1 == FlashCorruption <==> flash[CRC_ADDRESS] != DueCrc(flash)))
  {
    hide Fold, CrcUnit, Image, StoredCrc, ImageCrc;
    FlagIsCleared(flash);
    if k.flagDone {
      var left := Verify(flash, k).0;
      assert left == Program(flash, FLAG_ADDRESS, 0) && left[FLAG_ADDRESS] == 0;
      FlaggedVerdict(left, later);
      ChecksIffCrcStored(left);
    }
  }

  // ---- What the checks notice ----

  // Word k of the image: the first 4096 words of the flash, and those from number 12288 to 131069.
  lemma ImageWord(flash: seq<bv32>, k: nat)
    requires |flash| == FLASH_WORDS && k < 122878
    ensures |Image(flash)| == 122878
    ensures Image(flash)[k] == flash[if k < 4096 then k else 8192 + k]
  {
  }

  lemma FourShifts(x: bv32, y: bv32, n: nat)
    requires Shift(Shift(Shift(Shift(x)))) == y
    ensures Shifts(x, n + 4) == Shifts(y, n)
  {
    hide Shift;
    assert Shifts(Shift(Shift(x)), n + 2) == Shifts(y, n);
  }

  // After a reset a zero word takes the unit to the check value its CRC is listed with.
  lemma KnownValue()
    ensures Fold(RESET, [0]) == 0xC704_DD7B
  {
    hide Fold, Shifts;
    FoldOne(RESET, 0);
    assert RESET ^ 0 == 0xFFFF_FFFF;
    FourShifts(0xFFFF_FFFF, 0xC7B0_424D, 28);
    FourShifts(0xC7B0_424D, 0x4E08_BFB4, 24);
    FourShifts(0x4E08_BFB4, 0xF38F_8D9C, 20);
    FourShifts(0xF38F_8D9C, 0x00B7_647D, 16);
    FourShifts(0x00B7_647D, 0x0B76_47D0, 12);
    FourShifts(0x0B76_47D0, 0xB764_7D00, 8);
    FourShifts(0xB764_7D00, 0x5D0C_1B61, 4);
    FourShifts(0x5D0C_1B61, 0xC704_DD7B, 0);
    NoShifts(0xC704_DD7B);
  }

  lemma NoShifts(x: bv32)
    ensures Shifts(x, 0) == x
  {
  }

  // The bit that falls out shows in the lowest place.
  predicate Top(x: bv32) { x & 0x8000_0000 != 0 }

  predicate Odd(x: bv32) { x & 1 != 0 }

  lemma TopShows(x: bv32)
    requires Top(x)
    ensures Odd(Shift(x))
  {
  }

  lemma NoTopShows(x: bv32)
    requires !Top(x)
    ensures !Odd(Shift(x))
  {
  }

  lemma BothTop(x: bv32, y: bv32)
    requires Top(x) && Top(y) && Shift(x) == Shift(y)
    ensures x == y
  {
  }

  lemma NeitherTop(x: bv32, y: bv32)
    requires !Top(x) && !Top(y) && Shift(x) == Shift(y)
    ensures x == y
  {
  }

  lemma ShiftIsInjective(x: bv32, y: bv32)
    requires Shift(x) == Shift(y)
    ensures x == y
  {
    hide Shift, Top, Odd;
    if Top(x) {
      TopShows(x);
    } else {
      NoTopShows(x);
    }
    if Top(y) {
      TopShows(y);
    } else {
      NoTopShows(y);
    }
    if Top(x) {
      BothTop(x, y);
    } else {
      NeitherTop(x, y);
    }
  }

  lemma {:induction false} ShiftsAreInjective(x: bv32, y: bv32, n: nat)
    requires Shifts(x, n) == Shifts(y, n)
    ensures x == y
    decreases n
  {
    hide Shift;
    if n > 0 {
      ShiftsAreInjective(Shift(x), Shift(y), n - 1);
      ShiftIsInjective(x, y);
    }
  }

  function Xor(a: bv32, b: bv32): bv32 { a ^ b }

  lemma XorIsInjective(a: bv32, b: bv32, c: bv32)
    ensures Xor(a, c) == Xor(b, c) <==> a == b
    ensures Xor(c, a) == Xor(c, b) <==> a == b
  {
  }

  lemma FoldCons(dr: bv32, words: seq<bv32>)
    requires words != []
    ensures Fold(dr, words) == Fold(CrcUnit(Xor(dr, words[0])), words[1..])
  {
    hide CrcUnit;
  }

  lemma CrcUnitIsInjective(x: bv32, y: bv32)
    requires CrcUnit(x) == CrcUnit(y)
    ensures x == y
  {
    hide Shifts;
    ShiftsAreInjective(x, y, 32);
  }

  lemma {:induction false} FoldIsInjective(a: bv32, b: bv32, words: seq<bv32>)
    requires Fold(a, words) == Fold(b, words)
    ensures a == b
    decreases |words|
  {
    if words == [] {
      hide CrcUnit;
    } else {
      hide Fold, CrcUnit, Xor;
      FoldCons(a, words);
      FoldCons(b, words);
      FoldIsInjective(CrcUnit(Xor(a, words[0])), CrcUnit(Xor(b, words[0])), words[1..]);
      CrcUnitIsInjective(Xor(a, words[0]), Xor(b, words[0]));
      XorIsInjective(a, b, words[0]);
    }
  }

  // The words differ at q, and nowhere else.
  predicate DifferAt(a: seq<bv32>, b: seq<bv32>, q: int) {
    0 <= q < |a| && |a| == |b| && a[q] != b[q] && forall i :: 0 <= i < |a| && i != q ==> a[i] == b[i]
  }

  lemma {:induction false} FoldNotices(dr: bv32, a: seq<bv32>, b: seq<bv32>, q: int)
    requires DifferAt(a, b, q)
    ensures Fold(dr, a) != Fold(dr, b)
    decreases |a|
  {
    hide Fold, CrcUnit, Xor;
    FoldCons(dr, a);
    FoldCons(dr, b);
    var x, y := CrcUnit(Xor(dr, a[0])), CrcUnit(Xor(dr, b[0]));
    if q == 0 {
      assert a[1..] == b[1..];
      if Fold(x, a[1..]) == Fold(y, a[1..]) {
        FoldIsInjective(x, y, a[1..]);
        CrcUnitIsInjective(Xor(dr, a[0]), Xor(dr, b[0]));
        XorIsInjective(a[0], b[0], dr);
      }
    } else {
      assert DifferAt(a[1..], b[1..], q - 1);
      FoldNotices(x, a[1..], b[1..], q - 1);
    }
  }

  lemma ImagesDiffer(f: seq<bv32>, g: seq<bv32>, at: int, k: int)
    requires |f| == |g| == FLASH_WORDS && DifferAt(f, g, at)
    requires 0 <= k < 122878 && at == if k < 4096 then k else 8192 + k
    ensures DifferAt(Image(f), Image(g), k)
  {
    hide Image;
    forall i: nat | i < 122878
      ensures Image(f)[i] == Image(g)[i] <==> i != k
    {
      ImageWord(f, i);
      ImageWord(g, i);
    }
    ImageWord(f, k);
    ImageWord(g, k);
  }

  // Corruption that is confined to one word is always found: if an image whose flag is set checks, and
  // one word of the vector table or of the application changes, in whatever bits, the check reports it.
  lemma {:induction false} OneWordIsNoticed(f: seq<bv32>, g: seq<bv32>, at: int, c: Controller)
    requires |f| == |g| == FLASH_WORDS && f[FLAG_ADDRESS] == g[FLAG_ADDRESS] == 0
    requires Verify(f, c).1 == NoFault && DifferAt(f, g, at) && (0 <= at < 4096 || 12288 <= at < 131070)
    ensures Verify(g, c) == (g, FlashCorruption)
  {
    hide Verify, Image, Fold, DifferAt;
    ImagesDiffer(f, g, at, if at < 4096 then at else at - 8192);
    FoldNotices(RESET, Image(f), Image(g), if at < 4096 then at else at - 8192);
    FlaggedVerdict(f, c);
    FlaggedVerdict(g, c);
  }

  // Words outside the image, the emulated EEPROM and everything behind the application, do not count.
  lemma {:induction false} RestIsNotChecked(f: seq<bv32>, g: seq<bv32>, c: Controller)
    requires |f| == |g| == FLASH_WORDS && f[FLAG_ADDRESS] == 0
    requires forall a :: 0 <= a < 4096 || 12288 <= a < 131070 ==> f[a] == g[a]
    ensures Verify(g, c).1 == Verify(f, c).1
  {
    hide Verify, Fold;
    assert Image(f) == Image(g);
    FlaggedVerdict(f, c);
    FlaggedVerdict(g, c);
  }

  // And the scan, wherever it stands when the word changes, reports it by the end of the next cycle.
  lemma {:induction false} ScanNoticesOneWord(f: seq<bv32>, g: seq<bv32>, at: int, s: Scan)
    requires |f| == |g| == FLASH_WORDS && f[FLAG_ADDRESS] == g[FLAG_ADDRESS] == 0
    requires Verify(f, WORKING).1 == NoFault && DifferAt(f, g, at) && (0 <= at < 4096 || 12288 <= at < 131070)
    requires ValidIndex(s.index)
    ensures FlashCorruption in Scans(g, s, 960).1
  {
    hide Verify, Scans, DifferAt;
    OneWordIsNoticed(f, g, at, WORKING);
    ScanRecovers(g, s, WORKING);
    var n := CALLS - s.index / CHUNK + CALLS;
    assert Scans(g, s, n).1[n - 1] == FlashCorruption;
    ScansAdd(g, s, n, 960 - n);
  }
}
