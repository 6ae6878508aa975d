/** Bit sequences of the serial wire debug port, low bit first, with even parity
    (blackmagic/swdptap.c:36-55, 75-131, 147-190; Arm ADIv5, chapter B4). */
module SwdTap {
  import opened Bytes

  datatype Direction = Float | Drive

  // What the wire carries: n bits of a word, lowest first.
  function Bits(x: nat, n: nat): (b: seq<bool>)
    ensures |b| == n
    decreases n
  {
    if n == 0 then [] else [x % 2 == 1] + Bits(x / 2, n - 1)
  }

  function XorAll(bits: seq<bool>): bool {
    if bits == [] then false else bits[0] != XorAll(bits[1..])
  }

  function Ones(bits: seq<bool>): nat {
    if bits == [] then 0 else (if bits[0] then 1 else 0) + Ones(bits[1..])
  }

  // The parity is one iff an odd number of the bits is.
  lemma {:induction false} ParityIsOdd(bits: seq<bool>)
    ensures XorAll(bits) <==> Ones(bits) % 2 == 1
  {
    if bits != [] {
      ParityIsOdd(bits[1..]);
    }
  }

  // Bit k on the wire is place k of the word.
  lemma {:induction false} BitIsPlace(x: nat, n: nat, k: nat)
    requires k < n
    ensures Bits(x, n)[k] <==> x / Pow2(k) % 2 == 1
  {
    if k > 0 {
      BitIsPlace(x / 2, n - 1, k - 1);
      HalfOfDouble(x, Pow2(k - 1));
    }
  }

  // And a word that is put together from bits has them in its places, the first 32 of them.
  lemma {:induction false} PlaceIsBit(bits: seq<bool>, k: nat)
    requires k < |bits|
    ensures Word(bits) / Pow2(k) % 2 == 1 <==> bits[k]
  {
    if k > 0 {
      PlaceIsBit(bits[1..], k - 1);
      HalfOfDouble(Word(bits), Pow2(k - 1));
    }
  }

  lemma WordPlaces(bits: seq<bool>, k: nat)
    requires k < |bits|
    ensures Word(Low(bits)) < 0x1_0000_0000
    ensures k < 32 ==> (Word(Low(bits)) / Pow2(k) % 2 == 1 <==> bits[k])
  {
    hide Word, Pow2;
    Pow2Of32();
    Pow2Grows(|Low(bits)|, 32);
    if k < 32 {
      PlaceIsBit(Low(bits), k);
    }
  }

  // What SeqOutParity puts on the wire.
  function Framed(x: nat, n: nat): (b: seq<bool>)
    ensures |b| == n + 1
  {
    Bits(x, n) + [XorAll(Bits(x, n))]
  }

  lemma {:induction false} XorSnoc(bits: seq<bool>, b: bool)
    ensures XorAll(bits + [b]) == (XorAll(bits) != b)
  {
    if bits == [] {
      assert [] + [b] == [b] && [b][1..] == [];
    } else {
      assert (bits + [b])[1..] == bits[1..] + [b];
      XorSnoc(bits[1..], b);
    }
  }

  lemma ExtendPrefix(bits: seq<bool>, n: nat)
    requires n < |bits|
    ensures Word(bits[..n + 1]) == Word(bits[..n]) + if bits[n] then Pow2(n) else 0
    ensures XorAll(bits[..n + 1]) == (XorAll(bits[..n]) != bits[n])
  {
    WordSnoc(bits[..n], bits[n]);
    XorSnoc(bits[..n], bits[n]);
    assert bits[..n + 1] == bits[..n] + [bits[n]];
  }

  // The weight of bit n in a 32-bit variable that is shifted left n times.
  function Weight(n: nat): (w: nat) { if n < 32 then Pow2(n) else 0 }

  lemma Pow2Of32()
    ensures Pow2(32) == WRAP
  {
    assert Pow2(8) == 0x100;
    assert Pow2(16) == 0x1_0000;
    assert Pow2(24) == 0x100_0000;
  }

  lemma ShiftWeight(n: nat)
    ensures Weight(n) * 2 % WRAP == Weight(n + 1)
  {
    Pow2Of32();
    if n < 31 {
      Pow2Grows(n + 1, 32);
      assert Pow2(n + 1) == 2 * Pow2(n);
    } else if n == 31 {
      assert Pow2(32) == 2 * Pow2(31);
    }
  }

  // The low 32 of the bits: those that a 32-bit variable takes up.
  function Low(bits: seq<bool>): seq<bool> { if |bits| <= 32 then bits else bits[..32] }

  // One more bit is received into the word, and dropped once 32 are there.
  lemma AddBit(bits: seq<bool>, n: nat)
    requires n < |bits|
    ensures Word(Low(bits[..n + 1])) == Word(Low(bits[..n])) + if bits[n] then Weight(n) else 0
    ensures Word(Low(bits[..n + 1])) < WRAP
    ensures XorAll(bits[..n + 1]) == (XorAll(bits[..n]) != bits[n])
  {
    ExtendPrefix(bits, n);
    Pow2Of32();
    if n < 32 {
      Pow2Grows(n + 1, 32);
    } else {
      assert Low(bits[..n + 1]) == Low(bits[..n]);
    }
  }

  class SwdPort {
    var olddir: Direction
    var turnarounds: nat
    var sent: seq<bool>       // bits clocked out so far
    var incoming: seq<bool>   // what the target will put on the line, one bit a clock

    constructor (incoming: seq<bool>)
      ensures olddir == Float && turnarounds == 0 && sent == [] && this.incoming == incoming
    {
      olddir, turnarounds, sent, this.incoming := Float, 0, [], incoming;
    }

    // One extra clock when the direction changes, none otherwise.
    method Turnaround(dir: Direction)
      modifies this`olddir, this`turnarounds
      ensures olddir == dir
      ensures turnarounds == old(turnarounds) + if dir == old(olddir) then 0 else 1
    {
      if dir == olddir {
        return;
      }
      olddir := dir;
      turnarounds := turnarounds + 1;
    }

    method ClockOut(data: bool)
      modifies this`sent
      ensures sent == old(sent) + [data]
    {
      sent := sent + [data];
    }

    method ClockIn() returns (bit: bool)
      requires incoming != []
      modifies this`incoming
      ensures bit == old(incoming)[0] && incoming == old(incoming)[1..]
    {
      bit := incoming[0];
      incoming := incoming[1..];
    }

    method SeqOut(MS: word32, ticks: nat)
      modifies this`olddir, this`turnarounds, this`sent
      ensures olddir == Drive && turnarounds == old(turnarounds) + if old(olddir) == Drive then 0 else 1
      ensures sent == old(sent) + Bits(MS, ticks)
    {
      hide Bits;
      var ms := MS;
      var data := ms % 2;
      Turnaround(Drive);
      var left := ticks;
      while left > 0
        modifies this`sent
        invariant data == ms % 2
        invariant sent + Bits(ms, left) == old(sent) + Bits(MS, ticks)
      {
        NextBit(old(sent) + Bits(MS, ticks), sent, ms, left);
        ClockOut(data == 1);
        ms := ms / 2;
        data := ms % 2;
        left := left - 1;
      }
      NoBits(ms);
    }

    method SeqOutParity(MS: word32, ticks: nat)
      modifies this`olddir, this`turnarounds, this`sent
      ensures olddir == Drive && turnarounds == old(turnarounds) + if old(olddir) == Drive then 0 else 1
      ensures sent == old(sent) + Framed(MS, ticks)
      ensures sent[|sent| - 1] <==> Ones(Bits(MS, ticks)) % 2 == 1
    {
      var parity := false;   // bit 0 of the accumulator, the only one used
      var ms := MS;
      var data := ms % 2;
      Turnaround(Drive);
      var left := ticks;
      while left > 0
        modifies this`sent
        invariant data == ms % 2
        invariant sent + Bits(ms, left) == old(sent) + Bits(MS, ticks)
        invariant XorAll(Bits(MS, ticks)) == (parity != XorAll(Bits(ms, left)))
      {
        NextBit(old(sent) + Bits(MS, ticks), sent, ms, left);
        ClockOut(data == 1);
        parity := parity != (ms % 2 == 1);
        ms := ms / 2;
        data := ms % 2;
        left := left - 1;
      }
      ClockOut(parity);
      ParityIsOdd(Bits(MS, ticks));
      assert old(sent) + Bits(MS, ticks) + [parity] == old(sent) + Framed(MS, ticks);
    }

    method SeqIn(ticks: nat) returns (ret: word32)
      requires ticks <= |incoming|
      modifies this`olddir, this`turnarounds, this`incoming
      ensures olddir == Float && turnarounds == old(turnarounds) + if old(olddir) == Float then 0 else 1
      ensures ret == Word(Low(old(incoming)[..ticks])) && incoming == old(incoming)[ticks..]
    {
      var index := 1;
      ret := 0;
      Turnaround(Float);
      var done := 0;
      while done < ticks
        modifies this`incoming
        invariant 0 <= done <= ticks && incoming == old(incoming)[done..]
        invariant index == Weight(done)
        invariant ret == Word(Low(old(incoming)[..done]))
      {
        var res := ClockIn();
        AddBit(old(incoming), done);
        ShiftWeight(done);
        if res {
          ret := ret + index;   // bit `done` of ret is clear, so this is ret |= index
        }
        index := index * 2 % WRAP;
        done := done + 1;
      }
    }

    method SeqInParity(ticks: nat) returns (ret: word32, parity: bool)
      requires ticks < |incoming|
      modifies this`olddir, this`turnarounds, this`incoming
      ensures olddir == Float && turnarounds == old(turnarounds) + if old(olddir) == Float then 0 else 1
      ensures ret == Word(Low(old(incoming)[..ticks])) && parity == XorAll(old(incoming)[..ticks + 1])
      ensures incoming == old(incoming)[ticks + 1..]
      ensures parity <==> Ones(old(incoming)[..ticks + 1]) % 2 == 1
    {
      var index := 1;
      parity, ret := false, 0;
      Turnaround(Float);
      var done := 0;
      while done < ticks
        modifies this`incoming
        invariant 0 <= done <= ticks && incoming == old(incoming)[done..]
        invariant index == Weight(done)
        invariant ret == Word(Low(old(incoming)[..done]))
        invariant parity == XorAll(old(incoming)[..done])
      {
        var bit := ClockIn();
        AddBit(old(incoming), done);
        ShiftWeight(done);
        if bit {
          ret := ret + index;   // bit `done` of ret is clear, so this is ret |= index
          parity := !parity;
        }
        index := index * 2 % WRAP;
        done := done + 1;
      }
      var bit := ClockIn();
      ExtendPrefix(old(incoming), ticks);
      ParityIsOdd(old(incoming)[..ticks + 1]);
      if bit {
        parity := !parity;
      }
    }
  }

  lemma NoBits(x: nat)
    ensures Bits(x, 0) == []
  {
  }

  lemma NextBit(all: seq<bool>, sent: seq<bool>, ms: nat, left: nat)
    requires 0 < left && all == sent + Bits(ms, left)
    ensures all == sent + [ms % 2 == 1] + Bits(ms / 2, left - 1)
    ensures XorAll(Bits(ms, left)) == ((ms % 2 == 1) != XorAll(Bits(ms / 2, left - 1)))
  {
    assert Bits(ms, left)[1..] == Bits(ms / 2, left - 1);
  }

  // ---- Round trip ----

  lemma ProductGrows(a: int, b: int, m: nat)
    requires a <= b
    ensures a * m <= b * m
  {
    assert (b - a) * m >= 0;
  }

  lemma {:induction false} ModIsUnique(x: nat, m: nat, q: nat, r: nat)
    requires x == q * m + r && r < m
    ensures x % m == r
  {
    var k := x / m;
    assert x == k * m + x % m;
    ProductGrows(k + 1, if k < q then q else k + 1, m);
    ProductGrows(q + 1, if q < k then k else q + 1, m);
    assert (k + 1) * m == k * m + m && (q + 1) * m == q * m + m;
  }

  lemma {:induction false} ModDouble(x: nat, p: nat)
    requires 0 < p
    ensures x % (2 * p) == x % 2 + 2 * (x / 2 % p)
  {
    var h := x / 2;
    var q, r := h / p, h % p;
    assert h == q * p + r;
    assert x == q * (2 * p) + (x % 2 + 2 * r);
    ModIsUnique(x, 2 * p, q, x % 2 + 2 * r);
  }

  // Reading back n bits of x gives x modulo 2 to the n.
  lemma {:induction false} WordOfBits(x: nat, n: nat)
    ensures Word(Bits(x, n)) == x % Pow2(n)
    decreases n
  {
    if n > 0 {
      WordOfBits(x / 2, n - 1);
      ModDouble(x, Pow2(n - 1));
      assert Bits(x, n)[1..] == Bits(x / 2, n - 1);
    }
  }

  // The number of bits in which two sequences differ.
  function Distance(a: seq<bool>, b: seq<bool>): nat
    requires |a| == |b|
  {
    if a == [] then 0 else (if a[0] == b[0] then 0 else 1) + Distance(a[1..], b[1..])
  }

  lemma {:induction false} ParityCountsErrors(a: seq<bool>, b: seq<bool>)
    requires |a| == |b|
    ensures (XorAll(a) != XorAll(b)) <==> Distance(a, b) % 2 == 1
  {
    if a != [] {
      ParityCountsErrors(a[1..], b[1..]);
    }
  }

  lemma {:induction false} BitsPrefix(x: nat, n: nat, m: nat)
    requires m <= n
    ensures Bits(x, n)[..m] == Bits(x, m)
    decreases m
  {
    if m > 0 {
      BitsPrefix(x / 2, n - 1, m - 1);
      assert Bits(x, n)[..m] == [x % 2 == 1] + Bits(x / 2, n - 1)[..m - 1];
    }
  }

  lemma LowOfBits(x: word32, n: nat)
    ensures Word(Low(Bits(x, n))) == if n < 32 then x % Pow2(n) else x
  {
    hide Bits, Word, Pow2;
    Pow2Of32();
    WordOfBits(x, if n <= 32 then n else 32);
    if n > 32 {
      BitsPrefix(x, n, 32);
    }
  }

  // What SeqInParity (see its contract) makes of a wire that carries the n bits and the parity bit sent
  // by SeqOutParity: undisturbed, the word modulo 2 to the n with parity result 0; and the result is 1
  // exactly for an odd number of flipped bits.
  lemma {:induction false} ParityRoundTrip(x: word32, n: nat, wire: seq<bool>)
    requires |wire| == n + 1
    ensures wire == Framed(x, n) ==> Word(Low(wire[..n])) == (if n < 32 then x % Pow2(n) else x) && !XorAll(wire)
    ensures XorAll(wire) <==> Distance(wire, Framed(x, n)) % 2 == 1
  {
    var sent := Framed(x, n);
    assert sent[..n] == Bits(x, n);
    LowOfBits(x, n);
    XorSnoc(Bits(x, n), XorAll(Bits(x, n)));
    ParityCountsErrors(wire, sent);
  }

  // A port that reads what another port has written, with the same number of ticks.
  method Transfer(x: word32, ticks: nat) returns (word: word32, parity: bool)
    ensures word == (if ticks < 32 then x % Pow2(ticks) else x) && !parity
  {
    var out := new SwdPort([]);
    out.SeqOutParity(x, ticks);
    var port := new SwdPort(out.sent);
    word, parity := port.SeqInParity(ticks);
    assert out.sent == Framed(x, ticks) && out.sent[..ticks + 1] == out.sent;
    ParityRoundTrip(x, ticks, out.sent);
  }
}
