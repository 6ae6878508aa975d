/** Fixed-width unsigned values shared by the models, as subsets of `int`. */
module Bytes {
  type byte = b: int | 0 <= b < 0x100
  type word16 = w: int | 0 <= w < 0x1_0000

  const WRAP := 0x1_0000_0000

  type word32 = w: int | 0 <= w < WRAP

  datatype Option<+T> = None | Some(value: T)

  // A 16-bit value as the two bytes of the wire format, and back.
  function Hi(w: word16): byte { w / 0x100 }

  function Lo(w: word16): byte { w % 0x100 }

  function Join(hi: byte, lo: byte): (w: word16)
  {
    var h: int, l: int := hi, lo;
    h * 0x100 + l
  }

  // Four bytes as a 32-bit value, high byte first.
  function Join4(a: byte, b: byte, c: byte, d: byte): (w: nat) {
    var a: int, b: int, c: int, d: int := a, b, c, d;
    a * 0x100_0000 + b * 0x1_0000 + c * 0x100 + d
  }

  function Pow2(n: nat): (p: nat)
    ensures 0 < p
  {
    if n == 0 then 1 else 2 * Pow2(n - 1)
  }

  lemma {:induction false} Pow2Grows(n: nat, m: nat)
    requires n <= m
    ensures Pow2(n) <= Pow2(m) && (n < m ==> Pow2(n) < Pow2(m))
  {
    if n < m {
      Pow2Grows(n, m - 1);
    }
  }

  // The number that bits stand for, lowest first.
  function Word(bits: seq<bool>): (w: nat)
    ensures w < Pow2(|bits|)
  {
    if bits == [] then 0 else (if bits[0] then 1 else 0) + 2 * Word(bits[1..])
  }

  lemma {:induction false} WordSnoc(bits: seq<bool>, b: bool)
    ensures Word(bits + [b]) == Word(bits) + if b then Pow2(|bits|) else 0
  {
    if bits == [] {
      assert [] + [b] == [b] && [b][1..] == [];
    } else {
      assert (bits + [b])[1..] == bits[1..] + [b];
      WordSnoc(bits[1..], b);
    }
  }

  // Halving and then dividing is dividing by the double.
  lemma HalfOfDouble(w: nat, p: nat)
    requires 0 < p
    ensures w / 2 / p == w / (2 * p)
  {
    var q, h := w / 2 / p, w / 2;
    assert h == q * p + h % p;
    assert 0 <= w - q * (2 * p) < 2 * p;
    UniqueQuotient(w, 2 * p, q);
  }

  lemma UniqueQuotient(w: nat, d: nat, q: nat)
    requires 0 < d && 0 <= w - q * d < d
    ensures w / d == q
  {
    var e := w / d;
    if e < q {
      LessTimes(e, q, d);
    } else if q < e {
      LessTimes(q, e, d);
    }
  }

  lemma {:induction false} LessTimes(a: nat, b: nat, d: nat)
    requires a < b
    ensures a * d + d <= b * d
    decreases b
  {
    Distribute(b - 1, d);
    if a < b - 1 {
      LessTimes(a, b - 1, d);
    }
  }

  lemma Distribute(a: int, d: int)
    ensures (a + 1) * d == a * d + d
  {
  }

  function Min(a: int, b: int): int { if a <= b then a else b }
}
