/** Numbers written in base 256, the most significant digit first. */
module Radix {
  lemma Distributes(x: int, y: int, d: int)
    ensures (x - y) * d == x * d - y * d
  {
  }

  lemma AtLeast(x: int, d: int)
    requires x >= 1 && d > 0
    ensures x * d >= d
  {
  }

  lemma DivUnique(v: int, d: int, q: int, r: int)
    requires 0 <= r < d && v == q * d + r
    ensures v / d == q && v % d == r
  {
    var q0, r0 := v / d, v % d;
    assert v == q0 * d + r0;
    Distributes(q0, q, d);
    if q < q0 {
      AtLeast(q0 - q, d);
      assert false;
    } else if q > q0 {
      Distributes(q, q0, d);
      AtLeast(q - q0, d);
      assert false;
    }
  }

  lemma Regroup(q: int, r: int, c: int, d: int)
    requires d == 256 * c
    ensures c * (256 * q + r) == q * d + c * r
  {
  }

  lemma SmallEnough(r: int, c: int)
    requires 0 <= r <= 255 && c > 0
    ensures 0 <= c * r <= 256 * c - c
  {
  }

  lemma DivTwice(v: nat, c: nat, d: nat)
    requires c > 0 && d == 256 * c
    ensures v / c / 256 == v / d
  {
    var q, r := v / c, v % c;
    var q', r' := q / 256, q % 256;
    assert v == c * q + r;
    Regroup(q', r', c, d);
    SmallEnough(r', c);
    DivUnique(v, d, q', c * r' + r);
  }

  type Digit = d: nat | d < 256

  /** The `n` low digits of `v`. */
  function Digits(v: nat, n: nat): (s: seq<Digit>)
    ensures |s| == n
  {
    if n == 0 then [] else Digits(v / 256, n - 1) + [v % 256]
  }

  lemma NextDigit(v: nat, c: nat, d: nat, q: nat, q': nat, n: nat)
    requires c > 0 && d == 256 * c && q == v / c && q' == v / d
    ensures Digits(q, n + 1) == Digits(q', n) + [q % 256]
  {
    DivTwice(v, c, d);
  }

  lemma LowFour(v: nat)
    ensures Digits(v, 8) == Digits(v / 0x1_0000_0000, 4)
      + [v / 0x100_0000 % 256, v / 0x1_0000 % 256, v / 0x100 % 256, v % 256]
  {
    hide Digits;
    NextDigit(v, 0x100_0000, 0x1_0000_0000, v / 0x100_0000, v / 0x1_0000_0000, 4);
    NextDigit(v, 0x1_0000, 0x100_0000, v / 0x1_0000, v / 0x100_0000, 5);
    NextDigit(v, 0x100, 0x1_0000, v / 0x100, v / 0x1_0000, 6);
    NextDigit(v, 1, 0x100, v, v / 0x100, 7);
  }

  lemma HighFour(v: nat)
    ensures Digits(v / 0x1_0000_0000, 4) ==
      [v / 0x100_0000_0000_0000 % 256, v / 0x1_0000_0000_0000 % 256, v / 0x100_0000_0000 % 256, v / 0x1_0000_0000 % 256]
  {
    hide Digits;
    NextDigit(v, 0x100_0000_0000_0000, 0x1_0000_0000_0000_0000,
              v / 0x100_0000_0000_0000, v / 0x1_0000_0000_0000_0000, 0);
    NextDigit(v, 0x1_0000_0000_0000, 0x100_0000_0000_0000, v / 0x1_0000_0000_0000, v / 0x100_0000_0000_0000, 1);
    NextDigit(v, 0x100_0000_0000, 0x1_0000_0000_0000, v / 0x100_0000_0000, v / 0x1_0000_0000_0000, 2);
    NextDigit(v, 0x1_0000_0000, 0x100_0000_0000, v / 0x1_0000_0000, v / 0x100_0000_0000, 3);
  }

  function Pow256(n: nat): (p: nat)
    ensures p > 0
  {
    if n == 0 then 1 else 256 * Pow256(n - 1)
  }

  lemma Split256(v: nat, p: nat)
    requires p > 0
    ensures v % (256 * p) / 256 == v / 256 % p && v % (256 * p) % 256 == v % 256
  {
    var q, r := v / (256 * p), v % (256 * p);
    var r1, r0 := r / 256, r % 256;
    assert v == (256 * p) * q + r;
    assert v == (q * p + r1) * 256 + r0 by {
      assert (256 * p) * q == (q * p) * 256;
    }
    DivUnique(v, 256, q * p + r1, r0);
    DivUnique(v / 256, p, q, r1);
  }

  /** Only `v` modulo 256^n matters to its `n` low digits. */
  lemma {:induction false} LowDigits(v: nat, n: nat)
    ensures Digits(v % Pow256(n), n) == Digits(v, n)
  {
    if n > 0 {
      Split256(v, Pow256(n - 1));
      LowDigits(v / 256, n - 1);
    }
  }

  const TWO_TO_64: nat := 0x1_0000_0000_0000_0000

  lemma EightDigits()
    ensures Pow256(8) == TWO_TO_64
  {
    assert Pow256(4) == 0x1_0000_0000 by {
      assert Pow256(2) == 256 * (256 * Pow256(0));
    }
    assert Pow256(6) == 256 * (256 * Pow256(4));
  }

  lemma EightTimes(n: nat)
    ensures 8 * (n % TWO_TO_64) % TWO_TO_64 == 8 * n % TWO_TO_64
  {
    var q, r := n / TWO_TO_64, n % TWO_TO_64;
    var q', r' := 8 * r / TWO_TO_64, 8 * r % TWO_TO_64;
    DivUnique(8 * n, TWO_TO_64, 8 * q + q', r');
  }

  /** A count of bytes and the same count in a 64-bit word give the same eight digits of eight times it. */
  lemma LengthWraps(n: nat)
    ensures Digits(8 * (n % TWO_TO_64) % TWO_TO_64, 8) == Digits(8 * n, 8)
  {
    EightDigits();
    LowDigits(8 * n, 8);
    EightTimes(n);
  }
}
