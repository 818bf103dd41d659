/** The secure hash SHA-1 as FIPS 180-4 defines it, for messages of whole bytes. */
module Sha1Spec {
  import Radix

  type Byte = bv8
  type Word = bv32

  /** The five working variables, or the five words of a hash value. */
  datatype State = State(a: Word, b: Word, c: Word, d: Word, e: Word)

  /** Section 5.3.1. */
  const INITIAL := State(0x67452301, 0xefcdab89, 0x98badcfe, 0x10325476, 0xc3d2e1f0)

  /** Section 3.2, operation 5. */
  function Rotl(n: nat, x: Word): Word
    requires n < 32
  {
    (x << n) | (x >> (32 - n))
  }

  lemma RotlBy1(x: Word)
    ensures Rotl(1, x) == x.RotateLeft(1)
  {
    assert Rotl(1, x) == (x << 1) | (x >> 31);
  }

  lemma RotlBy5(x: Word)
    ensures Rotl(5, x) == x.RotateLeft(5)
  {
    assert Rotl(5, x) == (x << 5) | (x >> 27);
  }

  lemma RotlBy30(x: Word)
    ensures Rotl(30, x) == x.RotateLeft(30)
  {
    assert Rotl(30, x) == (x << 30) | (x >> 2);
  }

  /** For the three amounts that the standard uses, the two shifts are the rotation of machine words. */
  lemma RotlRotates(x: Word)
    ensures Rotl(1, x) == x.RotateLeft(1) && Rotl(5, x) == x.RotateLeft(5) && Rotl(30, x) == x.RotateLeft(30)
  {
    hide Rotl;
    RotlBy1(x);
    RotlBy5(x);
    RotlBy30(x);
  }

  // Section 4.1.1.

  function Ch(x: Word, y: Word, z: Word): Word {
    (x & y) ^ (!x & z)
  }

  function Parity(x: Word, y: Word, z: Word): Word {
    x ^ y ^ z
  }

  function Maj(x: Word, y: Word, z: Word): Word {
    (x & y) ^ (x & z) ^ (y & z)
  }

  function F(t: nat, x: Word, y: Word, z: Word): Word {
    if t < 20 then Ch(x, y, z) else if t < 40 then Parity(x, y, z) else if t < 60 then Maj(x, y, z) else Parity(x, y, z)
  }

  /** Section 4.2.1. */
  function K(t: nat): Word {
    if t < 20 then 0x5a827999 else if t < 40 then 0x6ed9eba1 else if t < 60 then 0x8f1bbcdc else 0xca62c1d6
  }

  /** Section 3.1: four bytes, the most significant first. */
  function WordOf(b0: Byte, b1: Byte, b2: Byte, b3: Byte): Word {
    (b0 as Word) * 0x1000000 + (b1 as Word) * 0x10000 + (b2 as Word) * 0x100 + b3 as Word
  }

  /** A message block. */
  type Block = s: seq<Byte> | |s| == 64 witness seq(64, _ => 0)

  /** Section 6.1.2, step 1: the message schedule. */
  function W(m: Block, t: nat): Word {
    if t < 16 then WordOf(m[4 * t], m[4 * t + 1], m[4 * t + 2], m[4 * t + 3])
    else Rotl(1, W(m, t - 3) ^ W(m, t - 8) ^ W(m, t - 14) ^ W(m, t - 16))
  }

  /** The sum `T` of step 3. */
  function T(rotated: Word, f: Word, e: Word, k: Word, w: Word): Word {
    rotated + f + e + k + w
  }

  /** Step 3, once. */
  function Round(t: nat, v: State, w: Word): State {
    State(T(Rotl(5, v.a), F(t, v.b, v.c, v.d), v.e, K(t), w), v.a, Rotl(30, v.b), v.c, v.d)
  }

  /** Step 3, for the first `t` rounds. */
  function Rounds(m: Block, v: State, t: nat): State {
    if t == 0 then v else Round(t - 1, Rounds(m, v, t - 1), W(m, t - 1))
  }

  /** Step 4. */
  function Sum(v: State, h: State): State {
    State(v.a + h.a, v.b + h.b, v.c + h.c, v.d + h.d, v.e + h.e)
  }

  /** One iteration of the algorithm. */
  function Compress(h: State, m: Block): State {
    Sum(Rounds(m, h, 80), h)
  }

  /** Section 6.1.2 for a sequence of message blocks. */
  function HashBlocks(h: State, s: seq<Byte>): State
    requires |s| % 64 == 0
    decreases |s|
  {
    if |s| == 0 then h else HashBlocks(Compress(h, s[..64]), s[64..])
  }

  lemma {:induction false} HashAppend(h: State, s: seq<Byte>, t: seq<Byte>)
    requires |s| % 64 == 0 && |t| % 64 == 0
    ensures |s + t| % 64 == 0
    ensures HashBlocks(h, s + t) == HashBlocks(HashBlocks(h, s), t)
    decreases |s|
  {
    if |s| == 0 {
      assert s + t == t;
    } else {
      assert (s + t)[..64] == s[..64];
      assert (s + t)[64..] == s[64..] + t;
      HashAppend(Compress(h, s[..64]), s[64..], t);
    }
  }

  /** The low byte of a number. */
  function LowByte(v: nat): Byte {
    (v % 256) as Byte
  }

  /** The `n` low bytes of a number, the most significant first. */
  function BigEndian(v: nat, n: nat): (s: seq<Byte>)
    ensures |s| == n
  {
    seq(n, i requires 0 <= i < n => LowByte(Radix.Digits(v, n)[i]))
  }

  /** How many zero bytes section 5.1.1 puts between the byte 0x80 and the length: the fewest that
      make the whole a number of blocks. */
  function ZeroBytes(n: nat): nat {
    (119 - n % 64) % 64
  }

  lemma ZeroBytesAreFewest(n: nat, k: nat)
    ensures (n + 1 + ZeroBytes(n) + 8) % 64 == 0
    ensures (n + 1 + k + 8) % 64 == 0 ==> ZeroBytes(n) <= k
  {
    var r := n % 64;
    assert n == 64 * (n / 64) + r;
    assert (119 - r) % 64 == if r <= 55 then 55 - r else 119 - r;
  }

  function Zeros(n: nat): (s: seq<Byte>)
    ensures |s| == n
  {
    seq(n, _ => 0)
  }

  /** Section 5.1.1. */
  function Padded(s: seq<Byte>): (p: seq<Byte>)
    ensures |p| % 64 == 0
  {
    ZeroBytesAreFewest(|s|, 0);
    s + [0x80] + Zeros(ZeroBytes(|s|)) + BigEndian(8 * |s|, 8)
  }

  function WordBytes(w: Word): (s: seq<Byte>)
    ensures |s| == 4
  {
    [((w >> 24) & 0xff) as Byte, ((w >> 16) & 0xff) as Byte, ((w >> 8) & 0xff) as Byte, (w & 0xff) as Byte]
  }

  /** The bytes of a word, and the word of those bytes. */
  lemma WordRoundTrip(w: Word)
    ensures var s := WordBytes(w); WordOf(s[0], s[1], s[2], s[3]) == w
  {
  }

  function StateBytes(v: State): (s: seq<Byte>)
    ensures |s| == 20
  {
    WordBytes(v.a) + WordBytes(v.b) + WordBytes(v.c) + WordBytes(v.d) + WordBytes(v.e)
  }

  /** The message digest; the standard defines it for messages of fewer than 2^64 bits. */
  function Digest(s: seq<Byte>): seq<Byte> {
    StateBytes(HashBlocks(INITIAL, Padded(s)))
  }
}
