/** The streaming SHA-1 of `ngx_sha1.c`. */
module Sha1 {
  import opened Radix
  import opened Sha1Spec

  // ---------- the forms the code uses ----------

  function F1(b: Word, c: Word, d: Word): Word {
    (b & c) | (!b & d)
  }

  function F2(b: Word, c: Word, d: Word): Word {
    b ^ c ^ d
  }

  function F3(b: Word, c: Word, d: Word): Word {
    (b & c) | (b & d) | (c & d)
  }

  lemma OrIsXorOfSelection(b: Word, c: Word, d: Word)
    ensures (b & c) | (!b & d) == (b & c) ^ (!b & d)
  {
  }

  lemma OrIsXorOfMajority(b: Word, c: Word, d: Word)
    ensures (b & c) | (b & d) | (c & d) == (b & c) ^ (b & d) ^ (c & d)
  {
  }

  lemma F1IsCh(b: Word, c: Word, d: Word)
    ensures F1(b, c, d) == Ch(b, c, d)
  {
    OrIsXorOfSelection(b, c, d);
  }

  lemma F3IsMaj(b: Word, c: Word, d: Word)
    ensures F3(b, c, d) == Maj(b, c, d)
  {
    OrIsXorOfMajority(b, c, d);
  }

  /** `GET`: four bytes in big-endian order. */
  function Get(b0: Byte, b1: Byte, b2: Byte, b3: Byte): (w: Word)
    ensures w == WordOf(b0, b1, b2, b3)
  {
    (b3 as Word) | ((b2 as Word) << 8) | ((b1 as Word) << 16) | ((b0 as Word) << 24)
  }

  /** Which of the three functions a use of `STEP` names. */
  datatype Mix = M1 | M2 | M3

  function Mixed(f: Mix, b: Word, c: Word, d: Word): Word {
    match f
    case M1 => F1(b, c, d)
    case M2 => F2(b, c, d)
    case M3 => F3(b, c, d)
  }

  /** `STEP`, with the sum in the order of the code. */
  function Step(f: Mix, v: State, w: Word, k: Word): State {
    State(Temp(Rotl(5, v.a), Mixed(f, v.b, v.c, v.d), v.e, w, k), v.a, Rotl(30, v.b), v.c, v.d)
  }

  function Temp(rotated: Word, f: Word, e: Word, w: Word, k: Word): (temp: Word)
    ensures temp == T(rotated, f, e, k, w)
  {
    rotated + f + e + w + k
  }

  /** `f` and `k` are the function and the constant of round `t`. */
  predicate Agrees(f: Mix, k: Word, t: nat) {
    k == K(t) && f == if t < 20 then M1 else if t < 40 then M2 else if t < 60 then M3 else M2
  }

  lemma MixedIsF(f: Mix, t: nat, b: Word, c: Word, d: Word)
    requires Agrees(f, K(t), t)
    ensures Mixed(f, b, c, d) == F(t, b, c, d)
  {
    if t < 20 {
      F1IsCh(b, c, d);
    } else if 40 <= t < 60 {
      F3IsMaj(b, c, d);
    }
  }

  lemma StepIsRound(f: Mix, k: Word, v: State, w: Word, t: nat)
    requires Agrees(f, k, t)
    ensures Step(f, v, w, k) == Round(t, v, w)
  {
    MixedIsF(f, t, v.b, v.c, v.d);
  }

  // ---------- compression ----------

  lemma FirstWord(p: Block, t: nat)
    requires t < 16
    ensures W(p, t) == Get(p[t * 4], p[t * 4 + 1], p[t * 4 + 2], p[t * 4 + 3])
  {
  }

  lemma LaterWord(p: Block, t: nat)
    requires 16 <= t
    ensures W(p, t) == Rotl(1, W(p, t - 3) ^ W(p, t - 8) ^ W(p, t - 14) ^ W(p, t - 16))
  {
  }

  /** The loops that fill `words`. */
  method FillWords(p: Block) returns (words: array<Word>)
    ensures fresh(words) && words.Length == 80
    ensures forall t | 0 <= t < 80 :: words[t] == W(p, t)
  {
    hide W;
    words := new Word[80];
    for i := 0 to 16
      invariant forall t | 0 <= t < i :: words[t] == W(p, t)
    {
      FirstWord(p, i);
      words[i] := Get(p[i * 4], p[i * 4 + 1], p[i * 4 + 2], p[i * 4 + 3]);
    }
    for i := 16 to 80
      invariant forall t | 0 <= t < i :: words[t] == W(p, t)
    {
      LaterWord(p, i);
      words[i] := Rotl(1, words[i - 3] ^ words[i - 8] ^ words[i - 14] ^ words[i - 16]);
    }
  }

  /** Twenty consecutive uses of `STEP` with one function and one constant. */
  method TwentySteps(f: Mix, k: Word, v0: State, words: array<Word>, from: nat, ghost p: Block,
                     ghost h: State)
    returns (v: State)
    requires words.Length == 80 && from + 20 <= 80 && forall t | 0 <= t < 80 :: words[t] == W(p, t)
    requires (forall t | from <= t < from + 20 :: Agrees(f, k, t)) && v0 == Rounds(p, h, from)
    ensures v == Rounds(p, h, from + 20)
  {
    v := v0;
    for i := from to from + 20
      invariant v == Rounds(p, h, i)
    {
      StepIsRound(f, k, v, words[i], i);
      v := Step(f, v, words[i], k);
    }
  }

  lemma NoRounds(p: Block, h: State)
    ensures Rounds(p, h, 0) == h
  {
  }

  /** Each group of twenty uses the function and the constant of its rounds. */
  lemma GroupsAgree(t: nat)
    requires t < 80
    ensures t < 20 ==> Agrees(M1, 0x5a827999, t)
    ensures 20 <= t < 40 ==> Agrees(M2, 0x6ed9eba1, t)
    ensures 40 <= t < 60 ==> Agrees(M3, 0x8f1bbcdc, t)
    ensures 60 <= t ==> Agrees(M2, 0xca62c1d6, t)
  {
  }

  /** The transformations of one block. */
  method Transform(h: State, p: Block) returns (v: State)
    ensures v == Compress(h, p)
  {
    hide Rounds, Agrees, W;
    NoRounds(p, h);
    forall t: nat | t < 80
      ensures t < 20 ==> Agrees(M1, 0x5a827999, t)
      ensures 20 <= t < 40 ==> Agrees(M2, 0x6ed9eba1, t)
      ensures 40 <= t < 60 ==> Agrees(M3, 0x8f1bbcdc, t)
      ensures 60 <= t ==> Agrees(M2, 0xca62c1d6, t)
    {
      GroupsAgree(t);
    }
    var words := FillWords(p);
    v := TwentySteps(M1, 0x5a827999, h, words, 0, p, h);
    v := TwentySteps(M2, 0x6ed9eba1, v, words, 20, p, h);
    v := TwentySteps(M3, 0x8f1bbcdc, v, words, 40, p, h);
    v := TwentySteps(M2, 0xca62c1d6, v, words, 60, p, h);
    v := Sum(v, h);
  }

  // ---------- the stream ----------

  /** The bytes that fill whole blocks, and those left over. */
  function Whole(s: seq<Byte>): (w: seq<Byte>)
    ensures |w| % 64 == 0
  {
    s[..|s| - |s| % 64]
  }

  function Rest(s: seq<Byte>): (r: seq<Byte>)
    ensures |r| == |s| % 64 && s == Whole(s) + r
  {
    s[|s| - |s| % 64..]
  }

  lemma WholeOfBlocks(s: seq<Byte>, u: seq<Byte>)
    requires |s| % 64 == 0
    ensures Whole(s + u) == s + Whole(u) && Rest(s + u) == Rest(u)
  {
    assert (|s| + |u|) % 64 == |u| % 64;
  }

  lemma WholeOfFewBytes(u: seq<Byte>)
    requires |u| < 64
    ensures Whole(u) == [] && Rest(u) == u
  {
  }

  /** More bytes, but not enough for a block. */
  lemma StillShort(s: seq<Byte>, data: seq<Byte>)
    requires |s| % 64 + |data| < 64
    ensures Whole(s + data) == Whole(s) && Rest(s + data) == Rest(s) + data
  {
    WholeOfBlocks(Whole(s), Rest(s) + data);
    WholeOfFewBytes(Rest(s) + data);
    assert s + data == Whole(s) + (Rest(s) + data);
  }

  /** The bytes left over become a block; then come more blocks, then fewer than 64 bytes. */
  lemma BlockFilled(s: seq<Byte>, first: seq<Byte>, data: seq<Byte>)
    requires |s| % 64 + |first| == 64
    ensures Whole(s + (first + data)) == Whole(s) + (Rest(s) + first) + Whole(data)
    ensures Rest(s + (first + data)) == Rest(data)
  {
    var block := Rest(s) + first;
    assert s + (first + data) == Whole(s) + block + data;
    WholeOfBlocks(Whole(s) + block, data);
  }

  lemma WrappedCount(n: nat, k: nat)
    ensures (n % TWO_TO_64 + k) % TWO_TO_64 == (n + k) % TWO_TO_64
    ensures n % TWO_TO_64 % 64 == n % 64
  {
    var q, r := n / TWO_TO_64, n % TWO_TO_64;
    DivUnique(n + k, TWO_TO_64, q + (r + k) / TWO_TO_64, (r + k) % TWO_TO_64);
    DivUnique(n, 64, q * 0x400_0000_0000_0000 + r / 64, r % 64);
  }

  /** `ngx_sha1_t` */
  class Context {
    var bytes: nat
    var a: Word
    var b: Word
    var c: Word
    var d: Word
    var e: Word
    const buffer: array<Byte>

    constructor ()
      ensures fresh(buffer) && buffer.Length == 64
    {
      bytes, a, b, c, d, e := 0, 0, 0, 0, 0, 0;
      buffer := new Byte[64];
    }

    ghost function H(): State
      reads this
    {
      State(a, b, c, d, e)
    }

    /** The bytes of `s` have been given to the context since it was initialised. */
    ghost predicate Absorbed(s: seq<Byte>)
      reads this, buffer
    {
      && buffer.Length == 64
      && bytes == |s| % TWO_TO_64
      && H() == HashBlocks(INITIAL, Whole(s))
      && buffer[..|s| % 64] == Rest(s)
    }

    /** `ngx_sha1_init` */
    method Init()
      requires buffer.Length == 64
      modifies this
      ensures Absorbed([])
    {
      a := 0x67452301;
      b := 0xefcdab89;
      c := 0x98badcfe;
      d := 0x10325476;
      e := 0xc3d2e1f0;

      bytes := 0;
    }

    /** `ngx_sha1_body` */
    method Body(data: seq<Byte>)
      requires |data| > 0 && |data| % 64 == 0
      modifies this`a, this`b, this`c, this`d, this`e
      ensures H() == HashBlocks(old(H()), data)
    {
      var v, p := State(a, b, c, d, e), data;
      while |p| > 0
        invariant |p| % 64 == 0 && HashBlocks(v, p) == HashBlocks(old(H()), data)
        decreases |p|
      {
        v := Transform(v, p[..64]);
        p := p[64..];
      }
      a, b, c, d, e := v.a, v.b, v.c, v.d, v.e;
    }

    /** `ngx_memcpy(&ctx->buffer[used], data, size)` */
    method Fill(used: nat, data: seq<Byte>)
      requires used + |data| <= buffer.Length
      modifies buffer
      ensures buffer[..] == old(buffer[..used]) + data + old(buffer[used + |data|..])
    {
      forall i | 0 <= i < |data| {
        buffer[used + i] := data[i];
      }
    }

    /** `ngx_sha1_update` from line 54 on: the buffer is empty. */
    method Absorb(data: seq<Byte>)
      requires buffer.Length == 64
      modifies this`a, this`b, this`c, this`d, this`e, buffer
      ensures H() == HashBlocks(old(H()), Whole(data))
      ensures buffer[..|data| % 64] == Rest(data)
    {
      var rest := data;
      if |data| >= 64 {
        Body(data[..|data| - |data| % 64]);
        rest := data[|data| - |data| % 64..];
      }
      Fill(0, rest);
    }

    /** Lines 48 to 51: the buffer becomes a block. */
    method Complete(data: seq<Byte>, used: nat, ghost rest: seq<Byte>)
      requires 0 < used <= 64 <= used + |data|
      requires buffer.Length == 64 && |rest| == used && buffer[..used] == rest
      modifies this`a, this`b, this`c, this`d, this`e, buffer
      ensures |rest + data[..64 - used]| % 64 == 0
      ensures H() == HashBlocks(HashBlocks(old(H()), rest + data[..64 - used]), Whole(data[64 - used..]))
      ensures buffer[..|data[64 - used..]| % 64] == Rest(data[64 - used..])
    {
      var free := 64 - used;
      Fill(used, data[..free]);
      ghost var block := rest + data[..free];
      assert buffer[..] == block;
      Body(buffer[..]);
      assert H() == HashBlocks(old(H()), block);
      Absorb(data[free..]);
    }

    /** `ngx_sha1_update` */
    method Update(data: seq<Byte>, ghost s: seq<Byte>)
      requires Absorbed(s)
      modifies this, buffer
      ensures Absorbed(s + data)
    {
      hide Whole, Rest, HashBlocks;
      WrappedCount(|s|, |data|);
      var used := bytes % 64;
      bytes := (bytes + |data|) % TWO_TO_64;

      ghost var h := H();
      if used > 0 {
        var free := 64 - used;
        if |data| < free {
          Fill(used, data);
          StillShort(s, data);
          return;
        }
        Complete(data, used, Rest(s));
        Joined(h, s, data, free);
      } else {
        Absorb(data);
        JoinedWhole(h, s, data);
      }
    }

    /** The byte 0x80 and the zeros of `ngx_sha1_final`. */
    method PadWithZeros(ghost rest: seq<Byte>)
      requires buffer.Length == 64 && |rest| == bytes % 64 && buffer[..bytes % 64] == rest
      modifies this`a, this`b, this`c, this`d, this`e, buffer
      ensures |rest| < 56 ==> H() == old(H()) && buffer[..56] == rest + [0x80] + Zeros(55 - |rest|)
      ensures |rest| >= 56 ==>
        H() == HashBlocks(old(H()), rest + [0x80] + Zeros(63 - |rest|)) && buffer[..56] == Zeros(56)
    {
      var used := bytes % 64;
      Fill(used, [0x80]);
      used := used + 1;
      assert buffer[..used] == rest + [0x80];
      var free := 64 - used;
      if free < 8 {
        Fill(used, Zeros(free));
        assert buffer[..] == rest + [0x80] + Zeros(63 - |rest|);
        Body(buffer[..]);
        used, free := 0, 64;
      }
      Fill(used, Zeros(free - 8));
    }

    /** The length in bits, at the end of the block. */
    method PutLength()
      requires buffer.Length == 64
      modifies this`bytes, buffer
      ensures buffer[..] == old(buffer[..56]) + BigEndian(8 * old(bytes) % TWO_TO_64, 8)
    {
      hide LowByte, BigEndian;
      bytes := bytes * 8 % TWO_TO_64;
      EightBytes(bytes);
      PutShifted(bytes);
      assert buffer[..] == buffer[..56] + [buffer[56], buffer[57], buffer[58], buffer[59],
                                           buffer[60], buffer[61], buffer[62], buffer[63]];
    }

    method PutShifted(v: nat)
      requires buffer.Length == 64
      modifies buffer
      ensures buffer[..56] == old(buffer[..56])
      ensures buffer[56] == LowByte(v / 0x100_0000_0000_0000) && buffer[57] == LowByte(v / 0x1_0000_0000_0000)
      ensures buffer[58] == LowByte(v / 0x100_0000_0000) && buffer[59] == LowByte(v / 0x1_0000_0000)
      ensures buffer[60] == LowByte(v / 0x100_0000) && buffer[61] == LowByte(v / 0x1_0000)
      ensures buffer[62] == LowByte(v / 0x100) && buffer[63] == LowByte(v)
    {
      hide LowByte;
      buffer[56] := LowByte(v / 0x100_0000_0000_0000);
      buffer[57] := LowByte(v / 0x1_0000_0000_0000);
      buffer[58] := LowByte(v / 0x100_0000_0000);
      buffer[59] := LowByte(v / 0x1_0000_0000);
      buffer[60] := LowByte(v / 0x100_0000);
      buffer[61] := LowByte(v / 0x1_0000);
      buffer[62] := LowByte(v / 0x100);
      buffer[63] := LowByte(v);
    }

    method PutResult(result: array<Byte>)
      requires result.Length == 20
      modifies result
      ensures result[..] == StateBytes(H())
    {
      hide WordBytes;
      PutWord(result, 0, a);
      PutWord(result, 4, b);
      PutWord(result, 8, c);
      PutWord(result, 12, d);
      PutWord(result, 16, e);
    }

    /** `ngx_sha1_final` up to its last `ngx_sha1_body`. */
    method Finish(ghost s: seq<Byte>)
      requires Absorbed(s)
      modifies this, buffer
      ensures H() == HashBlocks(INITIAL, Padded(s))
    {
      hide Padded, Digits, LowByte, Whole, Rest, HashBlocks;
      SameLength(bytes, |s|);
      PaddedSplits(s, H());
      PadWithZeros(Rest(s));
      PutLength();
      Body(buffer[..]);
    }

    /** `ngx_sha1_final` */
    method Final(result: array<Byte>, ghost s: seq<Byte>)
      requires Absorbed(s) && result.Length == 20 && result != buffer
      modifies this, buffer, result
      ensures result[..] == Digest(s)
      ensures bytes == 0 && H() == State(0, 0, 0, 0, 0) && buffer[..] == Zeros(64)
    {
      Finish(s);
      PutResult(result);
      bytes, a, b, c, d, e := 0, 0, 0, 0, 0, 0;
      Fill(0, Zeros(64));
    }
  }

  /** The 64-bit count gives the length that the padding asks for. */
  lemma SameLength(bytes: nat, n: nat)
    requires bytes == n % TWO_TO_64
    ensures BigEndian(8 * bytes % TWO_TO_64, 8) == BigEndian(8 * n, 8) && bytes % 64 == n % 64
  {
    WrappedCount(n, 0);
    LengthWraps(n);
  }

  method PutWord(result: array<Byte>, at: nat, w: Word)
    requires at + 4 <= result.Length
    modifies result
    ensures result[..] == old(result[..at]) + WordBytes(w) + old(result[at + 4..])
  {
    result[at] := ((w >> 24) & 0xff) as Byte;
    result[at + 1] := ((w >> 16) & 0xff) as Byte;
    result[at + 2] := ((w >> 8) & 0xff) as Byte;
    result[at + 3] := (w & 0xff) as Byte;
  }

  /** The shifts of `ngx_sha1_final` give the bytes of the number. */
  lemma EightBytes(v: nat)
    ensures BigEndian(v, 8) == [
      LowByte(v / 0x100_0000_0000_0000), LowByte(v / 0x1_0000_0000_0000), LowByte(v / 0x100_0000_0000),
      LowByte(v / 0x1_0000_0000), LowByte(v / 0x100_0000), LowByte(v / 0x1_0000), LowByte(v / 0x100), LowByte(v)]
  {
    hide Digits, LowByte;
    HighFour(v);
    LowFour(v);
    LowBytesOf(v / 0x100_0000_0000_0000, v / 0x1_0000_0000_0000, v / 0x100_0000_0000, v / 0x1_0000_0000);
    LowBytesOf(v / 0x100_0000, v / 0x1_0000, v / 0x100, v);
  }

  lemma LowBytesOf(a: nat, b: nat, c: nat, d: nat)
    ensures LowByte(a % 256) == LowByte(a) && LowByte(b % 256) == LowByte(b)
    ensures LowByte(c % 256) == LowByte(c) && LowByte(d % 256) == LowByte(d)
  {
  }

  /** The two ways in which the last blocks come about. */
  lemma PaddedSplits(s: seq<Byte>, h: State)
    requires h == HashBlocks(INITIAL, Whole(s))
    ensures |s| % 64 < 56 ==>
      HashBlocks(INITIAL, Padded(s))
      == HashBlocks(h, Rest(s) + [0x80] + Zeros(55 - |s| % 64) + BigEndian(8 * |s|, 8))
    ensures |s| % 64 >= 56 ==>
      HashBlocks(INITIAL, Padded(s))
      == HashBlocks(HashBlocks(h, Rest(s) + [0x80] + Zeros(63 - |s| % 64)), Zeros(56) + BigEndian(8 * |s|, 8))
  {
    var r := |s| % 64;
    var length := BigEndian(8 * |s|, 8);
    if r < 56 {
      assert ZeroBytes(|s|) == 55 - r;
      var last := Rest(s) + [0x80] + Zeros(55 - r) + length;
      assert Padded(s) == Whole(s) + last;
      HashAppend(INITIAL, Whole(s), last);
    } else {
      var first, last := Rest(s) + [0x80] + Zeros(63 - r), Zeros(56) + length;
      assert ZeroBytes(|s|) == 119 - r;
      assert Zeros(119 - r) == Zeros(63 - r) + Zeros(56);
      assert Padded(s) == Whole(s) + first + last;
      HashAppend(INITIAL, Whole(s), first);
      HashAppend(INITIAL, Whole(s) + first, last);
    }
  }

  lemma Joined(h: State, s: seq<Byte>, data: seq<Byte>, free: nat)
    requires |s| % 64 + free == 64 && free <= |data| && h == HashBlocks(INITIAL, Whole(s))
    ensures |Rest(s) + data[..free]| % 64 == 0
    ensures HashBlocks(INITIAL, Whole(s + data))
         == HashBlocks(HashBlocks(h, Rest(s) + data[..free]), Whole(data[free..]))
    ensures Rest(s + data) == Rest(data[free..])
    ensures |s + data| % 64 == |data[free..]| % 64
  {
    assert data == data[..free] + data[free..];
    BlockFilled(s, data[..free], data[free..]);
    HashAppend(INITIAL, Whole(s), Rest(s) + data[..free]);
    HashAppend(INITIAL, Whole(s) + (Rest(s) + data[..free]), Whole(data[free..]));
  }

  lemma JoinedWhole(h: State, s: seq<Byte>, data: seq<Byte>)
    requires |s| % 64 == 0 && h == HashBlocks(INITIAL, Whole(s))
    ensures HashBlocks(INITIAL, Whole(s + data)) == HashBlocks(h, Whole(data))
    ensures Rest(s + data) == Rest(data)
    ensures |s + data| % 64 == |data| % 64
  {
    assert Whole(s) == s;
    WholeOfBlocks(s, data);
    HashAppend(INITIAL, s, Whole(data));
  }

  /** The first `n` pieces, one after the other. */
  function Join(pieces: seq<seq<Byte>>, n: nat): seq<Byte>
    requires n <= |pieces|
  {
    if n == 0 then [] else Join(pieces, n - 1) + pieces[n - 1]
  }

  method Feed(ctx: Context, pieces: seq<seq<Byte>>)
    requires ctx.Absorbed([])
    modifies ctx, ctx.buffer
    ensures ctx.Absorbed(Join(pieces, |pieces|))
  {
    ghost var s := [];
    for i := 0 to |pieces|
      invariant s == Join(pieces, i) && ctx.Absorbed(s)
    {
      ctx.Update(pieces[i], s);
      s := s + pieces[i];
    }
  }

  /** However a message is cut, the pieces give the digest of the whole. */
  method HashPieces(pieces: seq<seq<Byte>>) returns (result: array<Byte>)
    ensures result[..] == Digest(Join(pieces, |pieces|))
  {
    result := new Byte[20];
    var ctx := new Context();
    ctx.Init();
    Feed(ctx, pieces);
    ctx.Final(result, Join(pieces, |pieces|));
  }
}
