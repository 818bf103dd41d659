/** What `ngx_http_parse_header_line` recognises, stated without the state machine. */
module HeaderLine {
  import opened HeaderStep

  /** The bytes that a name may hold: dashes, digits, letters, and underscores where they are let through. */
  predicate NameByte(ch: Byte, underscores: bool) {
    ch == 45 || 48 <= ch <= 57 || 65 <= ch <= 90 || 97 <= ch <= 122 || (ch == 95 && underscores)
  }

  /** `ngx_tolower` */
  function ToLower(ch: Byte): Byte {
    if 65 <= ch <= 90 then ch + 32 else ch
  }

  /** `ngx_strlow` */
  function Lower(s: seq<Byte>): (t: seq<Byte>)
    ensures |t| == |s|
  {
    seq(|s|, i requires 0 <= i < |s| => ToLower(s[i]))
  }

  /** The bytes as the digits of a number to the base 31, the first one the most significant. */
  function Polynomial(s: seq<Byte>): nat {
    if s == [] then 0 else s[0] * Power31(|s| - 1) + Polynomial(s[1..])
  }

  function Power31(n: nat): nat {
    if n == 0 then 1 else 31 * Power31(n - 1)
  }

  /** The 31-fold hash, in a 64-bit word. */
  function HashOf(s: seq<Byte>): nat {
    Polynomial(s) % TWO_TO_64
  }

  lemma {:induction false} PolynomialGrows(s: seq<Byte>, c: Byte)
    ensures Polynomial(s + [c]) == 31 * Polynomial(s) + c
  {
    if s == [] {
      assert [c][1..] == [];
      assert Polynomial([c]) == c * Power31(0) + Polynomial([]);
      assert s + [c] == [c];
    } else {
      PolynomialGrows(s[1..], c);
      assert (s + [c])[1..] == s[1..] + [c];
      OneMoreFactor(s[0], |s| - 1);
    }
  }

  lemma OneMoreFactor(x: nat, n: nat)
    ensures x * Power31(n + 1) == 31 * (x * Power31(n))
  {
  }

  /** The macro takes the next byte into the hash, although it drops the high bits each time. */
  lemma HashGrows(s: seq<Byte>, c: Byte)
    ensures HashOf(s + [c]) == Hash(HashOf(s), c)
  {
    PolynomialGrows(s, c);
    DropsHighBits(Polynomial(s), c);
  }

  lemma DropsHighBits(x: nat, c: nat)
    ensures (31 * x + c) % TWO_TO_64 == (x % TWO_TO_64 * 31 + c) % TWO_TO_64
  {
    var q, r := x / TWO_TO_64, x % TWO_TO_64;
    assert 31 * x + c == 31 * q * TWO_TO_64 + (31 * r + c);
  }

  ghost predicate AllSpaces(data: seq<Byte>, p: nat, q: nat)
    requires q <= |data|
  {
    forall k | p <= k < q :: data[k] == SPACE
  }

  ghost predicate AllNameBytes(data: seq<Byte>, p: nat, q: nat, underscores: bool)
    requires q <= |data|
  {
    forall k | p <= k < q :: NameByte(data[k], underscores)
  }

  /** Bytes from `p` that the parser takes for a name, whether the line is then called invalid or not. */
  ghost predicate NameLike(data: seq<Byte>, p: nat, q: nat)
    requires q <= |data|
  {
    p < q && data[p] != CR && data[p] != LF && data[p] != NUL
    && forall k | p < k < q :: data[k] != COLON && data[k] != CR && data[k] != LF && data[k] != NUL
  }

  /** A value, possibly empty: it neither begins nor ends with a space, and stays on the line. */
  ghost predicate ValueSpan(data: seq<Byte>, start: nat, end: nat)
    requires start <= end <= |data|
  {
    && (start < end ==> data[start] != SPACE && data[end - 1] != SPACE)
    && forall k | start <= k < end :: data[k] != CR && data[k] != LF && data[k] != NUL
  }

  /** Spaces, then bytes CR. */
  ghost predicate Tail(data: seq<Byte>, p: nat, q: nat)
    requires q <= |data|
  {
    && (forall k | p <= k < q :: data[k] == SPACE || data[k] == CR)
    && forall k | p < k < q && data[k - 1] == CR :: data[k] == CR
  }

  /** The line that begins at `p` and ends with the LF at `q`. */
  ghost predicate IsLine(data: seq<Byte>, p: nat, nameEnd: nat, start: nat, end: nat, q: nat)
    requires q < |data|
  {
    && p < nameEnd <= start <= end <= q && data[q] == LF
    && NameLike(data, p, nameEnd)
    && ValueSpan(data, start, end)
    && Tail(data, end, q)
    && (if data[nameEnd] == COLON then
          nameEnd < start && AllSpaces(data, nameEnd + 1, start) && (start == end ==> data[end] != SPACE)
        else start == nameEnd == end && data[end] != SPACE)
  }

  // ---------- the name ----------

  /** The ring holds the last 32 bytes of `s`, each at its position modulo 32. */
  ghost predicate RingHolds(ring: seq<Byte>, s: seq<Byte>)
    requires |ring| == LC_HEADER_LEN
  {
    forall k | 0 <= k < |s| && |s| - LC_HEADER_LEN <= k :: ring[k % LC_HEADER_LEN] == s[k]
  }

  ghost predicate Collected(l: Line, name: seq<Byte>)
    requires LineOk(l)
  {
    l.hash == HashOf(name) && l.index == |name| % LC_HEADER_LEN && RingHolds(l.lowcase, name)
  }

  /** What the parser knows about a name that lies from `p` to `q`. */
  ghost predicate NameKnown(l: Line, data: seq<Byte>, p: nat, q: nat, underscores: bool)
    requires LineOk(l) && p <= q <= |data|
  {
    && l.nameStart == p && (l.invalid <==> !AllNameBytes(data, p, q, underscores))
    && (!l.invalid ==> Collected(l, Lower(data[p..q])))
  }

  lemma NotedCollects(l: Line, name: seq<Byte>, c: Byte)
    requires LineOk(l) && Collected(l, name)
    ensures LineOk(Noted(l, c)) && Collected(Noted(l, c), name + [c])
  {
    var s, ring := name + [c], l.lowcase[l.index := c];
    HashGrows(name, c);
    RingTakes(l.lowcase, name, c);
    NextIndex(|name|);
  }

  lemma NextIndex(n: nat)
    ensures (n % LC_HEADER_LEN + 1) % LC_HEADER_LEN == (n + 1) % LC_HEADER_LEN
  {
  }

  lemma RingTakes(ring: seq<Byte>, s: seq<Byte>, c: Byte)
    requires |ring| == LC_HEADER_LEN && RingHolds(ring, s)
    ensures RingHolds(ring[|s| % LC_HEADER_LEN := c], s + [c])
  {
    var ring', s' := ring[|s| % LC_HEADER_LEN := c], s + [c];
    forall k | 0 <= k < |s'| && |s'| - LC_HEADER_LEN <= k
      ensures ring'[k % LC_HEADER_LEN] == s'[k]
    {
      if k < |s| {
        OtherSlot(k, |s|);
        assert ring[k % LC_HEADER_LEN] == s[k];
      }
    }
  }

  lemma OtherSlot(k: nat, n: nat)
    requires k < n < k + LC_HEADER_LEN
    ensures k % LC_HEADER_LEN != n % LC_HEADER_LEN
  {
  }

  /** The byte that the parser notes is the lower-case form of the one it read. */
  lemma LowcaseIsLower(ch: Byte)
    ensures Lowcase(ch) != 0 <==> NameByte(ch, false)
    ensures Lowcase(ch) != 0 ==> Lowcase(ch) == ToLower(ch)
    ensures Lowcase(ch) != 0 ==> ch != COLON && ch != CR && ch != LF && ch != NUL && ch != UNDERSCORE
  {
  }

  lemma LowerGrows(data: seq<Byte>, p: nat, q: nat)
    requires p <= q < |data|
    ensures Lower(data[p..q + 1]) == Lower(data[p..q]) + [ToLower(data[q])]
  {
  }

  /** One byte of the name, from its first one on. */
  lemma NameGrows(l: Line, l': Line, data: seq<Byte>, p: nat, q: nat, underscores: bool)
    requires LineOk(l) && p <= q < |data| && NameKnown(l, data, p, q, underscores)
    requires if Lowcase(data[q]) != 0 then l' == Noted(l, Lowcase(data[q]))
             else if data[q] == UNDERSCORE && underscores then l' == Noted(l, data[q])
             else l' == l.(invalid := true)
    ensures LineOk(l') && NameKnown(l', data, p, q + 1, underscores)
  {
    LowerGrows(data, p, q);
    LowcaseIsLower(data[q]);
    assert AllNameBytes(data, p, q + 1, underscores)
           <==> AllNameBytes(data, p, q, underscores) && NameByte(data[q], underscores);
    if !l'.invalid {
      NotedCollects(l, Lower(data[p..q]), ToLower(data[q]));
    }
  }
}
