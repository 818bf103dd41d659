/** `ngx_http_process_request_headers`: bytes arrive, lines are parsed and taken into the list of headers. */
module HeaderRequest {
  import opened HeaderStep
  import opened HeaderLine
  import opened HeaderGrammar
  import opened HeaderText
  import opened HeaderParser

  /** What `recv` answers: some bytes, that there are none yet, or that there will be none. */
  datatype Received = Bytes(s: seq<Byte>) | NotYet | Closed

  /** The bytes of the answers up to the first that brings none. */
  ghost function Text(received: seq<Received>): seq<Byte> {
    if NothingYet(received) || Ended(received) then [] else received[0].s + Text(received[1..])
  }

  /** There are no bytes yet. */
  predicate NothingYet(received: seq<Received>) {
    received == [] || received[0] == NotYet
  }

  /** There will be none: the connection is closed or broken; `recv` says so by an error or by bringing nothing. */
  predicate Ended(received: seq<Received>) {
    received != [] && (received[0] == Closed || received[0] == Bytes([]))
  }

  /** From `raw` to `raw'`, with answers left: the bytes came in order, and all of them as long as there was room. */
  ghost predicate Came(raw: seq<Byte>, received: seq<Received>, raw': seq<Byte>, rest: seq<Received>, room: nat) {
    && raw <= raw' <= raw + Text(received) && |raw'| <= room
    && |rest| <= |received| && rest == received[|received| - |rest|..]
    && (|raw'| < room ==> raw' + Text(rest) == raw + Text(received))
  }

  lemma CameOn(raw: seq<Byte>, received: seq<Received>, raw1: seq<Byte>, rest1: seq<Received>, raw2: seq<Byte>,
               rest2: seq<Received>, room: nat)
    requires Came(raw, received, raw1, rest1, room) && Came(raw1, rest1, raw2, rest2, room)
    ensures Came(raw, received, raw2, rest2, room)
  {
    if |raw1| == room {
      assert raw2 == raw1;
    }
  }

  lemma SomeCame(raw: seq<Byte>, received: seq<Received>, n: nat, room: nat)
    requires received != [] && received[0].Bytes? && 0 < n <= |received[0].s| && |raw| + n <= room
    requires n < |received[0].s| ==> |raw| + n == room
    ensures Came(raw, received, raw + received[0].s[..n], received[1..], room)
  {
    var s, later := received[0].s, Text(received[1..]);
    assert Text(received) == s + later;
    assert s == s[..n] + s[n..];
    assert raw + (s + later) == (raw + s[..n]) + (s[n..] + later);
    if n == |s| {
      assert raw + s + later == raw + (s + later);
    }
  }

  /** What the allocator answers for one header. */
  datatype Memory = Enough | NoElement | NoKey

  /** Why the handler stops; on `Waiting` it is called again when there are more bytes. */
  datatype Exit = Going | Waiting | Broken | Full | NoMemory | BadLine | Finished

  /** A stop before the answer to a line has its reason: nothing to read, no connection, no room. */
  ghost predicate StopsFor(exit: Exit, rest: seq<Received>, last: nat, room: nat) {
    match exit
    case Waiting => NothingYet(rest) && last < room
    case Broken => Ended(rest) && last < room
    case Full => last == room
    case _ => true
  }

  /** `ngx_table_elt_t`; keys and values are spans of the buffer. */
  datatype Header = Header(hash: nat, key: nat, keyLen: nat, value: nat, valueLen: nat, lowcaseKey: seq<Byte>)

  /** The header of a parsed line: hash and lower-case key are those of its name. */
  ghost predicate Taken(h: Header, l: Line, raw: seq<Byte>, upto: nat) {
    && l.nameStart < l.nameEnd <= l.start <= l.end < upto <= |raw|
    && h.key == l.nameStart && h.key + h.keyLen == l.nameEnd
    && h.value == l.start && h.value + h.valueLen == l.end
    && h.lowcaseKey == Lower(raw[l.nameStart..l.nameEnd]) && h.hash == HashOf(h.lowcaseKey)
  }

  /** Name and value are in the buffer as they came, each with a NUL behind it. */
  ghost predicate Terminated(h: Header, raw: seq<Byte>, data: seq<Byte>)
    requires h.key + h.keyLen < |raw| <= |data| && h.value + h.valueLen < |raw|
  {
    && data[h.key..h.key + h.keyLen] == raw[h.key..h.key + h.keyLen] && data[h.key + h.keyLen] == NUL
    && data[h.value..h.value + h.valueLen] == raw[h.value..h.value + h.valueLen] && data[h.value + h.valueLen] == NUL
  }

  ghost predicate Listed(headers: seq<Header>, lines: seq<Line>, raw: seq<Byte>, data: seq<Byte>, upto: nat) {
    && |headers| == |lines| && |raw| <= |data|
    && forall i | 0 <= i < |headers| :: Taken(headers[i], lines[i], raw, upto) && Terminated(headers[i], raw, data)
  }

  /** The list stays right when the buffer changes behind it alone. */
  lemma StillListed(headers: seq<Header>, lines: seq<Line>, raw: seq<Byte>, raw': seq<Byte>, data: seq<Byte>,
                    data': seq<Byte>, upto: nat, upto': nat)
    requires Listed(headers, lines, raw, data, upto) && raw <= raw' && |raw'| <= |data'|
    requires upto <= upto' <= |raw'| && upto <= |raw| && data[..upto] == data'[..upto]
    ensures Listed(headers, lines, raw', data', upto')
  {
    hide Terminated;
    forall i | 0 <= i < |headers|
      ensures Taken(headers[i], lines[i], raw', upto') && Terminated(headers[i], raw', data')
    {
      StillOne(headers[i], lines[i], raw, raw', data, data', upto, upto');
    }
  }

  lemma StillOne(h: Header, l: Line, raw: seq<Byte>, raw': seq<Byte>, data: seq<Byte>, data': seq<Byte>,
                 upto: nat, upto': nat)
    requires Taken(h, l, raw, upto) && |raw| <= |data| && Terminated(h, raw, data) && raw <= raw' && |raw'| <= |data'|
    requires upto <= upto' <= |raw'| && upto <= |raw| && data[..upto] == data'[..upto]
    ensures Taken(h, l, raw', upto') && Terminated(h, raw', data')
  {
    SameSlice(data, data', upto, h.key, h.key + h.keyLen);
    SameSlice(data, data', upto, h.value, h.value + h.valueLen);
    SameSlice(raw, raw', |raw|, h.key, h.key + h.keyLen);
    SameSlice(raw, raw', |raw|, h.value, h.value + h.valueLen);
  }

  lemma ListedByNow(headers: seq<Header>, lines: seq<Line>, raw: seq<Byte>, data: seq<Byte>, upto: nat)
    requires Listed(headers, lines, raw, data, upto) && upto <= |raw|
    ensures |headers| == |lines| && Listed(headers, lines, raw, data, |raw|)
  {
    assert data[..upto] == data[..upto];
    StillListed(headers, lines, raw, raw, data, data, upto, |raw|);
  }

  lemma OneMoreListed(headers: seq<Header>, h: Header, lines: seq<Line>, l: Line, raw: seq<Byte>, data: seq<Byte>,
                      upto: nat)
    requires Listed(headers, lines, raw, data, upto) && Taken(h, l, raw, upto) && Terminated(h, raw, data)
    ensures Listed(headers + [h], lines + [l], raw, data, upto)
  {
  }

  lemma SameSlice(s: seq<Byte>, t: seq<Byte>, n: nat, i: nat, j: nat)
    requires i <= j < n <= |s| && n <= |t| && s[..n] == t[..n]
    ensures s[i..j] == t[i..j] && s[j] == t[j]
  {
    forall k | i <= k <= j
      ensures s[k] == t[k]
    {
      assert s[k] == s[..n][k] && t[k] == t[..n][k];
    }
  }

  /** The answer to a line, however it came: the line is complete, and its name is known. */
  lemma FeedComplete(r: HeaderStep.Request, data: seq<Byte>, cuts: seq<nat>)
    requires LineOk(r.line) && r.line.state == Start && Cuts(cuts, r.pos, |data|)
    requires Feed(r, data, cuts, true).0 == OK
    ensures var l, pos := Feed(r, data, cuts, true).1.line, Feed(r, data, cuts, true).1.pos;
            && LineOk(l) && l.state == Start && r.pos < pos <= cuts[|cuts| - 1]
            && Complete(l, data, r.pos, pos - 1, true)
  {
    SplitIndependent(r, data, cuts, true);
    Sound(r.line, data, r.pos, r.pos, cuts[|cuts| - 1], true);
    CallKeepsLineOk(r, data, cuts[|cuts| - 1], true);
  }

  /** In a line that began with the request `begin`, after calls with the buffer filled up to `cuts`. */
  ghost predicate InLine(begin: HeaderStep.Request, cuts: seq<nat>, now: HeaderStep.Request, raw: seq<Byte>)
    requires LineOk(begin.line)
  {
    if cuts == [] then now == begin
    else
      && Cuts(cuts, begin.pos, now.pos) && cuts[|cuts| - 1] == now.pos <= |raw|
      && Feed(begin, raw[..now.pos], cuts, true) == (AGAIN, now)
  }

  /** Bytes that come do not change that. */
  lemma StillInLine(begin: HeaderStep.Request, cuts: seq<nat>, now: HeaderStep.Request, raw: seq<Byte>, raw': seq<Byte>)
    requires LineOk(begin.line) && InLine(begin, cuts, now, raw) && raw <= raw'
    ensures InLine(begin, cuts, now, raw')
  {
    if cuts != [] {
      assert raw'[..now.pos] == raw[..now.pos];
    }
  }

  /** One more call. */
  lemma NextCall(begin: HeaderStep.Request, cuts: seq<nat>, now: HeaderStep.Request, raw: seq<Byte>)
    requires LineOk(begin.line) && InLine(begin, cuts, now, raw) && now.pos <= |raw|
    ensures LineOk(now.line) && Cuts(cuts + [|raw|], begin.pos, |raw|)
    ensures Feed(begin, raw, cuts + [|raw|], true) == Call(now, raw, |raw|, true)
    ensures Call(now, raw, |raw|, true).0 == AGAIN ==> InLine(begin, cuts + [|raw|], Call(now, raw, |raw|, true).1, raw)
  {
    if cuts != [] {
      FeedGoesOn(begin, raw[..now.pos], raw, cuts, |raw|, true);
    }
    AgainAtLast(now, raw, |raw|, true);
    assert raw[..|raw|] == raw;
  }

  /** All bytes have been read, in the middle of a line. */
  lemma StopsHere(from: HeaderStep.Request, begin: HeaderStep.Request, found: seq<Line>, cuts: seq<nat>,
                  now: HeaderStep.Request, raw: seq<Byte>)
    requires Leads(from, begin, found, raw) && InLine(begin, cuts, now, raw) && now.pos == |raw|
    ensures ParseAll(from, raw, |raw|) == Parsed(AGAIN, now, found)
  {
    assert raw[..|raw|] == raw;
    if cuts == [] {
      assert ParseAll(begin, raw, |raw|) == Parsed(AGAIN, now, []);
    } else {
      LeadsOver(from, begin, found, raw, cuts);
    }
  }

  /** What a stop says about the bytes that have come: `n` headers have been listed. */
  ghost predicate Reported(exit: Exit, a: Parsed, n: nat) {
    match exit
    case Going => false
    case Finished => a.code == HEADER_DONE && n == |a.lines|
    case BadLine => a.code == INVALID_HEADER && n == |a.lines|
    case NoMemory => n < |a.lines|
    case Waiting | Broken | Full => a.code == AGAIN && n == |a.lines|
  }

  lemma FoundSoFar(from: HeaderStep.Request, cur: HeaderStep.Request, lines: seq<Line>, raw: seq<Byte>)
    requires Leads(from, cur, lines, raw)
    ensures lines <= ParseAll(from, raw, |raw|).lines
  {
  }

  /** The allocator's answers for `n` headers were good; if the handler stops for want of memory, the next is not. */
  ghost predicate MemoryUsed(memory: seq<Memory>, n: int, exit: Exit) {
    && n >= 0 && (forall k | 0 <= k < n && k < |memory| :: memory[k] == Enough)
    && (exit == NoMemory ==> n < |memory| && memory[n] != Enough)
  }

  /** The header of a complete line with a valid name. */
  lemma ValidHeader(h: Header, l: Line, raw: seq<Byte>, data: seq<Byte>, p0: nat, q: nat)
    requires LineOk(l) && !l.invalid && q < |raw| <= |data| && Complete(l, raw, p0, q, true)
    requires h == Header(l.hash, l.nameStart, l.nameEnd - l.nameStart, l.start, l.end - l.start,
                         Lower(raw[p0..l.nameEnd]))
    requires data[l.nameEnd] == data[l.end] == NUL
    requires forall k | p0 <= k < l.nameEnd || l.start <= k < l.end :: data[k] == raw[k]
    ensures Taken(h, l, raw, q + 1) && Terminated(h, raw, data)
  {
    assert data[l.nameStart..l.nameEnd] == raw[l.nameStart..l.nameEnd];
    assert data[l.start..l.end] == raw[l.start..l.end];
  }

  class HeadersIn {
    const r: HeaderParser.Request
    const b: Buffer
    var headers: seq<Header>
    ghost const from: HeaderStep.Request
    ghost var found: seq<Line>
    ghost var begin: HeaderStep.Request
    ghost var cuts: seq<nat>

    ghost function Now(): HeaderStep.Request
      reads r, r.lowcaseHeader, b`pos
    {
      HeaderStep.Request(r.View(), b.pos)
    }

    /** The line that is being read: its bytes are in the buffer as they came. */
    ghost predicate Reading()
      reads this, r, r.lowcaseHeader, b, b.data
    {
      && r.lowcaseHeader != b.data && LineOk(begin.line) && begin.line.state == Start
      && b.Holds(begin.pos) && InLine(begin, cuts, Now(), b.raw)
    }

    /** The answer to the line, from all bytes that have come. */
    ghost predicate Answered(code: Code)
      requires LineOk(begin.line)
      reads this, r, r.lowcaseHeader, b
    {
      && Cuts(cuts, begin.pos, |b.raw|) && cuts[|cuts| - 1] == |b.raw|
      && (code, Now()) == Feed(begin, b.raw, cuts, true) && code != AGAIN
    }

    /** Between two runs of the handler. */
    ghost predicate Valid()
      reads this, r, r.lowcaseHeader, b, b.data
    {
      && from.line.state == HeaderStep.Start && Reading() && Leads(from, begin, found, b.raw)
      && Listed(headers, found, b.raw, b.data[..], begin.pos)
    }

    /** The request line has been read, and `ngx_list_init` has made an empty list. */
    constructor (r: HeaderParser.Request, b: Buffer)
      requires r.state == HeaderStep.Start && LineOk(r.View()) && r.lowcaseHeader != b.data && b.Holds(b.pos)
      ensures this.r == r && this.b == b && Valid() && headers == [] && from == Now()
    {
      this.r, this.b, headers := r, b, [];
      from := HeaderStep.Request(r.View(), b.pos);
      begin := HeaderStep.Request(r.View(), b.pos);
      found, cuts := [], [];
    }

    /** `ngx_http_read_request_header` */
    method ReadMore(received: seq<Received>) returns (exit: Exit, rest: seq<Received>)
      requires b.pos < b.data.Length && Reading()
      modifies b`last, b`raw, b.data
      ensures Reading() && Came(old(b.raw), received, b.raw, rest, b.data.Length)
      ensures forall k | 0 <= k < old(b.last) :: b.data[k] == old(b.data[k])
      ensures if exit == Going then b.pos < b.last
              else exit in {Waiting, Broken} && b.pos == b.last && b.raw == old(b.raw)
      ensures StopsFor(exit, rest, b.last, b.data.Length)
    {
      hide InLine;
      rest := received;
      if b.pos < b.last {
        return Going, rest;
      }
      if received == [] {
        return Waiting, rest;
      }
      match received[0]
      case NotYet =>
        exit := Waiting;
      case Closed =>
        exit := Broken;
      case Bytes(s) =>
        var room := b.data.Length - b.last;
        var n := if |s| < room then |s| else room;
        if n == 0 {
          return Broken, rest;
        }
        SomeCame(b.raw, received, n, b.data.Length);
        StillInLine(begin, cuts, Now(), b.raw, b.raw + s[..n]);
        var last := b.last;
        forall k | 0 <= k < n {
          b.data[last + k] := s[k];
        }
        b.last := last + n;
        b.raw := b.raw + s[..n];
        exit, rest := Going, received[1..];
    }

    /** The iterations of the loop up to the next answer about a line, or up to a stop. */
    method ReadLine(rc: Code, received: seq<Received>) returns (code: Code, exit: Exit, rest: seq<Received>)
      requires Reading()
      modifies r, r.lowcaseHeader, b, b.data, `cuts
      ensures Came(old(b.raw), received, b.raw, rest, b.data.Length)
      ensures forall k | 0 <= k < old(b.last) :: b.data[k] == old(b.data[k])
      ensures b.Holds(begin.pos) && StopsFor(exit, rest, b.last, b.data.Length)
      ensures if exit == Going then Answered(code) else exit in {Waiting, Broken, Full} && Reading() && b.pos == b.last
    {
      hide InLine, Call;
      code, rest, exit := rc, received, Going;
      ghost var first := true;
      while true
        invariant Reading() && Came(old(b.raw), received, b.raw, rest, b.data.Length)
        invariant forall k | 0 <= k < old(b.last) :: b.data[k] == old(b.data[k])
        invariant exit == Going && (!first ==> code == AGAIN && b.pos == b.last)
        decreases b.data.Length - b.last, first
      {
        if code == AGAIN {
          if b.pos == b.data.Length {
            return code, Full, rest;
          }
          ghost var raw, answers := b.raw, rest;
          exit, rest := ReadMore(rest);
          CameOn(old(b.raw), received, raw, answers, b.raw, rest, b.data.Length);
          if exit != Going {
            return;
          }
        }
        NextCall(begin, cuts, Now(), b.raw);
        code := r.ParseRaw(b, begin.pos);
        cuts := cuts + [|b.raw|];
        if code != AGAIN {
          return;
        }
        first := false;
      }
    }

    /** The NUL bytes behind name and value. */
    method Terminate(ghost q: nat) returns (keyLen: nat, valueLen: nat)
      requires LineOk(r.View()) && b.Holds(begin.pos) && q < |b.raw| && b.pos == q + 1
      requires Complete(r.View(), b.raw, begin.pos, q, true)
      modifies b.data
      ensures r.headerNameStart + keyLen == r.headerNameEnd && r.headerStart + valueLen == r.headerEnd
      ensures r.headerNameStart == begin.pos && r.headerNameEnd <= r.headerStart && r.headerEnd <= q
      ensures b.data[r.headerNameEnd] == b.data[r.headerEnd] == NUL
      ensures forall k | begin.pos <= k < r.headerNameEnd || r.headerStart <= k < r.headerEnd :: b.data[k] == b.raw[k]
      ensures forall k | 0 <= k < b.data.Length && !(begin.pos <= k < b.pos) :: b.data[k] == old(b.data[k])
    {
      keyLen := r.headerNameEnd - r.headerNameStart;
      b.data[r.headerNameStart + keyLen] := NUL;
      valueLen := r.headerEnd - r.headerStart;
      b.data[r.headerStart + valueLen] := NUL;
    }

    /** The name in lower case, from the ring if it is all there. */
    method LowcaseKey(keyLen: nat, ghost p0: nat, ghost q: nat) returns (key: seq<Byte>)
      requires LineOk(r.View()) && !r.invalidHeader && q < |b.raw| <= b.data.Length
      requires Complete(r.View(), b.raw, p0, q, true)
      requires r.headerNameStart + keyLen == r.headerNameEnd
      requires forall k | p0 <= k < r.headerNameEnd :: b.data[k] == b.raw[k]
      ensures key == Lower(b.raw[p0..r.headerNameEnd])
    {
      ghost var name := b.raw[p0..r.headerNameEnd];
      assert b.data[r.headerNameStart..r.headerNameStart + keyLen] == name;
      if keyLen == r.lowcaseIndex {
        CopiedKey(r.lowcaseHeader[..], Lower(name));
        key := r.lowcaseHeader[..keyLen];
      } else {
        key := StrLow(b.data, r.headerNameStart, keyLen);
      }
    }

    /** Lines 427 to 448 of `ngx_http_request.c`, for a line whose LF is at `q`. */
    method TakeHeader(memory: Memory, ghost q: nat) returns (ok: bool)
      requires LineOk(r.View()) && !r.invalidHeader && r.lowcaseHeader != b.data
      requires b.Holds(begin.pos) && q < |b.raw| && b.pos == q + 1
      requires Complete(r.View(), b.raw, begin.pos, q, true)
      modifies b.data, `headers
      ensures ok <==> memory == Enough
      ensures !ok ==> headers == old(headers)
      ensures ok ==> headers != [] && headers == old(headers) + [headers[|headers| - 1]]
      ensures ok ==> Taken(headers[|headers| - 1], r.View(), b.raw, b.pos)
      ensures ok ==> Terminated(headers[|headers| - 1], b.raw, b.data[..])
      ensures forall k | 0 <= k < b.data.Length && !(begin.pos <= k < b.pos) :: b.data[k] == old(b.data[k])
    {
      hide Complete;
      if memory == NoElement {
        return false;
      }
      var keyLen, valueLen := Terminate(q);
      if memory == NoKey {
        return false;
      }
      var key := LowcaseKey(keyLen, begin.pos, q);
      var h := Header(r.headerHash, r.headerNameStart, keyLen, r.headerStart, valueLen, key);
      ValidHeader(h, r.View(), b.raw, b.data[..], begin.pos, q);
      headers := headers + [h];
      ok := true;
    }

    /** The same, with what has been found so far. */
    method NextLine(rc: Code, received: seq<Received>) returns (code: Code, exit: Exit, rest: seq<Received>)
      requires Valid()
      modifies r, r.lowcaseHeader, b, b.data, `cuts
      ensures Came(old(b.raw), received, b.raw, rest, b.data.Length)
      ensures b.Holds(begin.pos) && StopsFor(exit, rest, b.last, b.data.Length)
      ensures if exit == Going then Answered(code) else exit in {Waiting, Broken, Full} && Reading() && b.pos == b.last
      ensures Leads(from, begin, found, b.raw) && Listed(headers, found, b.raw, b.data[..], begin.pos)
    {
      hide InLine, ParseAll, Feed;
      ghost var raw, data := b.raw, b.data[..];
      code, exit, rest := ReadLine(rc, received);
      LeadsGrows(from, begin, found, raw, b.raw);
      StillListed(headers, found, raw, b.raw, data, b.data[..], begin.pos, begin.pos);
    }

    /** A complete line goes to the list if its name is valid. */
    method ListLine(memory: Memory) returns (ok: bool)
      requires LineOk(r.View()) && r.lowcaseHeader != b.data && b.Holds(begin.pos) && begin.pos < b.pos
      requires Complete(r.View(), b.raw, begin.pos, b.pos - 1, true)
      requires Listed(headers, found, b.raw, b.data[..], begin.pos)
      modifies b.data, `headers
      ensures b.Holds(b.pos)
      ensures Listed(headers, if ok then found + Kept(r.View()) else found, b.raw, b.data[..], b.pos)
      ensures ok <==> r.invalidHeader || memory == Enough
      ensures |headers| == |old(headers)| + if ok && !r.invalidHeader then 1 else 0
    {
      hide Complete, Listed;
      ghost var data := b.data[..];
      ok := true;
      if !r.invalidHeader {
        ok := TakeHeader(memory, b.pos - 1);
      }
      StillListed(old(headers), found, b.raw, b.raw, data, b.data[..], begin.pos, b.pos);
      if ok && !r.invalidHeader {
        OneMoreListed(old(headers), headers[|headers| - 1], found, r.View(), b.raw, b.data[..], b.pos);
      } else {
        assert ok ==> found + Kept(r.View()) == found;
      }
    }

    /** Then the next line begins. */
    method TakeLine(memory: Memory) returns (ok: bool)
      requires from.line.state == begin.line.state == Start && LineOk(begin.line) && r.lowcaseHeader != b.data
      requires b.Holds(begin.pos) && Answered(OK) && Leads(from, begin, found, b.raw)
      requires Listed(headers, found, b.raw, b.data[..], begin.pos)
      modifies b.data, this
      ensures old(begin.pos) < b.pos
      ensures ok ==> Valid() && begin.pos == b.pos
      ensures !ok ==> found == old(found) && Listed(headers, found, b.raw, b.data[..], b.pos)
      ensures !ok ==> found < ParseAll(from, b.raw, |b.raw|).lines
      ensures |headers| == |old(headers)| || (|headers| == |old(headers)| + 1 && memory == Enough)
      ensures !ok ==> memory != Enough && |headers| == |old(headers)|
    {
      hide Complete, ParseAll, Feed, Leads, Listed;
      LeadsOver(from, begin, found, b.raw, cuts);
      FoundSoFar(from, Now(), found + Kept(r.View()), b.raw);
      FeedComplete(begin, b.raw, cuts);
      ok := ListLine(memory);
      if ok {
        found, begin, cuts := found + Kept(r.View()), Now(), [];
      }
    }

    /** `ngx_http_process_request_headers`: the headers listed are those of all bytes that have come, and the
        reason to stop is the right one for them, however they came and whenever the handler was called. */
    method ProcessHeaders(received: seq<Received>, memory: seq<Memory>) returns (exit: Exit, rest: seq<Received>)
      requires Valid()
      modifies r, r.lowcaseHeader, b, b.data, this
      ensures Came(old(b.raw), received, b.raw, rest, b.data.Length)
      ensures StopsFor(exit, rest, b.last, b.data.Length) && b.last == |b.raw| && (exit == Waiting ==> Valid())
      ensures var a := ParseAll(from, b.raw, |b.raw|);
              && Reported(exit, a, |headers|)
              && Listed(headers, a.lines[..|headers|], b.raw, b.data[..], |b.raw|)
      ensures MemoryUsed(memory, |headers| - |old(headers)|, exit)
    {
      hide ParseAll, Feed, Listed, InLine, Text;
      var rc, n := AGAIN, |headers|;
      rest := received;
      while true
        invariant Valid() && Came(old(b.raw), received, b.raw, rest, b.data.Length)
        invariant n == |old(headers)| && MemoryUsed(memory, |headers| - n, Going)
        decreases b.data.Length - begin.pos
      {
        ghost var raw, answers := b.raw, rest;
        rc, exit, rest := NextLine(rc, rest);
        CameOn(old(b.raw), received, raw, answers, b.raw, rest, b.data.Length);
        ListedByNow(headers, found, b.raw, b.data[..], begin.pos);
        if exit != Going {
          StopsHere(from, begin, found, cuts, Now(), b.raw);
          return;
        }
        if rc != OK {
          LeadsOver(from, begin, found, b.raw, cuts);
          exit := if rc == HEADER_DONE then Finished else BadLine;
          return;
        }
        var k := |headers| - n;
        var ok := TakeLine(if k < |memory| then memory[k] else Enough);
        if !ok {
          ListedByNow(headers, found, b.raw, b.data[..], b.pos);
          exit := NoMemory;
          return;
        }
      }
    }

    /** If all that arrives is bytes, and there is memory for every header, then the bytes alone decide: the header
        is finished exactly if they begin with one, provided that it fits, and then the list has its valid lines. */
    method ReceiveAll(received: seq<Received>, memory: seq<Memory>) returns (exit: Exit)
      requires Valid() && |b.raw + Text(received)| <= b.data.Length
      requires forall k | 0 <= k < |received| :: received[k].Bytes? && received[k].s != []
      requires forall k | 0 <= k < |memory| :: memory[k] == Enough
      modifies r, r.lowcaseHeader, b, b.data, this
      ensures var text := old(b.raw) + Text(received);
              && b.raw <= text && from.pos <= |text| && LineOk(from.line)
              && (exit == Finished <==> exists spans :: IsHeader(text, from.pos, |text|, spans))
              && forall spans | IsHeader(text, from.pos, |text|, spans) ::
                   && Listed(headers, ParseAll(from, text, |text|).lines, b.raw, b.data[..], |b.raw|)
                   && ValidLines(ParseAll(from, text, |text|).lines, text, from.pos, spans)
      ensures exit in {Finished, BadLine, Waiting, Full}
      ensures exit in {Waiting, Full} ==> b.raw == old(b.raw) + Text(received)
    {
      hide Listed, InLine, ParseAll, ValidLines, IsHeader;
      ghost var raw := b.raw;
      var rest;
      exit, rest := ProcessHeaders(received, memory);
      AllCame(raw, received, b.raw, rest, b.data.Length, exit);
      BytesDecide(from, b.raw, raw + Text(received), exit, |headers|);
      ghost var lines := ParseAll(from, b.raw, |b.raw|).lines;
      assert |headers| == |lines| ==> lines[..|headers|] == lines;
    }
  }

  lemma AllCame(raw: seq<Byte>, received: seq<Received>, raw': seq<Byte>, rest: seq<Received>, room: nat, exit: Exit)
    requires Came(raw, received, raw', rest, room) && StopsFor(exit, rest, |raw'|, room)
    requires forall k | 0 <= k < |received| :: received[k].Bytes? && received[k].s != []
    requires |raw + Text(received)| <= room
    ensures exit != Broken && (exit in {Waiting, Full} ==> raw' == raw + Text(received))
  {
    assert !Ended(rest) && (NothingYet(rest) ==> rest == []);
    if exit == Waiting {
      assert Text(rest) == [];
    }
  }

  /** The answer for some of the bytes is that for all of them, if it is final. */
  lemma BytesDecide(from: HeaderStep.Request, raw: seq<Byte>, text: seq<Byte>, exit: Exit, n: nat)
    requires LineOk(from.line) && from.line.state == Start && from.pos <= |raw| && raw <= text
    requires Reported(exit, ParseAll(from, raw, |raw|), n) && exit !in {NoMemory, Broken}
    requires exit in {Waiting, Full} ==> raw == text
    ensures exit == Finished <==> exists spans :: IsHeader(text, from.pos, |text|, spans)
    ensures forall spans | IsHeader(text, from.pos, |text|, spans) ::
      && ValidLines(ParseAll(from, text, |text|).lines, text, from.pos, spans)
      && ParseAll(from, raw, |raw|).lines == ParseAll(from, text, |text|).lines
      && n == |ParseAll(from, text, |text|).lines|
  {
    hide ParseAll, IsHeader, ValidLines;
    ParseAllGrows(from, raw, text);
    HeadersExactly(from, text, |text|);
  }

  /** The ring is the whole name only if the name is shorter than the ring; otherwise the index has wrapped. */
  lemma CopiedKey(ring: seq<Byte>, name: seq<Byte>)
    requires |ring| == LC_HEADER_LEN && RingHolds(ring, name)
    ensures |name| == |name| % LC_HEADER_LEN <==> |name| < LC_HEADER_LEN
    ensures |name| < LC_HEADER_LEN ==> ring[..|name|] == name
  {
    if |name| < LC_HEADER_LEN {
      forall k | 0 <= k < |name|
        ensures ring[k] == name[k]
      {
        assert ring[k % LC_HEADER_LEN] == name[k];
      }
    }
  }

  /** `ngx_strlow` */
  method StrLow(src: array<Byte>, from: nat, n: nat) returns (dst: seq<Byte>)
    requires from + n <= src.Length
    ensures dst == Lower(src[from..from + n])
  {
    dst := [];
    var i := 0;
    while i < n
      invariant i <= n && dst == Lower(src[from..from + i])
    {
      var ch := src[from + i];
      dst := dst + [if 65 <= ch <= 90 then ch + 32 else ch];
      i := i + 1;
      LowerGrows(src[..], from, from + i - 1);
      assert src[from..from + i] == src[..][from..from + i];
      assert src[from..from + i - 1] == src[..][from..from + i - 1];
    }
  }
}
