/** A whole header: line after line, by the parser as `ngx_http_process_request_headers` calls it. */
module HeaderText {
  import opened HeaderStep
  import opened HeaderLine
  import opened HeaderGrammar

  /** The answer to the last line, the request then, and the valid lines before. */
  datatype Parsed = Parsed(code: Code, request: Request, lines: seq<Line>)

  /** A line with bytes that a name cannot hold is skipped. */
  function Kept(l: Line): seq<Line> {
    if l.invalid then [] else [l]
  }

  lemma CallMoves(r: Request, data: seq<Byte>, last: nat)
    requires LineOk(r.line) && r.pos <= last <= |data|
    ensures var (code, r') := Call(r, data, last, true);
            && LineOk(r'.line) && r.pos <= r'.pos <= last
            && (code == OK ==> r.pos < r'.pos) && (code == AGAIN ==> r'.pos == last)
  {
    CallKeepsLineOk(r, data, last, true);
    ScanMoves(r.line, data, r.pos, last, true);
  }

  /** The bytes up to `last`, line after line until the answer is not OK. */
  function ParseAll(r: Request, data: seq<Byte>, last: nat): (a: Parsed)
    requires LineOk(r.line) && r.pos <= last <= |data|
    ensures LineOk(a.request.line) && r.pos <= a.request.pos <= last && a.code != OK
    ensures a.code == AGAIN ==> a.request.pos == last
    decreases last - r.pos
  {
    var (code, r') := Call(r, data, last, true);
    CallMoves(r, data, last);
    if code == OK then
      var a := ParseAll(r', data, last);
      a.(lines := Kept(r'.line) + a.lines)
    else
      Parsed(code, r', [])
  }

  lemma {:induction false} ParseAllReadsOnly(r: Request, data: seq<Byte>, data': seq<Byte>, last: nat)
    requires LineOk(r.line) && r.pos <= last <= |data| && last <= |data'| && data[r.pos..last] == data'[r.pos..last]
    ensures ParseAll(r, data, last) == ParseAll(r, data', last)
    decreases last - r.pos
  {
    ScanReadsOnly(r.line, data, data', r.pos, last, true);
    ScanMoves(r.line, data, r.pos, last, true);
    CallKeepsLineOk(r, data, last, true);
    var (code, r') := Call(r, data, last, true);
    if code == OK {
      assert data[r'.pos..last] == data[r.pos..last][r'.pos - r.pos..] == data'[r'.pos..last];
      ParseAllReadsOnly(r', data, data', last);
    }
  }

  /** After the lines that `a` has found, going on has the answer `c`; without a stop it is `b`. */
  ghost predicate Continues(a: seq<Line>, c: Parsed, b: Parsed) {
    b.code == c.code && b.lines == a + c.lines && (c.code != INVALID_HEADER ==> b.request == c.request)
  }

  /** Stopping at `mid`, anywhere in the header, and going on from there finds the same lines. */
  lemma {:induction false} ParseAllSplits(r: Request, data: seq<Byte>, mid: nat, last: nat)
    requires LineOk(r.line) && r.pos <= mid <= last <= |data|
    ensures var a, b := ParseAll(r, data, mid), ParseAll(r, data, last);
            if a.code == AGAIN then Continues(a.lines, ParseAll(a.request, data, last), b) else b == a
    decreases mid - r.pos
  {
    hide Scan, Saved, Call;
    CallSplits(r, data, mid, last, true);
    CallMoves(r, data, mid);
    CallMoves(r, data, last);
    var (code, r') := Call(r, data, mid, true);
    if code == OK {
      ParseAllSplits(r', data, mid, last);
    }
  }

  // ---------- a run of the parser that has come to `cur` ----------

  /** The parser began at `from`, has found `lines` and is now at `cur`. */
  ghost predicate Leads(from: Request, cur: Request, lines: seq<Line>, data: seq<Byte>) {
    && LineOk(from.line) && LineOk(cur.line) && from.pos <= cur.pos <= |data|
    && Continues(lines, ParseAll(cur, data, |data|), ParseAll(from, data, |data|))
  }

  lemma ParseAllGrows(r: Request, data: seq<Byte>, data': seq<Byte>)
    requires LineOk(r.line) && r.pos <= |data| && data <= data'
    ensures var a, b := ParseAll(r, data, |data|), ParseAll(r, data', |data'|);
            if a.code == AGAIN then Continues(a.lines, ParseAll(a.request, data', |data'|), b) else b == a
  {
    hide *;
    assert data'[r.pos..|data|] == data[r.pos..|data|];
    ParseAllReadsOnly(r, data, data', |data|);
    ParseAllSplits(r, data', |data|, |data'|);
  }

  /** That stays true when more bytes come. */
  lemma LeadsGrows(from: Request, cur: Request, lines: seq<Line>, data: seq<Byte>, data': seq<Byte>)
    requires Leads(from, cur, lines, data) && data <= data'
    ensures Leads(from, cur, lines, data')
  {
    hide ParseAll;
    ParseAllGrows(from, data, data');
    ParseAllGrows(cur, data, data');
  }

  /** One line, in however many pieces it came. */
  lemma LeadsOver(from: Request, cur: Request, lines: seq<Line>, data: seq<Byte>, cuts: seq<nat>)
    requires Leads(from, cur, lines, data) && Cuts(cuts, cur.pos, |data|) && cuts[|cuts| - 1] == |data|
    ensures var (code, cur') := Feed(cur, data, cuts, true);
            match code
            case OK => cur.pos < cur'.pos && Leads(from, cur', lines + Kept(cur'.line), data)
            case AGAIN => ParseAll(from, data, |data|) == Parsed(AGAIN, cur', lines) && Leads(from, cur', lines, data)
            case _ => ParseAll(from, data, |data|).code == code && ParseAll(from, data, |data|).lines == lines
  {
    SplitIndependent(cur, data, cuts, true);
    CallKeepsLineOk(cur, data, |data|, true);
    ScanMoves(cur.line, data, cur.pos, |data|, true);
    var (code, cur') := Call(cur, data, |data|, true);
    if code == OK {
      var a := ParseAll(cur', data, |data|);
      assert lines + (Kept(cur'.line) + a.lines) == lines + Kept(cur'.line) + a.lines;
    } else if code == AGAIN {
      assert ParseAll(cur', data, |data|) == Parsed(AGAIN, cur', []);
    }
  }

  lemma {:induction false} ScanMeetsNoZero(l: Line, data: seq<Byte>, p: nat, last: nat, underscores: bool)
    requires LineOk(l) && l.state != IgnoreLine && p <= last <= |data|
    ensures var r := Scan(l, data, p, last, underscores);
            r.line.state != IgnoreLine && r.pos <= last && forall k | p <= k < r.pos :: data[k] != 0
    decreases last - p
  {
    if p < last {
      StepKeepsLineOk(l, p, data[p], underscores);
      match Step(l, p, data[p], underscores)
      case More(l') => ScanMeetsNoZero(l', data, p + 1, last, underscores);
      case _ =>
    }
  }

  /** Nothing is read past a zero byte. */
  lemma {:induction false} ZeroByteStops(r: Request, data: seq<Byte>, last: nat)
    requires LineOk(r.line) && r.line.state != IgnoreLine && r.pos <= last <= |data|
    ensures forall k | r.pos <= k < ParseAll(r, data, last).request.pos :: data[k] != 0
    decreases last - r.pos
  {
    ScanMeetsNoZero(r.line, data, r.pos, last, true);
    CallMoves(r, data, last);
    var (code, r') := Call(r, data, last, true);
    if code == OK {
      ZeroByteStops(r', data, last);
    }
  }

  // ---------- which texts are headers ----------

  /** Where a line and its parts are; `q` is its LF. */
  datatype Span = Span(nameEnd: nat, start: nat, end: nat, q: nat)

  /** The bytes from `p` to `last` begin with the lines `spans` and an empty line. */
  ghost predicate IsHeader(data: seq<Byte>, p: nat, last: nat, spans: seq<Span>)
    requires last <= |data|
    decreases |spans|
  {
    if spans == [] then exists q: nat :: q < last && EmptyLine(data, p, q)
    else
      var s := spans[0];
      s.q < last && IsLine(data, p, s.nameEnd, s.start, s.end, s.q) && IsHeader(data, s.q + 1, last, spans[1..])
  }

  /** What has been parsed of a line from `p`: its parts, and a name without foreign bytes, with its hash and ring. */
  ghost predicate Describes(l: Line, data: seq<Byte>, p: nat, s: Span)
    requires s.q < |data|
  {
    && LineOk(l) && l.nameStart == p && l.nameEnd == s.nameEnd && l.start == s.start && l.end == s.end
    && IsLine(data, p, l.nameEnd, l.start, l.end, s.q)
    && AllNameBytes(data, p, l.nameEnd, true) && Collected(l, Lower(data[p..l.nameEnd]))
  }

  /** The lines of a header that have valid names, as parsed, in their order. */
  ghost predicate ValidLines(lines: seq<Line>, data: seq<Byte>, p: nat, spans: seq<Span>)
    decreases |spans|
  {
    if spans == [] then lines == []
    else
      var s := spans[0];
      && p < s.nameEnd <= s.q < |data|
      && if AllNameBytes(data, p, s.nameEnd, true) then
           lines != [] && Describes(lines[0], data, p, s) && ValidLines(lines[1..], data, s.q + 1, spans[1..])
         else ValidLines(lines, data, s.q + 1, spans[1..])
  }

  /** Every text that is a header is accepted, with its valid lines. */
  lemma {:induction false} HeaderAccepted(r: Request, data: seq<Byte>, last: nat, spans: seq<Span>)
    requires LineOk(r.line) && r.line.state == Start && r.pos <= last <= |data|
    requires IsHeader(data, r.pos, last, spans)
    ensures var a := ParseAll(r, data, last); a.code == HEADER_DONE && ValidLines(a.lines, data, r.pos, spans)
    decreases |spans|
  {
    if spans == [] {
      DoneExactly(r.line, data, r.pos, last, true);
    } else {
      var s := spans[0];
      AcceptsExactly(r.line, data, r.pos, last, true);
      CallKeepsLineOk(r, data, last, true);
      HeaderAccepted(Call(r, data, last, true).1, data, last, spans[1..]);
      assert ParseAll(r, data, last).lines[|Kept(Call(r, data, last, true).1.line)|..]
          == ParseAll(Call(r, data, last, true).1, data, last).lines;
    }
  }

  /** Nothing else is. */
  lemma {:induction false} OnlyHeadersAccepted(r: Request, data: seq<Byte>, last: nat) returns (spans: seq<Span>)
    requires LineOk(r.line) && r.line.state == Start && r.pos <= last <= |data|
    requires ParseAll(r, data, last).code == HEADER_DONE
    ensures IsHeader(data, r.pos, last, spans)
    decreases last - r.pos
  {
    AcceptsExactly(r.line, data, r.pos, last, true);
    DoneExactly(r.line, data, r.pos, last, true);
    CallKeepsLineOk(r, data, last, true);
    ScanMoves(r.line, data, r.pos, last, true);
    var (code, r') := Call(r, data, last, true);
    if code == OK {
      var rest := OnlyHeadersAccepted(r', data, last);
      spans := [Span(r'.line.nameEnd, r'.line.start, r'.line.end, r'.pos - 1)] + rest;
      assert spans[1..] == rest;
    } else {
      assert EmptyLine(data, r.pos, r'.pos - 1);
      spans := [];
    }
  }

  /** A header is accepted exactly if it consists of lines and an empty line; the lines found are then those with
      valid names, in their order. */
  lemma HeadersExactly(r: Request, data: seq<Byte>, last: nat)
    requires LineOk(r.line) && r.line.state == Start && r.pos <= last <= |data|
    ensures var a := ParseAll(r, data, last);
            && (a.code == HEADER_DONE <==> exists spans :: IsHeader(data, r.pos, last, spans))
            && forall spans | IsHeader(data, r.pos, last, spans) :: ValidLines(a.lines, data, r.pos, spans)
  {
    if ParseAll(r, data, last).code == HEADER_DONE {
      var spans := OnlyHeadersAccepted(r, data, last);
      assert IsHeader(data, r.pos, last, spans);
    }
    forall spans | IsHeader(data, r.pos, last, spans)
      ensures ParseAll(r, data, last).code == HEADER_DONE
      ensures ValidLines(ParseAll(r, data, last).lines, data, r.pos, spans)
    {
      HeaderAccepted(r, data, last, spans);
    }
  }

  function Parts(l: Line): (nat, nat, nat, nat) {
    (l.nameStart, l.nameEnd, l.start, l.end)
  }

  lemma NothingHashed()
    ensures HashOf([]) == 0
  {
  }

  lemma NextHashed(s: seq<Byte>, k: nat, hash: nat)
    requires k < |s| && HashOf(s[..k]) == hash
    ensures HashOf(s[..k + 1]) == Hash(hash, s[k])
  {
    assert s[..k + 1] == s[..k] + [s[k]];
    HashGrows(s[..k], s[k]);
  }

  lemma HashOfName(s: seq<Byte>)
    requires s == [115, 101, 99, 45, 97]
    ensures HashOf(s) == 109310437
  {
    hide HashOf;
    NothingHashed();
    assert s[..0] == [];
    NextHashed(s, 0, 0);
    NextHashed(s, 1, 115);
    NextHashed(s, 2, 3666);
    NextHashed(s, 3, 113745);
    NextHashed(s, 4, 3526140);
    assert s[..5] == s;
  }

  /** The text `Sec-A: x `, `B_:` and an empty line. */
  ghost predicate IsExample(data: seq<Byte>) {
    data == [83, 101, 99, 45, 65, 58, 32, 120, 32, 13, 10, 66, 95, 58, 10, 13, 10]
  }

  lemma ExampleIsHeader(data: seq<Byte>)
    requires IsExample(data)
    ensures IsHeader(data, 0, 17, [Span(5, 7, 8, 10), Span(13, 14, 14, 14)])
  {
    var s, s' := Span(5, 7, 8, 10), Span(13, 14, 14, 14);
    assert IsLine(data, 0, 5, 7, 8, 10);
    assert IsLine(data, 11, 13, 14, 14, 14);
    hide IsLine, IsExample;
    assert EmptyLine(data, 15, 16);
    assert [s, s'][1..] == [s'] && [s'][1..] == [];
    assert IsHeader(data, 15, 17, []);
    assert IsHeader(data, 11, 17, [s']);
  }

  lemma ExampleNames(data: seq<Byte>)
    requires IsExample(data)
    ensures AllNameBytes(data, 0, 5, true) && AllNameBytes(data, 11, 13, true)
    ensures Lower(data[0..5]) == [115, 101, 99, 45, 97]
  {
  }

  lemma ExampleRing(l: Line)
    requires LineOk(l) && Collected(l, [115, 101, 99, 45, 97])
    ensures l.hash == 109310437 && l.lowcase[..5] == [115, 101, 99, 45, 97]
  {
    HashOfName([115, 101, 99, 45, 97]);
    hide HashOf;
    assert forall k | 0 <= k < 5 :: k % LC_HEADER_LEN == k;
  }

  /** Two names with all their bytes valid, where the parts of the lines are, and the hash and the ring of one. */
  lemma ExampleParsed(r: Request, data: seq<Byte>)
    requires LineOk(r.line) && r.line.state == Start && r.pos == 0 && IsExample(data)
    ensures var a := ParseAll(r, data, 17);
            && a.code == HEADER_DONE && |a.lines| == 2
            && LineOk(a.lines[0]) && Parts(a.lines[0]) == (0, 5, 7, 8) && a.lines[0].hash == 109310437
            && a.lines[0].lowcase[..5] == [115, 101, 99, 45, 97]
            && Parts(a.lines[1]) == (11, 13, 14, 14)
  {
    hide ParseAll, IsHeader, IsLine, AllNameBytes, Lower, Collected;
    var s, s' := Span(5, 7, 8, 10), Span(13, 14, 14, 14);
    ExampleIsHeader(data);
    HeaderAccepted(r, data, 17, [s, s']);
    ExampleNames(data);
    hide IsExample;
    var lines := ParseAll(r, data, 17).lines;
    assert [s, s'][1..] == [s'] && [s'][1..] == [];
    assert lines != [] && Describes(lines[0], data, 0, s) && ValidLines(lines[1..], data, 11, [s']);
    assert lines[1..] != [] && Describes(lines[1..][0], data, 11, s') && ValidLines(lines[1..][1..], data, 15, []);
    ExampleRing(lines[0]);
  }
}
