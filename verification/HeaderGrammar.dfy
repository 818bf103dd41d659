/** The parser accepts exactly the lines of `HeaderLine.IsLine`, with exactly their spans. */
module HeaderGrammar {
  import opened HeaderStep
  import opened HeaderLine

  /** The part of a line up to its value. */
  ghost predicate HeadOk(data: seq<Byte>, p0: nat, nameEnd: nat, start: nat)
    requires start < |data|
  {
    p0 < nameEnd < start && NameLike(data, p0, nameEnd) && data[nameEnd] == COLON && AllSpaces(data, nameEnd + 1, start)
  }

  /** A value that has begun, up to a byte of its own. */
  ghost predicate ValueOpen(data: seq<Byte>, start: nat, p: nat)
    requires p <= |data|
  {
    && start < p && data[start] != SPACE && data[p - 1] != SPACE
    && forall k | start <= k < p :: data[k] != CR && data[k] != LF && data[k] != NUL
  }

  /** A line but for its last bytes CR and LF. */
  ghost predicate BodyOk(data: seq<Byte>, p0: nat, nameEnd: nat, start: nat, end: nat)
    requires end < |data|
  {
    && p0 < nameEnd <= start <= end && NameLike(data, p0, nameEnd) && ValueSpan(data, start, end)
    && (if data[nameEnd] == COLON then
          nameEnd < start && AllSpaces(data, nameEnd + 1, start) && (start == end ==> data[end] != SPACE)
        else start == nameEnd == end && data[end] != SPACE)
  }

  /** What the parser knows when it has read the bytes from `p0` to `p` of a line. */
  ghost predicate Partial(l: Line, data: seq<Byte>, p0: nat, p: nat, underscores: bool)
    requires LineOk(l) && p <= |data|
  {
    match l.state
    case Start => p == p0
    case Name => p0 < p && NameLike(data, p0, p) && NameKnown(l, data, p0, p, underscores)
    case SpaceBeforeValue =>
      && l.nameEnd < p && p0 < l.nameEnd && NameLike(data, p0, l.nameEnd) && data[l.nameEnd] == COLON
      && AllSpaces(data, l.nameEnd + 1, p) && NameKnown(l, data, p0, l.nameEnd, underscores)
    case Value =>
      && l.start < p && HeadOk(data, p0, l.nameEnd, l.start) && ValueOpen(data, l.start, p)
      && NameKnown(l, data, p0, l.nameEnd, underscores)
    case SpaceAfterValue =>
      && l.start < l.end < p && HeadOk(data, p0, l.nameEnd, l.start) && ValueOpen(data, l.start, l.end)
      && AllSpaces(data, l.end, p) && NameKnown(l, data, p0, l.nameEnd, underscores)
    case IgnoreLine => false
    case AlmostDone =>
      && l.end < p && BodyOk(data, p0, l.nameEnd, l.start, l.end) && Tail(data, l.end, p) && data[p - 1] == CR
      && NameKnown(l, data, p0, l.nameEnd, underscores)
    case HeaderAlmostDone => p == p0 + 1 && data[p0] == CR && l.nameStart == p0 && l.end == p0
  }

  /** The line is complete; the LF is at `p`. */
  ghost predicate Complete(l: Line, data: seq<Byte>, p0: nat, p: nat, underscores: bool)
    requires LineOk(l) && p < |data|
  {
    IsLine(data, p0, l.nameEnd, l.start, l.end, p) && NameKnown(l, data, p0, l.nameEnd, underscores)
  }

  /** The empty line that ends the header; the LF is at `p`. */
  ghost predicate EmptyLine(data: seq<Byte>, p0: nat, p: nat)
    requires p < |data|
  {
    data[p] == LF && (p == p0 || (p == p0 + 1 && data[p0] == CR))
  }

  ghost predicate Expected(o: Outcome, data: seq<Byte>, p0: nat, p: nat, underscores: bool)
    requires LineOk(o.line) && p < |data|
  {
    match o
    case More(l) => l.state != Start && Partial(l, data, p0, p + 1, underscores)
    case Done(l) => Complete(l, data, p0, p, underscores)
    case HeaderDone(l) => EmptyLine(data, p0, p) && l.nameStart == l.end == p0
    case Invalid(l) => data[p] != LF
  }

  lemma StartStep(l: Line, data: seq<Byte>, p0: nat, underscores: bool)
    requires LineOk(l) && l.state == Start && p0 < |data|
    ensures LineOk(Step(l, p0, data[p0], underscores).line)
    ensures Expected(Step(l, p0, data[p0], underscores), data, p0, p0, underscores)
  {
    var ch := data[p0];
    if ch != CR && ch != LF && ch != NUL {
      var blank := l.(nameStart := p0, invalid := false, state := Name, hash := 0, index := 0);
      assert Collected(blank, Lower(data[p0..p0]));
      if NameByte(ch, underscores) {
        NameGrows(blank, Step(l, p0, ch, underscores).line, data, p0, p0, underscores);
      } else {
        assert !NameByte(data[p0], underscores);
      }
    }
  }

  lemma NameStep(l: Line, data: seq<Byte>, p0: nat, p: nat, underscores: bool)
    requires LineOk(l) && l.state == Name && p < |data| && Partial(l, data, p0, p, underscores)
    ensures LineOk(Step(l, p, data[p], underscores).line)
    ensures Expected(Step(l, p, data[p], underscores), data, p0, p, underscores)
  {
    hide HeadOk, ValueOpen;
    var ch, o := data[p], Step(l, p, data[p], underscores);
    if o.More? && o.line.state == Name {
      NameGrows(l, o.line, data, p0, p, underscores);
      if Lowcase(ch) != 0 {
        LowcaseIsLower(ch);
      }
    }
  }

  lemma SpaceBeforeStep(l: Line, data: seq<Byte>, p0: nat, p: nat, underscores: bool)
    requires LineOk(l) && l.state == SpaceBeforeValue && p < |data| && Partial(l, data, p0, p, underscores)
    ensures LineOk(Step(l, p, data[p], underscores).line)
    ensures Expected(Step(l, p, data[p], underscores), data, p0, p, underscores)
  {
  }

  lemma ValueStep(l: Line, data: seq<Byte>, p0: nat, p: nat, underscores: bool)
    requires LineOk(l) && l.state == Value && p < |data| && Partial(l, data, p0, p, underscores)
    ensures LineOk(Step(l, p, data[p], underscores).line)
    ensures Expected(Step(l, p, data[p], underscores), data, p0, p, underscores)
  {
  }

  lemma SpaceAfterStep(l: Line, data: seq<Byte>, p0: nat, p: nat, underscores: bool)
    requires LineOk(l) && l.state == SpaceAfterValue && p < |data| && Partial(l, data, p0, p, underscores)
    ensures LineOk(Step(l, p, data[p], underscores).line)
    ensures Expected(Step(l, p, data[p], underscores), data, p0, p, underscores)
  {
  }

  lemma AlmostDoneStep(l: Line, data: seq<Byte>, p0: nat, p: nat, underscores: bool)
    requires LineOk(l) && l.state == AlmostDone && p < |data| && Partial(l, data, p0, p, underscores)
    ensures LineOk(Step(l, p, data[p], underscores).line)
    ensures Expected(Step(l, p, data[p], underscores), data, p0, p, underscores)
  {
  }

  lemma OneStep(l: Line, data: seq<Byte>, p0: nat, p: nat, underscores: bool)
    requires LineOk(l) && p < |data| && Partial(l, data, p0, p, underscores)
    ensures LineOk(Step(l, p, data[p], underscores).line)
    ensures Expected(Step(l, p, data[p], underscores), data, p0, p, underscores)
  {
    match l.state
    case Start => StartStep(l, data, p0, underscores);
    case Name => NameStep(l, data, p0, p, underscores);
    case SpaceBeforeValue => SpaceBeforeStep(l, data, p0, p, underscores);
    case Value => ValueStep(l, data, p0, p, underscores);
    case SpaceAfterValue => SpaceAfterStep(l, data, p0, p, underscores);
    case AlmostDone => AlmostDoneStep(l, data, p0, p, underscores);
    case HeaderAlmostDone =>
  }

  /** What an answer means for a line that begins at `p0`. */
  ghost predicate Right(r: Result, data: seq<Byte>, p0: nat, p: nat, last: nat, underscores: bool)
    requires LineOk(r.line) && last <= |data|
  {
    match r.code
    case AGAIN => r.pos == last && Partial(r.line, data, p0, last, underscores)
    case OK => p < r.pos <= last && Complete(r.line, data, p0, r.pos - 1, underscores)
    case HEADER_DONE => p < r.pos <= last && EmptyLine(data, p0, r.pos - 1) && r.line.nameStart == r.line.end == p0
    case INVALID_HEADER => p <= r.pos < last && data[r.pos] != LF
  }

  lemma RightAtOnce(l: Line, data: seq<Byte>, p0: nat, p: nat, last: nat, underscores: bool)
    requires LineOk(l) && p < last <= |data| && Partial(l, data, p0, p, underscores)
    requires !Step(l, p, data[p], underscores).More?
    ensures Right(Scan(l, data, p, last, underscores), data, p0, p, last, underscores)
  {
    OneStep(l, data, p0, p, underscores);
  }

  lemma RightLater(r: Result, data: seq<Byte>, p0: nat, p: nat, last: nat, underscores: bool)
    requires LineOk(r.line) && p < last <= |data| && Right(r, data, p0, p + 1, last, underscores)
    ensures Right(r, data, p0, p, last, underscores)
  {
  }

  /** Every answer of the parser is right. */
  lemma {:induction false} Sound(l: Line, data: seq<Byte>, p0: nat, p: nat, last: nat, underscores: bool)
    requires LineOk(l) && p <= last <= |data| && Partial(l, data, p0, p, underscores)
    ensures Right(Scan(l, data, p, last, underscores), data, p0, p, last, underscores)
    decreases last - p
  {
    if p < last {
      var o := Step(l, p, data[p], underscores);
      if o.More? {
        OneStep(l, data, p0, p, underscores);
        Sound(o.line, data, p0, p + 1, last, underscores);
        RightLater(Scan(o.line, data, p + 1, last, underscores), data, p0, p, last, underscores);
      } else {
        RightAtOnce(l, data, p0, p, last, underscores);
      }
    }
  }

  // ---------- every line is recognised ----------

  /** Where the parser is, `p` bytes into the line with the given parts. */
  ghost predicate Tracks(l: Line, data: seq<Byte>, p0: nat, nameEnd: nat, start: nat, end: nat, q: nat, p: nat)
    requires q < |data| && p <= q
  {
    if p == p0 then l.state == Start
    else if p <= nameEnd then l.state == Name
    else if p <= start then l.state == SpaceBeforeValue && l.nameEnd == nameEnd
    else if p <= end && data[p - 1] != SPACE then l.state == Value && l.nameEnd == nameEnd && l.start == start
    else if p <= end then l.state == SpaceAfterValue && l.nameEnd == nameEnd && l.start == start
    else if data[p - 1] == SPACE then
      l.state == SpaceAfterValue && l.nameEnd == nameEnd && l.start == start && l.end == end
    else l.state == AlmostDone && l.nameEnd == nameEnd && l.start == start && l.end == end
  }

  lemma TrackStep(l: Line, data: seq<Byte>, p0: nat, nameEnd: nat, start: nat, end: nat, q: nat, p: nat,
                  underscores: bool)
    requires LineOk(l) && q < |data| && IsLine(data, p0, nameEnd, start, end, q)
    requires p0 <= p <= q && Tracks(l, data, p0, nameEnd, start, end, q, p)
    ensures var o := Step(l, p, data[p], underscores);
            if p == q then o.Done? && o.line.nameEnd == nameEnd && o.line.start == start && o.line.end == end
            else o.More? && LineOk(o.line) && Tracks(o.line, data, p0, nameEnd, start, end, q, p + 1)
  {
  }

  /** Every line is recognised, up to its LF and with its spans. */
  lemma {:induction false} Recognised(l: Line, data: seq<Byte>, p0: nat, nameEnd: nat, start: nat, end: nat, q: nat,
                                      p: nat, last: nat, underscores: bool)
    requires LineOk(l) && q < last <= |data| && IsLine(data, p0, nameEnd, start, end, q)
    requires p0 <= p <= q && Tracks(l, data, p0, nameEnd, start, end, q, p)
    ensures var r := Scan(l, data, p, last, underscores);
            r.code == OK && r.pos == q + 1 && r.line.nameEnd == nameEnd && r.line.start == start && r.line.end == end
    decreases q - p
  {
    TrackStep(l, data, p0, nameEnd, start, end, q, p, underscores);
    if p < q {
      Recognised(Step(l, p, data[p], underscores).line, data, p0, nameEnd, start, end, q, p + 1, last, underscores);
    }
  }

  /** A line is accepted exactly if it has a form, and then its spans are the only ones of that form. */
  lemma AcceptsExactly(l: Line, data: seq<Byte>, p0: nat, last: nat, underscores: bool)
    requires LineOk(l) && l.state == Start && p0 <= last <= |data|
    ensures var r := Scan(l, data, p0, last, underscores);
            && (r.code == OK ==> p0 < r.pos <= last && Complete(r.line, data, p0, r.pos - 1, underscores))
            && forall nameEnd, start, end, q: nat | q < last && IsLine(data, p0, nameEnd, start, end, q) ::
                 && r.code == OK && r.pos == q + 1
                 && r.line.nameEnd == nameEnd && r.line.start == start && r.line.end == end
  {
    Sound(l, data, p0, p0, last, underscores);
    forall nameEnd, start, end, q: nat | q < last && IsLine(data, p0, nameEnd, start, end, q)
      ensures var r := Scan(l, data, p0, last, underscores);
              r.code == OK && r.pos == q + 1 && r.line.nameEnd == nameEnd && r.line.start == start && r.line.end == end
    {
      Recognised(l, data, p0, nameEnd, start, end, q, p0, last, underscores);
    }
  }

  /** The end of the header is accepted exactly where there is an empty line. */
  lemma DoneExactly(l: Line, data: seq<Byte>, p0: nat, last: nat, underscores: bool)
    requires LineOk(l) && l.state == Start && p0 <= last <= |data|
    ensures var r := Scan(l, data, p0, last, underscores);
            && (r.code == HEADER_DONE ==> p0 < r.pos <= last && EmptyLine(data, p0, r.pos - 1))
            && forall q: nat | q < last && EmptyLine(data, p0, q) :: r.code == HEADER_DONE && r.pos == q + 1
  {
    Sound(l, data, p0, p0, last, underscores);
    forall q: nat | q < last && EmptyLine(data, p0, q)
      ensures var r := Scan(l, data, p0, last, underscores); r.code == HEADER_DONE && r.pos == q + 1
    {
      StepKeepsLineOk(l, p0, data[p0], underscores);
      if q == p0 + 1 {
        var l' := Step(l, p0, data[p0], underscores).line;
        assert Scan(l, data, p0, last, underscores) == Scan(l', data, p0 + 1, last, underscores);
      }
    }
  }
}
