/** The state machine of `ngx_http_parse_header_line`, one byte at a time, and how it is called. */
module HeaderStep {
  type Byte = b: nat | b < 256

  const NUL: Byte := 0
  const LF: Byte := 10
  const CR: Byte := 13
  const SPACE: Byte := 32
  const DASH: Byte := 45
  const COLON: Byte := 58
  const UNDERSCORE: Byte := 95

  /** `NGX_HTTP_LC_HEADER_LEN` */
  const LC_HEADER_LEN: nat := 32

  const TWO_TO_64: nat := 0x1_0000_0000_0000_0000

  /** `ngx_hash`, on 64-bit words */
  function Hash(key: nat, c: Byte): nat {
    (key * 31 + c) % TWO_TO_64
  }

  /** The table `lowcase`. */
  function Lowcase(ch: Byte): Byte {
    if ch == DASH || 48 <= ch <= 57 || 97 <= ch <= 122 then ch
    else if 65 <= ch <= 90 then ch + 32
    else 0
  }

  datatype State =
    Start | Name | SpaceBeforeValue | Value | SpaceAfterValue | IgnoreLine | AlmostDone | HeaderAlmostDone

  /** The locals of the parser and the fields of the request that it writes; spans are positions in the buffer. */
  datatype Line = Line(
    state: State,
    hash: nat,
    index: nat,
    lowcase: seq<Byte>,
    invalid: bool,
    nameStart: nat,
    nameEnd: nat,
    start: nat,
    end: nat)

  datatype Outcome = More(line: Line) | Done(line: Line) | HeaderDone(line: Line) | Invalid(line: Line)

  /** A byte of a name goes into the hash and into the ring of lower-case bytes. */
  function Noted(l: Line, c: Byte): Line
    requires l.index < |l.lowcase|
  {
    l.(hash := Hash(l.hash, c), lowcase := l.lowcase[l.index := c], index := (l.index + 1) % LC_HEADER_LEN)
  }

  predicate LineOk(l: Line) {
    |l.lowcase| == LC_HEADER_LEN && l.index < LC_HEADER_LEN
  }

  function OnStart(l: Line, p: nat, ch: Byte, underscores: bool): Outcome
    requires LineOk(l)
  {
    var l1 := l.(nameStart := p, invalid := false);
    var l2 := l1.(state := Name);
    if ch == CR then More(l1.(end := p, state := HeaderAlmostDone))
    else if ch == LF then HeaderDone(l1.(end := p))
    else if Lowcase(ch) != 0 then More(Noted(l2.(hash := 0, index := 0), Lowcase(ch)))
    else if ch == UNDERSCORE then
      More(if underscores then Noted(l2.(hash := 0, index := 0), ch) else l2.(invalid := true))
    else if ch == NUL then Invalid(l2)
    else More(l2.(invalid := true))
  }

  function OnName(l: Line, p: nat, ch: Byte, underscores: bool): Outcome
    requires LineOk(l)
  {
    if Lowcase(ch) != 0 then More(Noted(l, Lowcase(ch)))
    else if ch == UNDERSCORE then More(if underscores then Noted(l, ch) else l.(invalid := true))
    else if ch == COLON then More(l.(nameEnd := p, state := SpaceBeforeValue))
    else if ch == CR then More(l.(nameEnd := p, start := p, end := p, state := AlmostDone))
    else if ch == LF then Done(l.(nameEnd := p, start := p, end := p))
    else if ch == NUL then Invalid(l)
    else More(l.(invalid := true))
  }

  function OnSpaceBefore(l: Line, p: nat, ch: Byte): Outcome {
    if ch == SPACE then More(l)
    else if ch == CR then More(l.(start := p, end := p, state := AlmostDone))
    else if ch == LF then Done(l.(start := p, end := p))
    else if ch == NUL then Invalid(l)
    else More(l.(start := p, state := Value))
  }

  function OnValue(l: Line, p: nat, ch: Byte): Outcome {
    if ch == SPACE then More(l.(end := p, state := SpaceAfterValue))
    else if ch == CR then More(l.(end := p, state := AlmostDone))
    else if ch == LF then Done(l.(end := p))
    else if ch == NUL then Invalid(l)
    else More(l)
  }

  function OnSpaceAfter(l: Line, ch: Byte): Outcome {
    if ch == SPACE then More(l)
    else if ch == CR then More(l.(state := AlmostDone))
    else if ch == LF then Done(l)
    else if ch == NUL then Invalid(l)
    else More(l.(state := Value))
  }

  /** The byte `ch` at position `p`. */
  function Step(l: Line, p: nat, ch: Byte, underscores: bool): Outcome
    requires LineOk(l)
  {
    match l.state
    case Start => OnStart(l, p, ch, underscores)
    case Name => OnName(l, p, ch, underscores)
    case SpaceBeforeValue => OnSpaceBefore(l, p, ch)
    case Value => OnValue(l, p, ch)
    case SpaceAfterValue => OnSpaceAfter(l, ch)
    case IgnoreLine => More(if ch == LF then l.(state := Start) else l)
    case AlmostDone => if ch == LF then Done(l) else if ch == CR then More(l) else Invalid(l)
    case HeaderAlmostDone => if ch == LF then HeaderDone(l) else Invalid(l)
  }

  lemma StepKeepsLineOk(l: Line, p: nat, ch: Byte, underscores: bool)
    requires LineOk(l)
    ensures LineOk(Step(l, p, ch, underscores).line)
  {
  }

  datatype Code = AGAIN | OK | HEADER_DONE | INVALID_HEADER

  datatype Result = Result(code: Code, line: Line, pos: nat)

  /** The loop over the bytes from `p` to `last`. */
  function Scan(l: Line, data: seq<Byte>, p: nat, last: nat, underscores: bool): (r: Result)
    requires LineOk(l) && last <= |data|
    ensures LineOk(r.line)
    decreases last - p
  {
    if p >= last then Result(AGAIN, l, p)
    else
      StepKeepsLineOk(l, p, data[p], underscores);
      match Step(l, p, data[p], underscores)
      case More(l') => Scan(l', data, p + 1, last, underscores)
      case Done(l') => Result(OK, l', p + 1)
      case HeaderDone(l') => Result(HEADER_DONE, l', p + 1)
      case Invalid(l') => Result(INVALID_HEADER, l', p)
  }

  /** Stopping at `mid` and going on from there is the same as not stopping. */
  lemma {:induction false} ScanSplits(l: Line, data: seq<Byte>, p: nat, mid: nat, last: nat, underscores: bool)
    requires LineOk(l) && p <= mid <= last <= |data|
    ensures var r := Scan(l, data, p, mid, underscores);
            && (r.code == AGAIN ==> r.pos == mid)
            && Scan(l, data, p, last, underscores)
               == (if r.code == AGAIN then Scan(r.line, data, mid, last, underscores) else r)
    decreases mid - p
  {
    if p < mid {
      StepKeepsLineOk(l, p, data[p], underscores);
      match Step(l, p, data[p], underscores)
      case More(l') => ScanSplits(l', data, p + 1, mid, last, underscores);
      case _ =>
    }
  }

  /** Bytes before `p` and bytes from `last` on do not matter. */
  lemma {:induction false} ScanReadsOnly(l: Line, data: seq<Byte>, data': seq<Byte>, p: nat, last: nat,
                                         underscores: bool)
    requires LineOk(l) && p <= last <= |data| && last <= |data'| && data[p..last] == data'[p..last]
    ensures Scan(l, data, p, last, underscores) == Scan(l, data', p, last, underscores)
    decreases last - p
  {
    if p < last {
      assert data[p] == data[p..last][0] == data'[p];
      assert data[p + 1..last] == data[p..last][1..] == data'[p + 1..last];
      StepKeepsLineOk(l, p, data[p], underscores);
      match Step(l, p, data[p], underscores)
      case More(l') => ScanReadsOnly(l', data, data', p + 1, last, underscores);
      case _ =>
    }
  }

  lemma {:induction false} ScanMoves(l: Line, data: seq<Byte>, p: nat, last: nat, underscores: bool)
    requires LineOk(l) && p <= last <= |data|
    ensures var r := Scan(l, data, p, last, underscores);
            && p <= r.pos <= last && (r.code == OK ==> p < r.pos) && (r.code == AGAIN ==> r.pos == last)
            && (r.code == INVALID_HEADER ==> r.pos < last)
    decreases last - p
  {
    if p < last {
      StepKeepsLineOk(l, p, data[p], underscores);
      match Step(l, p, data[p], underscores)
      case More(l') => ScanMoves(l', data, p + 1, last, underscores);
      case _ =>
    }
  }

  /** What the request and the buffer keep between two calls. */
  datatype Request = Request(line: Line, pos: nat)

  /** What a call saves; the spans, the flag and the ring are written as the bytes come, the rest only here. */
  function Saved(r: Request, res: Result): Request {
    match res.code
    case AGAIN => Request(res.line, res.pos)
    case OK => Request(res.line.(state := Start), res.pos)
    case HEADER_DONE => Request(res.line.(state := Start, hash := r.line.hash, index := r.line.index), res.pos)
    case INVALID_HEADER => Request(res.line.(state := r.line.state, hash := r.line.hash, index := r.line.index), r.pos)
  }

  /** `ngx_http_parse_header_line` when the buffer has been filled up to `last`. */
  function Call(r: Request, data: seq<Byte>, last: nat, underscores: bool): (Code, Request)
    requires LineOk(r.line) && last <= |data|
  {
    var res := Scan(r.line, data, r.pos, last, underscores);
    (res.code, Saved(r, res))
  }

  lemma CallKeepsLineOk(r: Request, data: seq<Byte>, last: nat, underscores: bool)
    requires LineOk(r.line) && last <= |data|
    ensures LineOk(Call(r, data, last, underscores).1.line)
  {
  }

  /** The positions up to which the buffer is filled before each call. */
  ghost predicate Cuts(cuts: seq<nat>, pos: nat, size: nat) {
    && cuts != []
    && pos <= cuts[0]
    && (forall i, j | 0 <= i < j < |cuts| :: cuts[i] <= cuts[j])
    && cuts[|cuts| - 1] <= size
  }

  /** Call after call, as long as the parser asks for more. */
  ghost function Feed(r: Request, data: seq<Byte>, cuts: seq<nat>, underscores: bool): (Code, Request)
    requires LineOk(r.line) && Cuts(cuts, r.pos, |data|)
    decreases |cuts|
  {
    var (code, r') := Call(r, data, cuts[0], underscores);
    CallKeepsLineOk(r, data, cuts[0], underscores);
    AgainAtLast(r, data, cuts[0], underscores);
    if code == AGAIN && |cuts| > 1 then Feed(r', data, cuts[1..], underscores) else (code, r')
  }

  lemma AgainAtLast(r: Request, data: seq<Byte>, last: nat, underscores: bool)
    requires LineOk(r.line) && r.pos <= last <= |data|
    ensures Call(r, data, last, underscores).0 == AGAIN ==> Call(r, data, last, underscores).1.pos == last
  {
    ScanSplits(r.line, data, r.pos, last, last, underscores);
  }

  /** Everything except what is saved only at the end of a call. */
  ghost predicate SameSpans(a: Line, b: Line) {
    && a.lowcase == b.lowcase && a.invalid == b.invalid
    && a.nameStart == b.nameStart && a.nameEnd == b.nameEnd && a.start == b.start && a.end == b.end
  }

  ghost predicate SameAnswer(a: (Code, Request), b: (Code, Request)) {
    && a.0 == b.0
    && SameSpans(a.1.line, b.1.line)
    && (a.0 != INVALID_HEADER ==> a == b)
  }

  predicate BeforeName(s: State) {
    s == Start || s == IgnoreLine || s == HeaderAlmostDone
  }

  /** At the end of the header, the hash and the index are those of the line before. */
  lemma {:induction false} DoneKeepsHash(l: Line, data: seq<Byte>, p: nat, last: nat, underscores: bool)
    requires LineOk(l) && last <= |data|
    ensures var r := Scan(l, data, p, last, underscores);
            (r.code == HEADER_DONE || BeforeName(r.line.state)) && r.code != OK ==>
              BeforeName(l.state) && r.line.hash == l.hash && r.line.index == l.index
    decreases last - p
  {
    if p < last {
      StepKeepsLineOk(l, p, data[p], underscores);
      match Step(l, p, data[p], underscores)
      case More(l') => DoneKeepsHash(l', data, p + 1, last, underscores);
      case _ =>
    }
  }

  /** One cut. */
  lemma CallSplits(r: Request, data: seq<Byte>, mid: nat, last: nat, underscores: bool)
    requires LineOk(r.line) && r.pos <= mid <= last <= |data|
    ensures var a := Call(r, data, mid, underscores); var b := Call(r, data, last, underscores);
            if a.0 == AGAIN then LineOk(a.1.line) && SameAnswer(Call(a.1, data, last, underscores), b) else b == a
  {
    ScanSplits(r.line, data, r.pos, mid, last, underscores);
    DoneKeepsHash(r.line, data, r.pos, mid, underscores);
    var a := Scan(r.line, data, r.pos, mid, underscores);
    if a.code == AGAIN {
      DoneKeepsHash(a.line, data, mid, last, underscores);
    }
  }

  /** However the bytes come, the answer is the one of a single call on all of them. */
  lemma {:induction false} SplitIndependent(r: Request, data: seq<Byte>, cuts: seq<nat>, underscores: bool)
    requires LineOk(r.line) && Cuts(cuts, r.pos, |data|)
    ensures SameAnswer(Feed(r, data, cuts, underscores), Call(r, data, cuts[|cuts| - 1], underscores))
    decreases |cuts|
  {
    var last := cuts[|cuts| - 1];
    var (code, r') := Call(r, data, cuts[0], underscores);
    CallSplits(r, data, cuts[0], last, underscores);
    AgainAtLast(r, data, cuts[0], underscores);
    if code == AGAIN && |cuts| > 1 {
      SplitIndependent(r', data, cuts[1..], underscores);
    }
  }

  /** More bytes: an answer that was not final is replaced by the one of the next call. What the buffer holds
      beyond the last cut does not matter before. */
  lemma {:induction false} FeedGoesOn(r: Request, data: seq<Byte>, data': seq<Byte>, cuts: seq<nat>, next: nat,
                                      underscores: bool)
    requires LineOk(r.line) && Cuts(cuts, r.pos, |data|) && cuts[|cuts| - 1] <= next <= |data'|
    requires data[..cuts[|cuts| - 1]] == data'[..cuts[|cuts| - 1]]
    ensures Cuts(cuts + [next], r.pos, |data'|)
    ensures var a := Feed(r, data, cuts, underscores);
            && LineOk(a.1.line)
            && Feed(r, data', cuts + [next], underscores)
               == if a.0 == AGAIN then Call(a.1, data', next, underscores) else a
    decreases |cuts|
  {
    var last := cuts[0];
    assert data[r.pos..last] == data[..cuts[|cuts| - 1]][r.pos..last] == data'[r.pos..last];
    ScanReadsOnly(r.line, data, data', r.pos, last, underscores);
    var (code, r') := Call(r, data, last, underscores);
    CallKeepsLineOk(r, data, last, underscores);
    AgainAtLast(r, data, last, underscores);
    assert (cuts + [next])[1..] == cuts[1..] + [next];
    if code == AGAIN {
      if |cuts| > 1 {
        FeedGoesOn(r', data, data', cuts[1..], next, underscores);
      } else {
        assert cuts[1..] + [next] == [next];
      }
    }
  }

  lemma {:induction false} FeedForward(r: Request, data: seq<Byte>, cuts: seq<nat>, underscores: bool)
    requires LineOk(r.line) && Cuts(cuts, r.pos, |data|)
    ensures r.pos <= Feed(r, data, cuts, underscores).1.pos
    decreases |cuts|
  {
    var (code, r') := Call(r, data, cuts[0], underscores);
    CallKeepsLineOk(r, data, cuts[0], underscores);
    ScanMoves(r.line, data, r.pos, cuts[0], underscores);
    if code == AGAIN && |cuts| > 1 {
      FeedForward(r', data, cuts[1..], underscores);
    }
  }

  /** No call ended between the position `from` and a bad byte at `bad`. */
  ghost predicate NoneBetween(cuts: seq<nat>, from: nat, bad: nat) {
    forall k | 0 <= k < |cuts| :: cuts[k] == from || cuts[k] > bad
  }

  lemma NoneBetweenSplits(cuts: seq<nat>, from: nat, bad: nat)
    requires cuts != []
    ensures NoneBetween(cuts, from, bad) <==> (cuts[0] == from || cuts[0] > bad) && NoneBetween(cuts[1..], from, bad)
  {
    if NoneBetween(cuts[1..], from, bad) {
      forall k | 0 < k < |cuts|
        ensures cuts[k] == from || cuts[k] > bad
      {
        assert cuts[k] == cuts[1..][k - 1];
      }
    }
  }

  /** On a bad byte nothing is saved, so the request still shows where the last call began: it is the one that a
      single call leaves exactly if all earlier calls had no bytes of the line, and then its position says so. */
  lemma {:induction false} InvalidShowsCut(r: Request, data: seq<Byte>, cuts: seq<nat>, underscores: bool)
    requires LineOk(r.line) && Cuts(cuts, r.pos, |data|)
    requires Feed(r, data, cuts, underscores).0 == INVALID_HEADER
    ensures var last := cuts[|cuts| - 1];
            var bad := Scan(r.line, data, r.pos, last, underscores).pos;
            var fed := Feed(r, data, cuts, underscores).1;
            && (fed == Call(r, data, last, underscores).1 <==> NoneBetween(cuts, r.pos, bad))
            && (fed.pos == r.pos <==> NoneBetween(cuts, r.pos, bad))
    decreases |cuts|
  {
    hide Scan, Saved;
    var last := cuts[|cuts| - 1];
    var (code, r') := Call(r, data, cuts[0], underscores);
    SplitIndependent(r, data, cuts, underscores);
    CallKeepsLineOk(r, data, cuts[0], underscores);
    AgainAtLast(r, data, cuts[0], underscores);
    InvalidSplits(r, data, cuts[0], last, underscores);
    NoneBetweenSplits(cuts, r.pos, Scan(r.line, data, r.pos, last, underscores).pos);
    if code == AGAIN && |cuts| > 1 {
      FeedForward(r', data, cuts[1..], underscores);
      if cuts[0] == r.pos {
        InvalidShowsCut(r, data, cuts[1..], underscores);
      }
    }
  }

  /** Where the bad byte is, whether a call ends before it or not. */
  lemma InvalidSplits(r: Request, data: seq<Byte>, mid: nat, last: nat, underscores: bool)
    requires LineOk(r.line) && r.pos <= mid <= last <= |data|
    requires Call(r, data, last, underscores).0 == INVALID_HEADER
    ensures var bad := Scan(r.line, data, r.pos, last, underscores).pos;
            var (code, r') := Call(r, data, mid, underscores);
            && Call(r, data, last, underscores).1.pos == r.pos
            && (code == AGAIN ==> mid <= bad && (mid == r.pos ==> r' == r))
            && (code != AGAIN ==> bad < mid && Call(r, data, last, underscores) == (code, r'))
  {
    ScanSplits(r.line, data, r.pos, mid, last, underscores);
    ScanMoves(r.line, data, r.pos, mid, underscores);
    CallKeepsLineOk(r, data, mid, underscores);
    var a := Scan(r.line, data, r.pos, mid, underscores);
    if a.code == AGAIN {
      ScanMoves(a.line, data, mid, last, underscores);
    }
  }

  /** A line with a NUL, in one piece and cut before the NUL. */
  lemma InvalidDiffers(r: Request)
    requires LineOk(r.line) && r.line.state == Start && r.pos == 0
    ensures var data := [97, NUL];
            var whole, first := Call(r, data, 2, true), Call(r, data, 1, true);
            && whole.0 == INVALID_HEADER && whole.1.line.state == Start
            && first.0 == AGAIN && LineOk(first.1.line)
            && Call(first.1, data, 2, true).0 == INVALID_HEADER && Call(first.1, data, 2, true).1.line.state == Name
  {
    var data := [97, NUL];
    var l := Step(r.line, 0, 97, true).line;
    StepKeepsLineOk(r.line, 0, 97, true);
    assert Scan(l, data, 1, 2, true) == Result(INVALID_HEADER, l, 1);
    assert Scan(l, data, 1, 1, true) == Result(AGAIN, l, 1);
    assert Scan(r.line, data, 0, 2, true) == Scan(l, data, 1, 2, true);
    assert Scan(r.line, data, 0, 1, true) == Scan(l, data, 1, 1, true);
  }
}
