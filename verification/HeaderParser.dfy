/** `ngx_http_parse_header_line` on the request and its buffer. */
module HeaderParser {
  import opened HeaderStep

  /** Where control goes after a byte. */
  datatype Next = Loop | GotoDone | GotoHeaderDone | ReturnInvalid

  function OutcomeOf(n: Next, l: Line): Outcome {
    match n
    case Loop => More(l)
    case GotoDone => Done(l)
    case GotoHeaderDone => HeaderStep.HeaderDone(l)
    case ReturnInvalid => Invalid(l)
  }

  /** `ngx_buf_t`: the bytes from `pos` to `last` have been read from the socket but not yet parsed. What came
      from the socket is `raw`; the header's handler writes to the part that has been parsed. */
  class Buffer {
    const data: array<Byte>
    var pos: nat
    var last: nat
    ghost var raw: seq<Byte>

    constructor (data: array<Byte>)
      ensures this.data == data && pos == last == 0 && raw == []
    {
      this.data, pos, last, raw := data, 0, 0, [];
    }

    /** From `p` on, the buffer holds what came. */
    ghost predicate Holds(p: nat)
      reads this, data
    {
      && p <= pos <= last == |raw| && last <= data.Length
      && forall k | p <= k < last :: data[k] == raw[k]
    }
  }

  /** The fields of `ngx_http_request_t` that the parser uses. */
  class Request {
    var state: State
    var headerHash: nat
    var lowcaseIndex: nat
    const lowcaseHeader: array<Byte>
    var invalidHeader: bool
    var headerNameStart: nat
    var headerNameEnd: nat
    var headerStart: nat
    var headerEnd: nat

    constructor ()
      ensures LineOk(View()) && fresh(lowcaseHeader)
      ensures View() == Line(Start, 0, 0, seq(LC_HEADER_LEN, _ => 0), false, 0, 0, 0, 0)
    {
      state, headerHash, lowcaseIndex := Start, 0, 0;
      lowcaseHeader := new Byte[LC_HEADER_LEN](_ => 0);
      invalidHeader := false;
      headerNameStart, headerNameEnd, headerStart, headerEnd := 0, 0, 0, 0;
    }

    /** The fields, together with the locals of the parser. */
    ghost function Now(state: State, hash: nat, i: nat): Line
      reads this, lowcaseHeader
    {
      Line(state, hash, i, lowcaseHeader[..], invalidHeader, headerNameStart, headerNameEnd, headerStart, headerEnd)
    }

    ghost function View(): Line
      reads this, lowcaseHeader
    {
      Now(state, headerHash, lowcaseIndex)
    }

    /** `case sw_start` */
    method AtStart(p: nat, ch: Byte, underscores: bool, hash0: nat, i0: nat)
      returns (next: Next, state: State, hash: nat, i: nat)
      requires LineOk(Now(Start, hash0, i0))
      modifies this, lowcaseHeader
      ensures unchanged(`state) && unchanged(`headerHash) && unchanged(`lowcaseIndex)
      ensures OutcomeOf(next, Now(state, hash, i)) == OnStart(old(Now(Start, hash0, i0)), p, ch, underscores)
    {
      next, state, hash, i := Loop, Start, hash0, i0;
      headerNameStart := p;
      invalidHeader := false;
      if ch == CR {
        headerEnd := p;
        state := HeaderAlmostDone;
      } else if ch == LF {
        headerEnd := p;
        next := GotoHeaderDone;
      } else {
        state := Name;
        var c := Lowcase(ch);
        if c != 0 {
          hash := Hash(0, c);
          lowcaseHeader[0] := c;
          i := 1;
        } else if ch == UNDERSCORE {
          if underscores {
            hash := Hash(0, ch);
            lowcaseHeader[0] := ch;
            i := 1;
          } else {
            invalidHeader := true;
          }
        } else if ch == NUL {
          next := ReturnInvalid;
        } else {
          invalidHeader := true;
        }
      }
    }

    /** `case sw_name` */
    method AtName(p: nat, ch: Byte, underscores: bool, hash0: nat, i0: nat)
      returns (next: Next, state: State, hash: nat, i: nat)
      requires LineOk(Now(Name, hash0, i0))
      modifies this, lowcaseHeader
      ensures unchanged(`state) && unchanged(`headerHash) && unchanged(`lowcaseIndex)
      ensures OutcomeOf(next, Now(state, hash, i)) == OnName(old(Now(Name, hash0, i0)), p, ch, underscores)
    {
      next, state, hash, i := Loop, Name, hash0, i0;
      var c := Lowcase(ch);
      if c != 0 {
        hash := Hash(hash, c);
        lowcaseHeader[i] := c;
        i := (i + 1) % LC_HEADER_LEN;
      } else if ch == UNDERSCORE {
        if underscores {
          hash := Hash(hash, ch);
          lowcaseHeader[i] := ch;
          i := (i + 1) % LC_HEADER_LEN;
        } else {
          invalidHeader := true;
        }
      } else if ch == COLON {
        headerNameEnd := p;
        state := SpaceBeforeValue;
      } else if ch == CR {
        headerNameEnd, headerStart, headerEnd := p, p, p;
        state := AlmostDone;
      } else if ch == LF {
        headerNameEnd, headerStart, headerEnd := p, p, p;
        next := GotoDone;
      } else if ch == NUL {
        next := ReturnInvalid;
      } else {
        invalidHeader := true;
      }
    }

    /** The cases after the name. */
    method AfterName(p: nat, ch: Byte, state0: State, ghost hash: nat, ghost i: nat) returns (next: Next, state: State)
      requires state0 != Start && state0 != Name
      requires LineOk(Now(state0, hash, i))
      modifies this`headerStart, this`headerEnd
      ensures OutcomeOf(next, Now(state, hash, i)) == Step(old(Now(state0, hash, i)), p, ch, true)
    {
      next, state := Loop, state0;
      match state0
      case SpaceBeforeValue =>
        if ch == SPACE {
        } else if ch == CR {
          headerStart, headerEnd := p, p;
          state := AlmostDone;
        } else if ch == LF {
          headerStart, headerEnd := p, p;
          next := GotoDone;
        } else if ch == NUL {
          next := ReturnInvalid;
        } else {
          headerStart := p;
          state := Value;
        }
      case Value =>
        if ch == SPACE {
          headerEnd := p;
          state := SpaceAfterValue;
        } else if ch == CR {
          headerEnd := p;
          state := AlmostDone;
        } else if ch == LF {
          headerEnd := p;
          next := GotoDone;
        } else if ch == NUL {
          next := ReturnInvalid;
        }
      case SpaceAfterValue =>
        if ch == SPACE {
        } else if ch == CR {
          state := AlmostDone;
        } else if ch == LF {
          next := GotoDone;
        } else if ch == NUL {
          next := ReturnInvalid;
        } else {
          state := Value;
        }
      case IgnoreLine =>
        if ch == LF {
          state := Start;
        }
      case AlmostDone =>
        if ch == LF {
          next := GotoDone;
        } else if ch != CR {
          next := ReturnInvalid;
        }
      case HeaderAlmostDone =>
        if ch == LF {
          next := GotoHeaderDone;
        } else {
          next := ReturnInvalid;
        }
    }

    /** The body of the loop. */
    method OnByte(p: nat, ch: Byte, underscores: bool, state0: State, hash0: nat, i0: nat)
      returns (next: Next, state: State, hash: nat, i: nat)
      requires LineOk(Now(state0, hash0, i0))
      modifies this, lowcaseHeader
      ensures unchanged(`state) && unchanged(`headerHash) && unchanged(`lowcaseIndex)
      ensures OutcomeOf(next, Now(state, hash, i)) == Step(old(Now(state0, hash0, i0)), p, ch, underscores)
    {
      if state0 == Start {
        next, state, hash, i := AtStart(p, ch, underscores, hash0, i0);
      } else if state0 == Name {
        next, state, hash, i := AtName(p, ch, underscores, hash0, i0);
      } else {
        hash, i := hash0, i0;
        next, state := AfterName(p, ch, state0, hash, i);
      }
    }

    /** `ngx_http_parse_header_line` */
    method ParseHeaderLine(b: Buffer, underscores: bool) returns (code: Code)
      requires b.pos <= b.last <= b.data.Length && LineOk(View()) && lowcaseHeader != b.data
      modifies this, lowcaseHeader, b`pos
      ensures b.pos <= b.last
      ensures (code, HeaderStep.Request(View(), b.pos))
           == Call(old(HeaderStep.Request(View(), b.pos)), b.data[..], b.last, underscores)
    {
      var state, hash, i, p := this.state, headerHash, lowcaseIndex, b.pos;
      ghost var l0, data := View(), b.data[..];
      ghost var res := Scan(l0, data, b.pos, b.last, underscores);
      while p < b.last
        invariant b.pos == old(b.pos) <= p <= b.last && b.data[..] == data
        invariant unchanged(`state) && unchanged(`headerHash) && unchanged(`lowcaseIndex)
        invariant LineOk(Now(state, hash, i)) && Scan(Now(state, hash, i), data, p, b.last, underscores) == res
      {
        StepKeepsLineOk(Now(state, hash, i), p, data[p], underscores);
        var next;
        next, state, hash, i := OnByte(p, b.data[p], underscores, state, hash, i);
        match next
        case Loop =>
          p := p + 1;
        case GotoDone =>
          b.pos := p + 1;
          this.state := Start;
          headerHash := hash;
          lowcaseIndex := i;
          return OK;
        case GotoHeaderDone =>
          b.pos := p + 1;
          this.state := Start;
          return HEADER_DONE;
        case ReturnInvalid =>
          return INVALID_HEADER;
      }

      b.pos := p;
      this.state := state;
      headerHash := hash;
      lowcaseIndex := i;

      return AGAIN;
    }

    /** The same, in terms of what came from the socket. */
    method ParseRaw(b: Buffer, ghost p0: nat) returns (code: Code)
      requires b.Holds(p0) && LineOk(View()) && lowcaseHeader != b.data
      modifies this, lowcaseHeader, b`pos
      ensures b.Holds(p0) && LineOk(View())
      ensures (code, HeaderStep.Request(View(), b.pos))
           == Call(old(HeaderStep.Request(View(), b.pos)), b.raw, b.last, true)
    {
      ghost var r := HeaderStep.Request(View(), b.pos);
      assert b.data[..][b.pos..b.last] == b.raw[b.pos..b.last];
      ScanReadsOnly(r.line, b.data[..], b.raw, b.pos, b.last, true);
      ScanMoves(r.line, b.raw, b.pos, b.last, true);
      CallKeepsLineOk(r, b.raw, b.last, true);
      code := ParseHeaderLine(b, true);
    }
  }
}
