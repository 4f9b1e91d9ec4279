/**
 octetcounting/scanner.go and octetcounting/parser.go: the token scanner and the
 parser loop of octet-counting framing (section 3.4.1 of RFC 6587). A reader is the
 octets it will yield and the size of its buffer.
 */
module OctetCounting {
  import opened Bytes
  import opened Functions

  const NUL: byte := 0
  const DEFAULT_MAX_SIZE := 8192
  const MAX_INT := 0x7FFF_FFFF_FFFF_FFFF
  const MAX_UINT64 := 0xFFFF_FFFF_FFFF_FFFF

  datatype TokenType = Illegal | Eof | NewLine | Space | MsgLen | SyslogMsg

  datatype Token = Token(typ: TokenType, lit: bytes)

  const INVALID_LENGTH: bytes := Ascii("invalid message length")
  const TOO_LARGE: bytes := Ascii("message length (%d)") + Ascii(" exceeds maximum length (%d)")
  const EXCEEDS_INT_LIMIT: bytes := Ascii("message length exceeds system limit")

  // ------------------------------------------------------------------
  // The scanner

  /** The octets not yet read, the announced length, and whether a message may follow. */
  datatype Lexing = Lexing(rest: bytes, msglen: nat, ready: bool)

  /** The token of an announced length. */
  function LengthToken(maxlen: int, lit: bytes, next: Lexing): (Token, Lexing)
    requires AllDigits(lit)
  {
    NumNonNegative(lit);
    if Num(lit) > MAX_UINT64 then (Token(Illegal, INVALID_LENGTH), next)
    else if Num(lit) > maxlen then (Token(Illegal, TOO_LARGE), next.(msglen := Num(lit)))
    else (Token(MsgLen, lit), next.(msglen := Num(lit)))
  }

  /** A series of digits; a NUL after it is consumed like the end of the input. */
  function LexMsgLen(maxlen: int, s: Lexing): (Token, Lexing) {
    var n := DigitRun(s.rest);
    var k := if n < |s.rest| && s.rest[n] == NUL then n + 1 else n;
    LengthToken(maxlen, s.rest[..n], s.(rest := s.rest[k..]))
  }

  lemma LengthRead(maxlen: int, s: Lexing, n: nat)
    requires n <= |s.rest| && AllDigits(s.rest[..n]) && (n < |s.rest| ==> !IsDigit(s.rest[n]))
    ensures var k := if n < |s.rest| && s.rest[n] == NUL then n + 1 else n;
            LexMsgLen(maxlen, s) == LengthToken(maxlen, s.rest[..n], s.(rest := s.rest[k..]))
    ensures Num(s.rest[..n]) >= 0
  {
    hide Num, DigitRun;
    DigitRunIs(s.rest, n);
    NumNonNegative(s.rest[..n]);
  }

  /** The announced octets; with fewer in the reader, or in its buffer, what there is. */
  function LexSyslogMsg(size: nat, s: Lexing): (Token, Lexing) {
    var n := s.msglen;
    if n > MAX_INT then (Token(Illegal, EXCEEDS_INT_LIMIT), s.(ready := false, msglen := 0))
    else if n > |s.rest| || n > size then (Token(Eof, s.rest[..if |s.rest| < size then |s.rest| else size]), s)
    else (Token(SyslogMsg, s.rest[..n]), Lexing(s.rest[n..], 0, false))
  }

  function Lex(maxlen: int, size: nat, s: Lexing): (Token, Lexing) {
    if s.rest == [] then (Token(Eof, []), s.(ready := false))
    else
      var b, next := s.rest[0], s.(rest := s.rest[1..]);
      if 49 <= b <= NINE then LexMsgLen(maxlen, s.(ready := false))
      else if b == NUL then (Token(Eof, []), next.(ready := false))
      else if b == LF then (Token(NewLine, [LF]), next.(ready := true))
      else if b == SP then (Token(Space, [SP]), next.(ready := true))
      else if b == LT && s.msglen > 0 && s.ready then LexSyslogMsg(size, s)
      else (Token(Illegal, [b]), next)
  }

  class Scanner {
    const input: bytes
    const size: nat
    var pos: nat
    var msglen: nat
    var ready: bool
    var maxlen: int

    /** The buffer holds at least maxLength + 20 octets. */
    constructor (input: bytes, maxLength: int, size: nat)
      requires maxLength <= MAX_INT - 20
      requires size >= 20 + if maxLength <= 0 then DEFAULT_MAX_SIZE else maxLength
      ensures Valid() && State() == Lexing(input, 0, false) && this.size == size
      ensures maxlen == if maxLength <= 0 then DEFAULT_MAX_SIZE else maxLength
    {
      this.input, this.size := input, size;
      pos, msglen, ready := 0, 0, false;
      maxlen := if maxLength <= 0 then DEFAULT_MAX_SIZE else maxLength;
    }

    predicate Valid()
      reads this
    {
      pos <= |input| && 1 <= maxlen <= size - 20 && maxlen <= MAX_INT
    }

    function State(): Lexing
      requires Valid()
      reads this
    {
      Lexing(input[pos..], msglen, ready)
    }

    /** The next octet, or NUL at the end of the input. */
    method Read() returns (b: byte)
      requires Valid()
      modifies this`pos
      ensures Valid()
      ensures b == if old(pos) < |input| then input[old(pos)] else NUL
      ensures pos == if old(pos) < |input| then old(pos) + 1 else old(pos)
    {
      if pos == |input| {
        return NUL;
      }
      b := input[pos];
      pos := pos + 1;
    }

    method Unread()
      requires Valid() && pos > 0
      modifies this`pos
      ensures Valid() && pos == old(pos) - 1
    {
      pos := pos - 1;
    }

    method Scan() returns (tok: Token)
      requires Valid()
      modifies this
      ensures Valid() && maxlen == old(maxlen)
      ensures (tok, State()) == Lex(maxlen, size, old(State()))
    {
      hide LexMsgLen, LexSyslogMsg;
      var b := Read();
      if 49 <= b <= NINE {
        Unread();
        ready := false;
        tok := ScanMsgLen();
        return;
      }
      if b == NUL {
        ready := false;
        return Token(Eof, []);
      } else if b == LF {
        ready := true;
        return Token(NewLine, [LF]);
      } else if b == SP {
        ready := true;
        return Token(Space, [SP]);
      } else if b == LT {
        if msglen > 0 && ready {
          Unread();
          tok := ScanSyslogMsg();
          return;
        }
      }
      return Token(Illegal, [b]);
    }

    method ScanMsgLen() returns (tok: Token)
      requires Valid() && pos < |input| && 49 <= input[pos] <= NINE
      modifies this
      ensures Valid() && maxlen == old(maxlen)
      ensures (tok, State()) == LexMsgLen(maxlen, old(State()))
    {
      hide LexMsgLen, DigitRun, Num;
      ghost var start, rest := pos, input[pos..];
      var b := Read();
      var buf := [b];
      assert rest[..1] == buf;
      while true
        invariant start < pos <= |input| && Valid() && maxlen == old(maxlen)
        invariant msglen == old(msglen) && ready == old(ready)
        invariant pos == start + |buf| && buf == rest[..|buf|] && AllDigits(buf)
        decreases |input| - pos
      {
        b := Read();
        if b == NUL {
          break;
        } else if !IsDigit(b) {
          Unread();
          break;
        } else {
          assert rest[..|buf| + 1] == rest[..|buf|] + [b];
          buf := buf + [b];
        }
      }
      LengthRead(maxlen, old(State()), |buf|);
      assert input[pos..] == rest[pos - start..];
      var l := Num(buf);
      if l > MAX_UINT64 {
        return Token(Illegal, INVALID_LENGTH);
      }
      if l > maxlen {
        msglen := l;
        return Token(Illegal, TOO_LARGE);
      }
      msglen := l;
      return Token(MsgLen, buf);
    }

    method ScanSyslogMsg() returns (tok: Token)
      requires Valid()
      modifies this
      ensures Valid() && maxlen == old(maxlen)
      ensures (tok, State()) == LexSyslogMsg(size, old(State()))
    {
      if msglen > MAX_INT {
        ready := false;
        msglen := 0;
        return Token(Illegal, EXCEEDS_INT_LIMIT);
      }
      var n := msglen;
      var b, short := Peek(n);
      if short {
        return Token(Eof, b);
      }
      pos := pos + n;
      ready := false;
      msglen := 0;
      return Token(SyslogMsg, b);
    }

    /** The next n octets, or an error with those that are left or fit the buffer. */
    method Peek(n: nat) returns (b: bytes, short: bool)
      requires Valid()
      ensures short <==> n > |input[pos..]| || n > size
      ensures b == if !short then input[pos..][..n]
                   else input[pos..][..if |input[pos..]| < size then |input[pos..]| else size]
    {
      var left := input[pos..];
      var k := if |left| < size then |left| else size;
      short := n > k;
      b := left[..if short then k else n];
    }
  }

  // ------------------------------------------------------------------
  // The parser

  datatype Inner<M, E> = Inner(message: Option<M>, error: Option<E>)

  datatype StreamError<E> =
    | OfMessage(e: E)
    | InvalidLength
    | TooLarge(n: nat, max: int)
    | ExceedsIntLimit
    | Found(tok: Token, expected: TokenType)
    | Short(tok: Token, msglen: nat)

  datatype Result<M, E> = Result(message: Option<M>, error: Option<StreamError<E>>)

  /** The parser of the messages, and how the parser of the stream was made. */
  datatype Setup<!M, !E> = Setup(
    internal: bytes -> Inner<M, E>, bestEffort: bool, stripTrailingNL: bool, maxMessageLength: int)
  {
    function MaxLen(): (n: int)
      ensures n >= 1
    {
      if maxMessageLength <= 0 then DEFAULT_MAX_SIZE else maxMessageLength
    }
  }

  /** One trailing LF or CRLF is not part of the message. */
  function Stripped(strip: bool, input: bytes): bytes {
    if !strip || input == [] || input[|input| - 1] != LF then input
    else
      var s := input[..|input| - 1];
      if s != [] && s[|s| - 1] == CR then s[..|s| - 1] else s
  }

  /** The result of the inner parser. */
  function Handed<M, E>(k: Setup<M, E>, text: bytes): Result<M, E> {
    var r := k.internal(text);
    Result(r.message, if r.error.Some? then Some(OfMessage(r.error.value)) else None)
  }

  function Parsed<M, E>(k: Setup<M, E>, input: bytes): Result<M, E> {
    Handed(k, Stripped(k.stripTrailingNL, input))
  }

  function Failure<M, E>(e: StreamError<E>): Result<M, E> {
    Result(None, Some(e))
  }

  /** The result for a first token that is no length. */
  function NoLength<M, E>(k: Setup<M, E>, tok: Token, msglen: nat): Result<M, E> {
    if tok.typ == Illegal && tok.lit == INVALID_LENGTH then Failure(InvalidLength)
    else if tok.typ == Illegal && tok.lit == TOO_LARGE then Failure(TooLarge(msglen, k.maxMessageLength))
    else if tok.typ == Illegal && tok.lit == EXCEEDS_INT_LIMIT then Failure(ExceedsIntLimit)
    else Failure(Found(tok, MsgLen))
  }

  /** The conversion to int wraps around. */
  function ToInt(n: nat): int {
    if n > MAX_INT then n - MAX_UINT64 - 1 else n
  }

  /** The result for a third token that is no message: with best effort, what there is of one. */
  function NoMessage<M, E>(k: Setup<M, E>, tok: Token, msglen: nat): Result<M, E> {
    var e := Short(tok, msglen);
    if |tok.lit| < ToInt(msglen) && k.bestEffort then
      var r := Parsed(k, tok.lit);
      if r.error.None? then r.(error := Some(e)) else r
    else Failure(e)
  }

  /** The results of a stream; at its start no length is announced. */
  function Results<M, E>(k: Setup<M, E>, size: nat, s: Lexing): seq<Result<M, E>>
    decreases |s.rest|
  {
    var (t1, s1) := Lex(k.MaxLen(), size, s);
    LexShrinks(k.MaxLen(), size, s);
    if t1.typ != MsgLen then [NoLength(k, t1, s1.msglen)]
    else
      var (t2, s2) := Lex(k.MaxLen(), size, s1);
      LexShrinks(k.MaxLen(), size, s1);
      if t2.typ != Space then [Failure(Found(t2, Space))]
      else
        var (t3, s3) := Lex(k.MaxLen(), size, s2);
        LexShrinks(k.MaxLen(), size, s2);
        if t3.typ != SyslogMsg then [NoMessage(k, t3, s3.msglen)]
        else
          var r := Parsed(k, t3.lit);
          if !k.bestEffort && r.error.Some? then [Failure(r.error.value)]
          else
            var (t4, s4) := Lex(k.MaxLen(), size, s3);
            LexShrinks(k.MaxLen(), size, s3);
            [r] + if t4.typ == Eof then [] else Results(k, size, if t4.typ == NewLine then s4 else s3)
  }

  /** Every token of a frame takes something from the input. */
  lemma LexShrinks(maxlen: int, size: nat, s: Lexing)
    ensures var (tok, next) := Lex(maxlen, size, s);
            |next.rest| <= |s.rest| && (tok.typ != Eof && tok.typ != Illegal ==> |next.rest| < |s.rest|)
  {
    hide Num;
  }

  /** What a token says about the scanner before and after it. */
  ghost predicate FollowsLex(tok: Token, s: Lexing, next: Lexing, maxlen: int) {
    && (tok.typ == MsgLen ==> 1 <= next.msglen == Num(tok.lit) <= maxlen && !next.ready)
    && (tok.typ == Space || tok.typ == NewLine ==> next.msglen == s.msglen)
    && (tok.typ == SyslogMsg ==> s.ready && 1 <= s.msglen == |tok.lit| && next.msglen == 0)
  }

  lemma NumPositive(lit: bytes)
    requires AllDigits(lit) && lit != [] && lit[0] != ZERO
    ensures Num(lit) >= 1
  {
    NumPrepend(lit[0], lit[1..]);
    NumNonNegative(lit[1..]);
    assert lit == [lit[0]] + lit[1..];
  }

  lemma LengthFacts(maxlen: int, s: Lexing)
    requires s.rest != [] && 49 <= s.rest[0] <= NINE && !s.ready
    ensures FollowsLex(LexMsgLen(maxlen, s).0, s, LexMsgLen(maxlen, s).1, maxlen)
  {
    NumPositive(s.rest[..DigitRun(s.rest)]);
    hide Num, Pow10;
  }

  lemma LexFacts(maxlen: int, size: nat, s: Lexing)
    ensures FollowsLex(Lex(maxlen, size, s).0, s, Lex(maxlen, size, s).1, maxlen)
  {
    hide LexMsgLen, Num, FollowsLex;
    if s.rest != [] && 49 <= s.rest[0] <= NINE {
      LengthFacts(maxlen, s.(ready := false));
      SameFollows(Lex(maxlen, size, s).0, s, Lex(maxlen, size, s).1, maxlen);
    } else {
      OtherFacts(maxlen, size, s);
    }
  }

  lemma SameFollows(tok: Token, s: Lexing, next: Lexing, maxlen: int)
    requires FollowsLex(tok, s.(ready := false), next, maxlen)
    ensures FollowsLex(tok, s, next, maxlen)
  {
  }

  lemma OtherFacts(maxlen: int, size: nat, s: Lexing)
    requires s.rest == [] || !(49 <= s.rest[0] <= NINE)
    ensures FollowsLex(Lex(maxlen, size, s).0, s, Lex(maxlen, size, s).1, maxlen)
  {
    hide LexMsgLen, Num;
  }

  /** What the tokens scanned so far say: every message has the octets that were announced for it. */
  ghost predicate Announced(maxlen: int, size: nat, tokens: seq<Token>) {
    forall i :: 0 <= i < |tokens| && tokens[i].typ == SyslogMsg ==>
      && i >= 2 && tokens[i - 2].typ == MsgLen && tokens[i - 1].typ == Space
      && |tokens[i].lit| == Num(tokens[i - 2].lit)
      && 1 <= |tokens[i].lit| <= maxlen <= size - 20 && |tokens[i].lit| <= MAX_INT
  }

  class Parser<M, E> {
    const setup: Setup<M, E>
    const size: nat
    var s: Scanner
    var last: Token
    var stepback: bool
    var emitted: seq<Result<M, E>>
    ghost var tokens: seq<Token>

    constructor (setup: Setup<M, E>, size: nat)
      requires setup.maxMessageLength <= MAX_INT - 20 && size >= setup.MaxLen() + 20
      ensures this.setup == setup && this.size == size && !stepback && emitted == [] && fresh(s)
    {
      this.setup, this.size := setup, size;
      s := new Scanner([], setup.maxMessageLength, size);
      last, stepback, emitted, tokens := Token(Eof, []), false, [], [];
    }

    ghost predicate Valid()
      reads this, s
    {
      s.Valid() && s.size == size && s.maxlen == setup.MaxLen() && Announced(s.maxlen, size, tokens)
    }

    /** Parses a stream; the results are those of its octets, whatever was parsed before. */
    method Parse(r: bytes)
      requires setup.maxMessageLength <= MAX_INT - 20 && size >= setup.MaxLen() + 20
      requires !stepback
      modifies this, s
      ensures emitted == old(emitted) + Results(setup, size, Lexing(r, 0, false))
      ensures !stepback && Announced(setup.MaxLen(), size, tokens)
    {
      s := new Scanner(r, setup.maxMessageLength, size);
      tokens := [];
      Run();
    }

    /** The next token; the last one again after a step back. */
    method Scan() returns (tok: Token)
      requires s.Valid() && s.size == size
      modifies this`last, this`stepback, this`tokens, s
      ensures s.Valid() && s.maxlen == old(s.maxlen) && !stepback
      ensures old(stepback) ==> tok == last == old(last) && s.State() == old(s.State()) && tokens == old(tokens)
      ensures !old(stepback) ==> (tok, s.State()) == Lex(s.maxlen, size, old(s.State()))
      ensures !old(stepback) ==> tok == last && tokens == old(tokens) + [tok]
    {
      if stepback {
        stepback := false;
        return last;
      }
      tok := s.Scan();
      last := tok;
      tokens := tokens + [tok];
    }

    method Unscan()
      modifies this`stepback
      ensures stepback
    {
      stepback := true;
    }

    method Emit(r: Result<M, E>)
      modifies this`emitted
      ensures emitted == old(emitted) + [r]
    {
      emitted := emitted + [r];
    }

    /** Hands a message to the parser of messages, without its one line ending in the stripping variants. */
    method ParseMessage(input: bytes) returns (r: Result<M, E>)
      ensures r == Parsed(setup, input)
      ensures !setup.stripTrailingNL ==> r == Handed(setup, input)
      ensures setup.stripTrailingNL ==>
                exists body, ending :: body + ending == input && IsLineEnding(body, ending) && r == Handed(setup, body)
    {
      ghost var ending := LineEndingStripped(input);
      var text := input;
      if setup.stripTrailingNL && |text| > 0 {
        if text[|text| - 1] == LF {
          text := text[..|text| - 1];
          if |text| > 0 && text[|text| - 1] == CR {
            text := text[..|text| - 1];
          }
        }
      }
      var reply := setup.internal(text);
      r := Result(reply.message, if reply.error.Some? then Some(OfMessage(reply.error.value)) else None);
    }

    method EmitNoLength(tok: Token)
      requires s.Valid()
      modifies this`emitted
      ensures emitted == old(emitted) + [NoLength(setup, tok, s.msglen)]
    {
      if tok.typ == Illegal {
        if tok.lit == INVALID_LENGTH {
          Emit(Failure(InvalidLength));
          return;
        } else if tok.lit == TOO_LARGE {
          Emit(Failure(TooLarge(s.msglen, setup.maxMessageLength)));
          return;
        } else if tok.lit == EXCEEDS_INT_LIMIT {
          Emit(Failure(ExceedsIntLimit));
          return;
        }
      }
      Emit(Failure(Found(tok, MsgLen)));
    }

    method EmitNoMessage(tok: Token)
      requires s.Valid()
      modifies this`emitted
      ensures emitted == old(emitted) + [NoMessage(setup, tok, s.msglen)]
    {
      var e := Short(tok, s.msglen);
      if |tok.lit| < ToInt(s.msglen) && setup.bestEffort {
        var result := ParseMessage(tok.lit);
        if result.error.None? {
          result := result.(error := Some(e));
        }
        Emit(result);
        return;
      }
      Emit(Failure(e));
    }

    /** The state of the scanner before the token that is scanned next. */
    ghost predicate Next(from: Lexing)
      requires s.Valid()
      reads this, s
    {
      && from.msglen == 0
      && if stepback then (last, s.State()) == Lex(s.maxlen, size, from) && tokens != [] && tokens[|tokens| - 1] == last
         else s.State() == from
    }

    /** Frame after frame, until the end of the input or the first error that ends the stream. */
    method Run()
      requires Valid() && !stepback && s.msglen == 0
      modifies this`last, this`stepback, this`tokens, this`emitted, s
      ensures Valid() && !stepback
      ensures emitted == old(emitted) + Results(setup, size, old(s.State()))
    {
      hide Lex, NoLength, NoMessage, Parsed, Num, Announced;
      ghost var from, whole := s.State(), emitted + Results(setup, size, s.State());
      while true
        invariant Valid() && Next(from) && emitted + Results(setup, size, from) == whole
        decreases |from.rest|
      {
        LexShrinks(s.maxlen, size, from);
        ghost var before := emitted;
        var tok := ScanFirst(from);
        if tok.typ != MsgLen {
          EmitNoLength(tok);
          break;
        }
        ghost var s1, length := s.State(), tok;
        LexShrinks(s.maxlen, size, s1);
        tok := ScanNext();
        if tok.typ != Space {
          Emit(Failure(Found(tok, Space)));
          break;
        }
        ghost var s2 := s.State();
        LexShrinks(s.maxlen, size, s2);
        tok := ScanMessage(length);
        if tok.typ != SyslogMsg {
          EmitNoMessage(tok);
          break;
        }
        ghost var s3 := s.State();
        var result := ParseMessage(tok.lit);
        if setup.bestEffort || result.error.None? {
          Emit(result);
        }
        if !setup.bestEffort && result.error.Some? {
          Emit(Failure(result.error.value));
          break;
        }
        LexShrinks(s.maxlen, size, s3);
        tok := ScanNext();
        if tok.typ == Eof {
          break;
        }
        Later(before, result, Results(setup, size, if tok.typ == NewLine then s.State() else s3));
        from := s.State();
        if tok.typ != NewLine {
          Unscan();
          from := s3;
        }
      }
    }

    lemma Later(before: seq<Result<M, E>>, r: Result<M, E>, rest: seq<Result<M, E>>)
      ensures before + ([r] + rest) == before + [r] + rest
    {
    }

    /** The token before a frame: no message has been announced. */
    method ScanFirst(ghost from: Lexing) returns (tok: Token)
      requires Valid() && Next(from)
      modifies this`last, this`stepback, this`tokens, s
      ensures Valid() && !stepback && (tok, s.State()) == Lex(s.maxlen, size, from)
      ensures tokens != [] && tokens[|tokens| - 1] == tok && FollowsLex(tok, from, s.State(), s.maxlen)
    {
      hide Lex, Num;
      LexFacts(s.maxlen, size, from);
      tok := Scan();
    }

    /** A token where no message can be. */
    method ScanNext() returns (tok: Token)
      requires Valid() && !stepback && (s.msglen == 0 || !s.ready)
      modifies this`last, this`stepback, this`tokens, s
      ensures Valid() && !stepback && (tok, s.State()) == Lex(s.maxlen, size, old(s.State()))
      ensures tok == last && tokens == old(tokens) + [tok] && FollowsLex(tok, old(s.State()), s.State(), s.maxlen)
    {
      hide Lex, Num;
      LexFacts(s.maxlen, size, s.State());
      tok := Scan();
    }

    /** The token after a length and a space. */
    method ScanMessage(ghost length: Token) returns (tok: Token)
      requires Valid() && !stepback && length.typ == MsgLen && 1 <= Num(length.lit) == s.msglen <= s.maxlen
      requires |tokens| >= 2 && tokens[|tokens| - 2] == length && tokens[|tokens| - 1].typ == Space
      modifies this`last, this`stepback, this`tokens, s
      ensures Valid() && !stepback && (tok, s.State()) == Lex(s.maxlen, size, old(s.State()))
      ensures FollowsLex(tok, old(s.State()), s.State(), s.maxlen)
    {
      hide Lex, Num;
      LexFacts(s.maxlen, size, s.State());
      tok := Scan();
    }
  }

  // ------------------------------------------------------------------
  // Framing and reading back

  /** A message, and whether an LF follows its frame. */
  datatype Frame = Frame(payload: bytes, newline: bool)

  function FrameText(payload: bytes): bytes {
    Dec(|payload|) + ([SP] + payload)
  }

  function StreamText(fs: seq<Frame>): bytes {
    if fs == [] then []
    else FrameText(fs[0].payload) + ((if fs[0].newline then [LF] else []) + StreamText(fs[1..]))
  }

  predicate Fits(maxlen: int, payload: bytes) {
    1 <= |payload| <= maxlen && payload[0] == LT
  }

  /**
   One result for each message in order, up to the first failure in strict mode; an LF
   after the last frame gives an error of its own.
   */
  function Delivered<M, E>(k: Setup<M, E>, fs: seq<Frame>): seq<Result<M, E>>
    requires fs != []
  {
    var r := Parsed(k, fs[0].payload);
    if !k.bestEffort && r.error.Some? then [Failure(r.error.value)]
    else
      [r] + if |fs| > 1 then Delivered(k, fs[1..])
            else if fs[0].newline then [Failure(Found(Token(Eof, []), MsgLen))]
            else []
  }

  lemma DecSmall(n: nat)
    requires 1 <= n
    ensures Num(Dec(n)) == n && AllDigits(Dec(n)) && Dec(n) != [] && Dec(n)[0] != ZERO
  {
    NumDec(n);
    DecFirst(n);
  }

  lemma LexLength(maxlen: int, size: nat, n: nat, rest: bytes, ready: bool)
    requires 1 <= n <= maxlen <= MAX_INT && rest != [] && rest[0] == SP
    ensures Lex(maxlen, size, Lexing(Dec(n) + rest, 0, ready)) == (Token(MsgLen, Dec(n)), Lexing(rest, n, false))
  {
    DecSmall(n);
    hide Dec, Num, LexMsgLen;
    var d := Dec(n);
    var s := Lexing(d + rest, 0, false);
    assert s.rest[..|d|] == d && s.rest[|d|..] == rest && s.rest[|d|] == SP;
    LengthRead(maxlen, s, |d|);
  }

  lemma LexMessage(maxlen: int, size: nat, payload: bytes, rest: bytes)
    requires Fits(maxlen, payload) && maxlen <= MAX_INT && size >= maxlen
    ensures Lex(maxlen, size, Lexing(payload + rest, |payload|, true))
         == (Token(SyslogMsg, payload), Lexing(rest, 0, false))
  {
    assert (payload + rest)[..|payload|] == payload && (payload + rest)[|payload|..] == rest;
  }

  lemma LexOne(maxlen: int, size: nat, b: byte, rest: bytes, msglen: nat, ready: bool)
    requires b == SP || b == LF
    ensures Lex(maxlen, size, Lexing([b] + rest, msglen, ready))
         == (Token(if b == SP then Space else NewLine, [b]), Lexing(rest, msglen, true))
  {
    assert ([b] + rest)[1..] == rest;
  }

  /** The results of a stream after its first message. */
  function ThenRest<M, E>(k: Setup<M, E>, size: nat, r: Result<M, E>, rest: bytes): seq<Result<M, E>> {
    if !k.bestEffort && r.error.Some? then [Failure(r.error.value)]
    else
      var (t, next) := Lex(k.MaxLen(), size, Lexing(rest, 0, false));
      [r] + if t.typ == Eof then []
            else Results(k, size, if t.typ == NewLine then next else Lexing(rest, 0, false))
  }

  /** The tokens of one frame. */
  lemma FrameRead<M, E>(k: Setup<M, E>, size: nat, payload: bytes, rest: bytes, ready: bool)
    requires Fits(k.MaxLen(), payload) && k.MaxLen() <= MAX_INT && size >= k.MaxLen() + 20
    ensures Results(k, size, Lexing(FrameText(payload) + rest, 0, ready)) == ThenRest(k, size, Parsed(k, payload), rest)
  {
    hide Lex, Dec, Parsed;
    var d := Dec(|payload|);
    var s := Lexing(FrameText(payload) + rest, 0, ready);
    assert s.rest == d + ([SP] + (payload + rest));
    LexLength(k.MaxLen(), size, |payload|, [SP] + (payload + rest), ready);
    LexOne(k.MaxLen(), size, SP, payload + rest, |payload|, false);
    LexMessage(k.MaxLen(), size, payload, rest);
  }

  /** Nothing, or a NUL and anything after it. */
  predicate EndsStream(tail: bytes) {
    tail == [] || tail[0] == NUL
  }

  lemma StreamFirst(maxlen: int, size: nat, fs: seq<Frame>, tail: bytes)
    requires forall i :: 0 <= i < |fs| ==> Fits(maxlen, fs[i].payload)
    requires maxlen <= MAX_INT && EndsStream(tail)
    ensures var t := Lex(maxlen, size, Lexing(StreamText(fs) + tail, 0, false)).0;
            t.typ == if fs == [] then Eof else MsgLen
  {
    hide Dec, StreamText;
    if fs == [] {
      StreamEnd(fs, tail);
    } else {
      hide Lex;
      var p, more := fs[0].payload, (if fs[0].newline then [LF] else []) + StreamText(fs[1..]);
      StreamSplit(fs, more, tail);
      LexLength(maxlen, size, |p|, [SP] + (p + (more + tail)), false);
    }
  }

  lemma StreamEnd(fs: seq<Frame>, tail: bytes)
    requires fs == []
    ensures StreamText(fs) + tail == tail
  {
  }

  lemma StreamSplit(fs: seq<Frame>, more: bytes, tail: bytes)
    requires fs != [] && more == (if fs[0].newline then [LF] else []) + StreamText(fs[1..])
    ensures StreamText(fs) + tail == Dec(|fs[0].payload|) + ([SP] + (fs[0].payload + (more + tail)))
    ensures StreamText(fs) + tail == FrameText(fs[0].payload) + (more + tail)
  {
    hide Dec;
    Associate(Dec(|fs[0].payload|), fs[0].payload, more, tail);
  }

  lemma Associate(d: bytes, p: bytes, more: bytes, tail: bytes)
    ensures (d + ([SP] + p)) + more + tail == d + ([SP] + (p + (more + tail)))
    ensures (d + ([SP] + p)) + more + tail == (d + ([SP] + p)) + (more + tail)
  {
  }

  /** After a message: an LF, another frame, or the end of the stream. */
  lemma ThenNext<M, E>(k: Setup<M, E>, size: nat, r: Result<M, E>, rest: bytes)
    requires k.bestEffort || r.error.None?
    ensures ThenRest(k, size, r, [LF] + rest) == [r] + Results(k, size, Lexing(rest, 0, true))
    ensures var t := Lex(k.MaxLen(), size, Lexing(rest, 0, false)).0;
            && (t.typ == MsgLen ==> ThenRest(k, size, r, rest) == [r] + Results(k, size, Lexing(rest, 0, false)))
            && (t.typ == Eof ==> ThenRest(k, size, r, rest) == [r])
  {
    LexOne(k.MaxLen(), size, LF, rest, 0, false);
    hide Lex, Results;
  }

  lemma {:induction false} StreamRead<M, E>(k: Setup<M, E>, size: nat, fs: seq<Frame>, tail: bytes, ready: bool)
    requires fs != [] && forall i :: 0 <= i < |fs| ==> Fits(k.MaxLen(), fs[i].payload)
    requires k.MaxLen() <= MAX_INT && size >= k.MaxLen() + 20 && EndsStream(tail)
    ensures Results(k, size, Lexing(StreamText(fs) + tail, 0, ready)) == Delivered(k, fs)
    decreases |fs|
  {
    hide Parsed, Results, EndsStream, Fits, StreamText, FrameText, Lex, ThenRest;
    var r, rest := Parsed(k, fs[0].payload), StreamText(fs[1..]) + tail;
    var more := (if fs[0].newline then [LF] else []) + StreamText(fs[1..]);
    StreamSplit(fs, more, tail);
    FrameRead(k, size, fs[0].payload, more + tail, ready);
    if k.bestEffort || r.error.None? {
      assert more + tail == if fs[0].newline then [LF] + rest else rest;
      ThenNext(k, size, r, rest);
      StreamFirst(k.MaxLen(), size, fs[1..], tail);
      if |fs| > 1 {
        StreamRead(k, size, fs[1..], tail, fs[0].newline);
      } else {
        StreamEnd(fs[1..], tail);
        NothingLeft(k, size, tail);
      }
    } else {
      ThenNothing(k, size, r, more + tail);
    }
  }

  lemma ThenNothing<M, E>(k: Setup<M, E>, size: nat, r: Result<M, E>, rest: bytes)
    requires !k.bestEffort && r.error.Some?
    ensures ThenRest(k, size, r, rest) == [Failure(r.error.value)]
  {
  }

  lemma NothingLeft<M, E>(k: Setup<M, E>, size: nat, tail: bytes)
    requires EndsStream(tail)
    ensures Results(k, size, Lexing(tail, 0, true)) == [Failure(Found(Token(Eof, []), MsgLen))]
  {
  }

  /** Framing round trip: the messages of the frames are parsed in order, one result each. */
  lemma FramingRoundTrip<M, E>(k: Setup<M, E>, size: nat, fs: seq<Frame>, ready: bool)
    requires fs != [] && forall i :: 0 <= i < |fs| ==> Fits(k.MaxLen(), fs[i].payload)
    requires k.MaxLen() <= MAX_INT && size >= k.MaxLen() + 20
    ensures Results(k, size, Lexing(StreamText(fs), 0, ready)) == Delivered(k, fs)
  {
    hide Results, Delivered;
    StreamRead(k, size, fs, [], ready);
    assert StreamText(fs) + [] == StreamText(fs);
  }

  /**
   A NUL octet where a frame may start ends the stream as the end of the input does: what
   follows is never read, and there is no error for it.
   */
  lemma NulEndsStream<M, E>(k: Setup<M, E>, size: nat, fs: seq<Frame>, rest: bytes, ready: bool)
    requires fs != [] && forall i :: 0 <= i < |fs| ==> Fits(k.MaxLen(), fs[i].payload)
    requires k.MaxLen() <= MAX_INT && size >= k.MaxLen() + 20
    ensures Results(k, size, Lexing(StreamText(fs) + ([NUL] + rest), 0, ready))
         == Results(k, size, Lexing(StreamText(fs), 0, ready)) == Delivered(k, fs)
  {
    hide Results, Delivered;
    StreamRead(k, size, fs, [NUL] + rest, ready);
    FramingRoundTrip(k, size, fs, ready);
  }

  /** Without an LF after the last frame, when every message parses there is one good result for each. */
  lemma {:induction false} AllDelivered<M, E>(k: Setup<M, E>, fs: seq<Frame>)
    requires fs != [] && !fs[|fs| - 1].newline
    requires forall i :: 0 <= i < |fs| ==> k.bestEffort || Parsed(k, fs[i].payload).error.None?
    ensures |Delivered(k, fs)| == |fs|
    ensures forall i :: 0 <= i < |fs| ==> Delivered(k, fs)[i] == Parsed(k, fs[i].payload)
    decreases |fs|
  {
    hide Parsed;
    if |fs| > 1 {
      AllDelivered(k, fs[1..]);
      assert fs[1..][|fs| - 2] == fs[|fs| - 1];
    }
  }

  // ------------------------------------------------------------------
  // The line ending of a message

  /** What is stripped: CRLF; LF, unless it belongs to a CRLF; or nothing, if there is no LF. */
  predicate IsLineEnding(body: bytes, ending: bytes) {
    || ending == [CR, LF]
    || (ending == [LF] && (body == [] || body[|body| - 1] != CR))
    || (ending == [] && (body == [] || body[|body| - 1] != LF))
  }

  /** Stripping takes off the one line ending there is. */
  lemma StripsLineEnding(body: bytes, ending: bytes)
    requires IsLineEnding(body, ending)
    ensures Stripped(true, body + ending) == body
  {
    var s := body + ending;
    if ending == [] {
      assert s == body;
    } else if ending == [LF] {
      assert s[..|s| - 1] == body;
    } else {
      assert s[..|s| - 1] == body + [CR] && (body + [CR])[..|body|] == body;
    }
  }

  /** Every message has exactly one such ending, and is handed on as it is exactly when it ends in no LF. */
  lemma LineEndingStripped(input: bytes) returns (ending: bytes)
    ensures Stripped(true, input) + ending == input && IsLineEnding(Stripped(true, input), ending)
    ensures forall e, b :: IsLineEnding(b, e) && b + e == input ==> e == ending && b == Stripped(true, input)
    ensures Stripped(true, input) == input <==> input == [] || input[|input| - 1] != LF
    ensures Stripped(false, input) == input
  {
    var body := Stripped(true, input);
    ending := input[|body|..];
    assert body + ending == input;
    if input != [] && input[|input| - 1] == LF {
      assert ending == [LF] || ending == [CR, LF];
    }
    forall e, b | IsLineEnding(b, e) && b + e == input ensures e == ending && b == body {
      StripsLineEnding(b, e);
      assert e == (b + e)[|b|..];
    }
  }

  /** In the stripping variants the inner parser is given the messages without their line endings. */
  lemma BodiesDelivered<M, E>(k: Setup<M, E>, fs: seq<Frame>, bodies: seq<bytes>, endings: seq<bytes>)
    requires k.stripTrailingNL && fs != [] && !fs[|fs| - 1].newline && |fs| == |bodies| == |endings|
    requires forall i :: 0 <= i < |fs| ==>
               fs[i].payload == bodies[i] + endings[i] && IsLineEnding(bodies[i], endings[i])
    requires forall i :: 0 <= i < |fs| ==> k.bestEffort || k.internal(bodies[i]).error.None?
    ensures |Delivered(k, fs)| == |fs|
    ensures forall i :: 0 <= i < |fs| ==> Delivered(k, fs)[i] == Handed(k, bodies[i])
  {
    hide Delivered;
    forall i | 0 <= i < |fs| ensures Stripped(true, fs[i].payload) == bodies[i] {
      StripsLineEnding(bodies[i], endings[i]);
    }
    hide Stripped;
    AllDelivered(k, fs);
  }

  /** On every stream all results but the last are messages; in strict mode they have no error at all. */
  lemma {:induction false} OnlyLastFails<M, E>(k: Setup<M, E>, size: nat, s: Lexing)
    ensures Results(k, size, s) != []
    ensures forall i :: 0 <= i < |Results(k, size, s)| - 1 ==>
              var r := Results(k, size, s)[i];
              r.error.None? || (k.bestEffort && r.error.value.OfMessage?)
    decreases |s.rest|
  {
    hide Lex, NoLength, NoMessage;
    var (t1, s1) := Lex(k.MaxLen(), size, s);
    LexShrinks(k.MaxLen(), size, s);
    if t1.typ == MsgLen {
      var (t2, s2) := Lex(k.MaxLen(), size, s1);
      LexShrinks(k.MaxLen(), size, s1);
      if t2.typ == Space {
        var (t3, s3) := Lex(k.MaxLen(), size, s2);
        LexShrinks(k.MaxLen(), size, s2);
        if t3.typ == SyslogMsg && (k.bestEffort || Parsed(k, t3.lit).error.None?) {
          var (t4, s4) := Lex(k.MaxLen(), size, s3);
          LexShrinks(k.MaxLen(), size, s3);
          if t4.typ != Eof { OnlyLastFails(k, size, if t4.typ == NewLine then s4 else s3); }
        }
      }
    }
  }

  // ------------------------------------------------------------------
  // Broken streams

  /** A first failure in strict mode ends the results; otherwise those of the frames come before the others. */
  function DeliveredThen<M, E>(k: Setup<M, E>, fs: seq<Frame>, more: seq<Result<M, E>>): seq<Result<M, E>> {
    if fs == [] then more
    else
      var r := Parsed(k, fs[0].payload);
      if !k.bestEffort && r.error.Some? then [Failure(r.error.value)] else [r] + DeliveredThen(k, fs[1..], more)
  }

  /** Octets that do not end a stream, nor are the LF after a frame. */
  predicate GoesOn(fs: seq<Frame>, tail: bytes) {
    tail != [] && tail[0] != NUL && (fs != [] && tail[0] == LF ==> fs[|fs| - 1].newline)
  }

  /** At the start of a frame it does not matter whether a message would have been allowed. */
  lemma ReadyUnread<M, E>(k: Setup<M, E>, size: nat, s: bytes, ready: bool)
    ensures Results(k, size, Lexing(s, 0, ready)) == Results(k, size, Lexing(s, 0, false))
  {
    hide LexMsgLen;
  }

  lemma NotTheEnd(maxlen: int, size: nat, s: bytes)
    requires s != [] && s[0] != NUL && s[0] != LF
    ensures var t := Lex(maxlen, size, Lexing(s, 0, false)).0; t.typ != Eof && t.typ != NewLine
  {
    hide Num;
  }

  lemma FrameThen<M, E>(k: Setup<M, E>, size: nat, r: Result<M, E>, rest: bytes)
    requires k.bestEffort || r.error.None?
    requires rest != [] && rest[0] != NUL && rest[0] != LF
    ensures ThenRest(k, size, r, rest) == [r] + Results(k, size, Lexing(rest, 0, false))
  {
    NotTheEnd(k.MaxLen(), size, rest);
    hide Lex, Results;
  }

  lemma StreamStart(fs: seq<Frame>, tail: bytes)
    requires fs != [] && fs[0].payload != []
    ensures var s := StreamText(fs) + tail; s != [] && IsDigit(s[0])
  {
    DecSmall(|fs[0].payload|);
    hide Dec;
  }

  /** The results of whole frames come before those of whatever follows them. */
  lemma {:induction false} StreamThen<M, E>(k: Setup<M, E>, size: nat, fs: seq<Frame>, tail: bytes, ready: bool)
    requires forall i :: 0 <= i < |fs| ==> Fits(k.MaxLen(), fs[i].payload)
    requires k.MaxLen() <= MAX_INT && size >= k.MaxLen() + 20 && GoesOn(fs, tail)
    ensures Results(k, size, Lexing(StreamText(fs) + tail, 0, ready))
         == DeliveredThen(k, fs, Results(k, size, Lexing(tail, 0, false)))
    decreases |fs|
  {
    hide Parsed, Results, StreamText, FrameText, Lex, ThenRest;
    if fs == [] {
      StreamEnd(fs, tail);
      ReadyUnread(k, size, tail, ready);
    } else {
      var r, rest := Parsed(k, fs[0].payload), StreamText(fs[1..]) + tail;
      var more := (if fs[0].newline then [LF] else []) + StreamText(fs[1..]);
      StreamSplit(fs, more, tail);
      FrameRead(k, size, fs[0].payload, more + tail, ready);
      if k.bestEffort || r.error.None? {
        assert more + tail == if fs[0].newline then [LF] + rest else rest;
        if |fs| > 1 { StreamStart(fs[1..], tail); } else { StreamEnd(fs[1..], tail); }
        if fs[0].newline { ThenNext(k, size, r, rest); } else { FrameThen(k, size, r, rest); }
        StreamThen(k, size, fs[1..], tail, fs[0].newline);
        if |fs| == 1 { ReadyUnread(k, size, tail, fs[0].newline); } else { ReadyUnread(k, size, rest, fs[0].newline); }
      } else {
        ThenNothing(k, size, r, more + tail);
      }
    }
  }

  /** What best effort makes of a text that should have been a message: e is the error if the inner parser has none. */
  function Attempt<M, E>(k: Setup<M, E>, text: bytes, e: StreamError<E>): Result<M, E> {
    var r := k.internal(Stripped(k.stripTrailingNL, text));
    Result(r.message, Some(if r.error.Some? then OfMessage(r.error.value) else e))
  }

  /** The octets from the `<` on that have arrived, when they are too few. */
  lemma LexShort(maxlen: int, size: nat, p: bytes, n: nat)
    requires p == [] || p[0] == LT
    requires |p| < n <= maxlen <= MAX_INT && size >= maxlen
    ensures var (t, s) := Lex(maxlen, size, Lexing(p, n, true)); t == Token(Eof, p) && s.msglen == n
  {
  }

  /** The stream ends before the announced octets have arrived. */
  lemma Underflow<M, E>(k: Setup<M, E>, size: nat, fs: seq<Frame>, n: nat, p: bytes, ready: bool)
    requires forall i :: 0 <= i < |fs| ==> Fits(k.MaxLen(), fs[i].payload)
    requires k.MaxLen() <= MAX_INT && size >= k.MaxLen() + 20
    requires (p == [] || p[0] == LT) && |p| < n <= k.MaxLen()
    ensures Results(k, size, Lexing(StreamText(fs) + (Dec(n) + ([SP] + p)), 0, ready))
         == DeliveredThen(k, fs, [if k.bestEffort then Attempt(k, p, Short(Token(Eof, p), n))
                                  else Failure(Short(Token(Eof, p), n))])
  {
    hide Lex, Dec, StreamText, DeliveredThen;
    DecSmall(n);
    StreamThen(k, size, fs, Dec(n) + ([SP] + p), ready);
    LexLength(k.MaxLen(), size, n, [SP] + p, false);
    LexOne(k.MaxLen(), size, SP, p, n, false);
    LexShort(k.MaxLen(), size, p, n);
  }

  /** Digits that announce a length. */
  predicate IsLength(d: bytes) {
    d != [] && AllDigits(d) && d[0] != 48
  }

  lemma LexDigits(maxlen: int, size: nat, d: bytes, rest: bytes, msglen: nat, ready: bool)
    requires IsLength(d) && (rest == [] || !IsDigit(rest[0]))
    ensures var left := if rest != [] && rest[0] == NUL then rest[1..] else rest;
            Lex(maxlen, size, Lexing(d + rest, msglen, ready)) == LengthToken(maxlen, d, Lexing(left, msglen, false))
  {
    hide Num, LexMsgLen, LengthToken;
    var s := Lexing(d + rest, msglen, false);
    assert s.rest[..|d|] == d && s.rest[|d|..] == rest;
    if rest != [] { assert s.rest[|d|] == rest[0] && s.rest[|d| + 1..] == rest[1..]; }
    LengthRead(maxlen, s, |d|);
  }

  lemma ThreeTexts()
    ensures INVALID_LENGTH != TOO_LARGE
  {
    assert |INVALID_LENGTH| != |TOO_LARGE|;
  }

  /** A length above the maximum, or above 64 bits, ends the stream with its own error. */
  lemma LengthRefused<M, E>(k: Setup<M, E>, size: nat, fs: seq<Frame>, d: bytes, rest: bytes, ready: bool)
    requires forall i :: 0 <= i < |fs| ==> Fits(k.MaxLen(), fs[i].payload)
    requires k.MaxLen() <= MAX_INT && size >= k.MaxLen() + 20
    requires IsLength(d) && (rest == [] || !IsDigit(rest[0]))
    requires Num(d) > if k.maxMessageLength <= 0 then 8192 else k.maxMessageLength
    ensures Results(k, size, Lexing(StreamText(fs) + (d + rest), 0, ready))
         == DeliveredThen(k, fs, [Failure(if Num(d) <= 0xFFFF_FFFF_FFFF_FFFF then TooLarge(Num(d), k.maxMessageLength)
                                          else InvalidLength)])
  {
    hide Lex, Num, StreamText, DeliveredThen;
    StreamThen(k, size, fs, d + rest, ready);
    LexDigits(k.MaxLen(), size, d, rest, 0, false);
    ThreeTexts();
    hide INVALID_LENGTH, TOO_LARGE;
  }

  /** The token of an octet that starts no length, where no message is expected. */
  function OctetToken(s: bytes): Token {
    if s == [] || s[0] == 0 then Token(Eof, [])
    else if s[0] == 10 then Token(NewLine, [10])
    else if s[0] == 32 then Token(Space, [32])
    else Token(Illegal, [s[0]])
  }

  lemma LexOctet(maxlen: int, size: nat, s: bytes, msglen: nat, ready: bool)
    requires s == [] || !(49 <= s[0] <= 57)
    requires s != [] && s[0] == LT ==> msglen == 0 || !ready
    ensures Lex(maxlen, size, Lexing(s, msglen, ready)).0 == OctetToken(s)
    ensures Lex(maxlen, size, Lexing(s, msglen, ready)).1.msglen == msglen
  {
  }

  lemma LengthTaken(maxlen: int, d: bytes, next: Lexing)
    requires IsLength(d) && Num(d) <= maxlen <= MAX_INT
    ensures Num(d) >= 0 && LengthToken(maxlen, d, next) == (Token(MsgLen, d), next.(msglen := Num(d)))
  {
    NumNonNegative(d);
  }

  /** After a length, and a NUL that is read with it, no space: the error names what is there. */
  lemma NoSpace<M, E>(k: Setup<M, E>, size: nat, fs: seq<Frame>, d: bytes, nul: bool, rest: bytes, ready: bool)
    requires forall i :: 0 <= i < |fs| ==> Fits(k.MaxLen(), fs[i].payload)
    requires k.MaxLen() <= MAX_INT && size >= k.MaxLen() + 20
    requires IsLength(d) && Num(d) <= k.MaxLen()
    requires rest == [] || (rest[0] != SP && if nul then !(49 <= rest[0] <= 57) else !IsDigit(rest[0]) && rest[0] != NUL)
    ensures Results(k, size, Lexing(StreamText(fs) + (d + ((if nul then [NUL] else []) + rest)), 0, ready))
         == DeliveredThen(k, fs, [Failure(Found(OctetToken(rest), Space))])
  {
    hide Lex, Num, StreamText, DeliveredThen;
    var after := (if nul then [NUL] else []) + rest;
    assert if nul then after[1..] == rest else after == rest;
    StreamThen(k, size, fs, d + after, ready);
    LexDigits(k.MaxLen(), size, d, after, 0, false);
    LengthTaken(k.MaxLen(), d, Lexing(rest, 0, false));
    LexOctet(k.MaxLen(), size, rest, Num(d), false);
  }

  /** Where a frame should start there is no length: the error names what is there. */
  lemma NoLengthFound<M, E>(k: Setup<M, E>, size: nat, fs: seq<Frame>, tail: bytes, ready: bool)
    requires forall i :: 0 <= i < |fs| ==> Fits(k.MaxLen(), fs[i].payload)
    requires k.MaxLen() <= MAX_INT && size >= k.MaxLen() + 20
    requires GoesOn(fs, tail) && !(49 <= tail[0] <= 57)
    ensures Results(k, size, Lexing(StreamText(fs) + tail, 0, ready))
         == DeliveredThen(k, fs, [Failure(Found(OctetToken(tail), MsgLen))])
  {
    hide Lex, StreamText, DeliveredThen;
    StreamThen(k, size, fs, tail, ready);
    LexOctet(k.MaxLen(), size, tail, 0, false);
    NotATextOfAnError(tail);
    hide INVALID_LENGTH, TOO_LARGE, EXCEEDS_INT_LIMIT;
  }

  lemma NotATextOfAnError(s: bytes)
    ensures OctetToken(s).lit != INVALID_LENGTH && OctetToken(s).lit != TOO_LARGE
    ensures OctetToken(s).lit != EXCEEDS_INT_LIMIT
  {
    assert |INVALID_LENGTH| > 1 && |TOO_LARGE| > 1 && |EXCEEDS_INT_LIMIT| > 1;
  }

  /** After a length and a space something else than a message: best effort tries even the one octet of it. */
  lemma NoMessageFound<M, E>(k: Setup<M, E>, size: nat, fs: seq<Frame>, n: nat, rest: bytes, ready: bool)
    requires forall i :: 0 <= i < |fs| ==> Fits(k.MaxLen(), fs[i].payload)
    requires k.MaxLen() <= MAX_INT && size >= k.MaxLen() + 20
    requires 1 <= n <= k.MaxLen() && rest != [] && rest[0] != LT && !(49 <= rest[0] <= 57)
    ensures Results(k, size, Lexing(StreamText(fs) + (Dec(n) + ([SP] + rest)), 0, ready))
         == DeliveredThen(k, fs, [if k.bestEffort && |OctetToken(rest).lit| < n then
                                    Attempt(k, OctetToken(rest).lit, Short(OctetToken(rest), n))
                                  else Failure(Short(OctetToken(rest), n))])
  {
    hide Lex, Dec, StreamText, DeliveredThen;
    DecSmall(n);
    StreamThen(k, size, fs, Dec(n) + ([SP] + rest), ready);
    LexLength(k.MaxLen(), size, n, [SP] + rest, false);
    LexOne(k.MaxLen(), size, SP, rest, n, false);
    LexOctet(k.MaxLen(), size, rest, n, true);
  }

  /** After a length and a space another length: the error counts that one's octets. */
  lemma SecondLength<M, E>(k: Setup<M, E>, size: nat, fs: seq<Frame>, n: nat, d: bytes, rest: bytes, ready: bool)
    requires forall i :: 0 <= i < |fs| ==> Fits(k.MaxLen(), fs[i].payload)
    requires k.MaxLen() <= MAX_INT && size >= k.MaxLen() + 20
    requires 1 <= n <= k.MaxLen() && IsLength(d) && (rest == [] || !IsDigit(rest[0])) && 0 <= Num(d) <= k.MaxLen()
    ensures Results(k, size, Lexing(StreamText(fs) + (Dec(n) + ([SP] + (d + rest))), 0, ready))
         == DeliveredThen(k, fs, [if k.bestEffort && |d| < Num(d) then Attempt(k, d, Short(Token(MsgLen, d), Num(d)))
                                  else Failure(Short(Token(MsgLen, d), Num(d)))])
  {
    hide Lex, Dec, Num, StreamText, DeliveredThen;
    DecSmall(n);
    StreamThen(k, size, fs, Dec(n) + ([SP] + (d + rest)), ready);
    LexLength(k.MaxLen(), size, n, [SP] + (d + rest), false);
    LexOne(k.MaxLen(), size, SP, d + rest, n, false);
    LexDigits(k.MaxLen(), size, d, rest, n, true);
  }

  /** After a length and a space a length that is refused: the text of its error is tried as a message. */
  lemma SecondLengthRefused<M, E>(k: Setup<M, E>, size: nat, fs: seq<Frame>, n: nat, d: bytes, rest: bytes, ready: bool)
    requires forall i :: 0 <= i < |fs| ==> Fits(k.MaxLen(), fs[i].payload)
    requires k.MaxLen() <= MAX_INT && size >= k.MaxLen() + 20
    requires 1 <= n <= k.MaxLen() && IsLength(d) && (rest == [] || !IsDigit(rest[0])) && Num(d) > k.MaxLen()
    ensures Results(k, size, Lexing(StreamText(fs) + (Dec(n) + ([SP] + (d + rest))), 0, ready))
         == DeliveredThen(k, fs,
              [if Num(d) > 0xFFFF_FFFF_FFFF_FFFF then
                 if k.bestEffort && |INVALID_LENGTH| < n then
                   Attempt(k, INVALID_LENGTH, Short(Token(Illegal, INVALID_LENGTH), n))
                 else Failure(Short(Token(Illegal, INVALID_LENGTH), n))
               else if k.bestEffort && |TOO_LARGE| < Num(d) <= 0x7FFF_FFFF_FFFF_FFFF then
                 Attempt(k, TOO_LARGE, Short(Token(Illegal, TOO_LARGE), Num(d)))
               else Failure(Short(Token(Illegal, TOO_LARGE), Num(d)))])
  {
    hide Lex, Dec, Num, StreamText, DeliveredThen, INVALID_LENGTH, TOO_LARGE;
    DecSmall(n);
    StreamThen(k, size, fs, Dec(n) + ([SP] + (d + rest)), ready);
    LexLength(k.MaxLen(), size, n, [SP] + (d + rest), false);
    LexOne(k.MaxLen(), size, SP, d + rest, n, false);
    LexDigits(k.MaxLen(), size, d, rest, n, true);
  }
}
