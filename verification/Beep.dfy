/**
 rfc3195/frame.go: the scanner of BEEP frames (section 2.2.1 of RFC 3080, and section
 3.1.3 of RFC 3081 for SEQ). A reader is the octets it will yield.
 */
module Beep {
  import opened Bytes
  import opened Functions
  import opened Escaping
  import opened Utf8

  const MAX_INT31 := 2147483647
  const MAX_UINT32 := 4294967295
  const MAX_HEADER_LEN := 128
  const TRAILER: bytes := [69, 78, 68, CR, LF]

  datatype FrameType = MSG | RPY | ERR | ANS | NUL | SEQ

  function Keyword(ft: FrameType): (k: bytes)
    ensures |k| == 3 && IsWord(k)
  {
    match ft
    case MSG => [77, 83, 71]
    case RPY => [82, 80, 89]
    case ERR => [69, 82, 82]
    case ANS => [65, 78, 83]
    case NUL => [78, 85, 76]
    case SEQ => [83, 69, 81]
  }

  function KeywordToType(k: bytes): Option<FrameType> {
    if k == Keyword(MSG) then Some(MSG)
    else if k == Keyword(RPY) then Some(RPY)
    else if k == Keyword(ERR) then Some(ERR)
    else if k == Keyword(ANS) then Some(ANS)
    else if k == Keyword(NUL) then Some(NUL)
    else if k == Keyword(SEQ) then Some(SEQ)
    else None
  }

  /** The fields a frame type does not have are zero; the payload has size octets. */
  datatype Frame = Frame(
    typ: FrameType, channel: nat, msgno: nat, more: bool, seqno: nat, size: nat, ansno: nat, payload: bytes,
    ackno: nat, window: nat)

  datatype FrameError =
    | EndOfStream
    | NoHeader
    | HeaderTooLong
    | NoCRLF
    | EmptyHeader
    | UnknownKeyword
    | FieldCount
    | BadNumber(field: nat)
    | BadContinuation
    | NulWithMore
    | NulWithSize
    | TooLarge
    | ShortPayload
    | ShortTrailer
    | BadTrailer

  datatype Scanned = Ok(frame: Frame) | Err(error: FrameError)

  // ------------------------------------------------------------------
  // bytes.Fields

  /** unicode.IsSpace. */
  predicate IsSpace(r: int) {
    || 9 <= r <= 13 || r == 32 || r == 0x85 || r == 0xA0 || r == 0x1680 || 0x2000 <= r <= 0x200A
    || r == 0x2028 || r == 0x2029 || r == 0x202F || r == 0x205F || r == 0x3000
  }

  function SkipSpaces(s: bytes): (r: bytes)
    ensures |r| <= |s|
    ensures r != [] ==> !IsSpace(DecodeRune(r).0)
    decreases |s|
  {
    if s == [] || !IsSpace(DecodeRune(s).0) then s else SkipSpaces(s[DecodeRune(s).1..])
  }

  function WordLen(s: bytes): (n: nat)
    ensures n <= |s|
    ensures s != [] && !IsSpace(DecodeRune(s).0) ==> n > 0
    decreases |s|
  {
    if s == [] || IsSpace(DecodeRune(s).0) then 0 else DecodeRune(s).1 + WordLen(s[DecodeRune(s).1..])
  }

  /** The words between runs of white space. */
  function Fields(s: bytes): seq<bytes>
    decreases |s|
  {
    var t := SkipSpaces(s);
    if t == [] then [] else [t[..WordLen(t)]] + Fields(t[WordLen(t)..])
  }

  /** Visible ASCII octets, at least one. */
  predicate IsWord(w: bytes) {
    w != [] && forall i :: 0 <= i < |w| ==> IsGraph(w[i])
  }

  function Joined(ws: seq<bytes>): bytes {
    if ws == [] then []
    else if |ws| == 1 then ws[0]
    else ws[0] + ([SP] + Joined(ws[1..]))
  }

  lemma AsciiRune(s: bytes)
    requires s != [] && s[0] < 128
    ensures DecodeRune(s) == (s[0], 1)
  {
  }

  /** ASCII white space. */
  predicate IsBlank(b: byte) {
    9 <= b <= 13 || b == 32
  }

  lemma {:induction false} WordLenIs(w: bytes, rest: bytes)
    requires (forall i :: 0 <= i < |w| ==> IsGraph(w[i])) && (rest == [] || IsBlank(rest[0]))
    ensures WordLen(w + rest) == |w|
    decreases |w|
  {
    hide DecodeRune;
    if w == [] {
      assert w + rest == rest;
      if rest != [] { AsciiRune(rest); }
    } else {
      TailOfConcat(w, rest);
      AsciiRune(w + rest);
      WordLenIs(w[1..], rest);
    }
  }

  lemma FirstField(w: bytes, rest: bytes)
    requires IsWord(w) && (rest == [] || IsBlank(rest[0]))
    ensures Fields(w + rest) == [w] + Fields(rest)
  {
    hide DecodeRune;
    AsciiRune(w + rest);
    WordLenIs(w, rest);
    assert (w + rest)[..|w|] == w && (w + rest)[|w|..] == rest;
  }

  lemma SkipOne(b: byte, s: bytes)
    requires IsBlank(b)
    ensures Fields([b] + s) == Fields(s)
  {
    AsciiRune([b] + s);
    assert ([b] + s)[1..] == s;
  }

  /** The white space of Unicode is skipped, and nothing else that starts a text. */
  lemma SpaceSkipped(v: scalar, s: bytes)
    ensures if v in {9, 10, 11, 12, 13, 32, 0x85, 0xA0, 0x1680, 0x2028, 0x2029, 0x202F, 0x205F, 0x3000}
               || 0x2000 <= v <= 0x200A
            then Fields(Encode(v) + s) == Fields(s)
            else SkipSpaces(Encode(v) + s) == Encode(v) + s
  {
    EncodedChar(v, s);
    hide Encode, CharLen, Scalar;
  }

  /** A gap before each word, and one at the end. */
  function Spread(ws: seq<bytes>, gaps: seq<bytes>): bytes
    requires |gaps| == |ws| + 1
    decreases |ws|
  {
    if ws == [] then gaps[0] else gaps[0] + (ws[0] + Spread(ws[1..], gaps[1..]))
  }

  lemma {:induction false} SkipGap(gap: bytes, s: bytes)
    requires forall i :: 0 <= i < |gap| ==> IsBlank(gap[i])
    ensures Fields(gap + s) == Fields(s)
    decreases |gap|
  {
    hide Fields;
    if gap == [] {
      assert gap + s == s;
    } else {
      assert gap + s == [gap[0]] + (gap[1..] + s);
      SkipOne(gap[0], gap[1..] + s);
      SkipGap(gap[1..], s);
    }
  }

  /** Words are split at white space of any kind and length, with or without some at the ends. */
  lemma {:induction false} FieldsOfSpread(ws: seq<bytes>, gaps: seq<bytes>)
    requires |gaps| == |ws| + 1 && forall i :: 0 <= i < |ws| ==> IsWord(ws[i])
    requires forall i :: 0 <= i < |gaps| ==> forall j :: 0 <= j < |gaps[i]| ==> IsBlank(gaps[i][j])
    requires forall i :: 0 < i < |ws| ==> gaps[i] != []
    ensures Fields(Spread(ws, gaps)) == ws
    decreases |ws|
  {
    hide Fields, IsWord;
    if ws == [] {
      NoFields();
      assert gaps[0] + [] == gaps[0];
      SkipGap(gaps[0], []);
    } else {
      var rest := Spread(ws[1..], gaps[1..]);
      FieldsOfSpread(ws[1..], gaps[1..]);
      SkipGap(gaps[0], ws[0] + rest);
      SpreadFirst(ws[1..], gaps[1..]);
      FirstField(ws[0], rest);
    }
  }

  lemma SpreadFirst(ws: seq<bytes>, gaps: seq<bytes>)
    requires |gaps| == |ws| + 1 && (ws != [] ==> gaps[0] != [])
    requires forall j :: 0 <= j < |gaps[0]| ==> IsBlank(gaps[0][j])
    ensures var s := Spread(ws, gaps); s == [] || IsBlank(s[0])
  {
  }

  /** Words joined by single spaces are split again. */
  lemma {:induction false} FieldsOfJoined(ws: seq<bytes>)
    requires forall i :: 0 <= i < |ws| ==> IsWord(ws[i])
    ensures Fields(Joined(ws)) == ws
    ensures ws != [] ==> Joined(ws) != []
    decreases |ws|
  {
    hide Fields, IsWord;
    if ws == [] {
      NoFields();
    } else if |ws| == 1 {
      NoFields();
      WordNotEmpty(ws[0]);
      FirstField(ws[0], []);
      assert ws[0] + [] == ws[0];
    } else {
      FieldsOfJoined(ws[1..]);
      WordNotEmpty(ws[0]);
      SkipOne(SP, Joined(ws[1..]));
      FirstField(ws[0], [SP] + Joined(ws[1..]));
    }
  }

  lemma WordNotEmpty(w: bytes)
    requires IsWord(w)
    ensures w != []
  {
  }

  lemma NoFields()
    ensures Fields([]) == []
  {
  }

  // ------------------------------------------------------------------
  // The scanner

  /** strconv.ParseUint in base 10 with 32 bits. */
  function ParseUint32(b: bytes): (r: Option<nat>)
    ensures r.Some? ==> r.value <= MAX_UINT32
  {
    if b == [] || !AllDigits(b) then None
    else
      NumNonNegative(b);
      if Num(b) > MAX_UINT32 then None else Some(Num(b))
  }

  function ParseInt31(b: bytes): (r: Option<nat>)
    ensures r.Some? ==> r.value <= MAX_INT31
  {
    var v := ParseUint32(b);
    if v.Some? && v.value > MAX_INT31 then None else v
  }

  function ParseContinuation(b: bytes): Option<bool> {
    if b == [STAR] then Some(true) else if b == [DOT] then Some(false) else None
  }

  function ParseSEQ(fields: seq<bytes>): Scanned {
    if |fields| != 4 then Err(FieldCount)
    else if ParseInt31(fields[1]).None? then Err(BadNumber(1))
    else if ParseUint32(fields[2]).None? then Err(BadNumber(2))
    else if ParseUint32(fields[3]).None? then Err(BadNumber(3))
    else
      Ok(Frame(SEQ, ParseInt31(fields[1]).value, 0, false, 0, 0, 0, [],
               ParseUint32(fields[2]).value, ParseUint32(fields[3]).value))
  }

  /** The header of a data frame: a frame without its payload. */
  function ParseHeader(ft: FrameType, fields: seq<bytes>, maxPayloadSize: int): Scanned {
    if |fields| != (if ft == ANS then 7 else 6) then Err(FieldCount)
    else if ParseInt31(fields[1]).None? then Err(BadNumber(1))
    else if ParseInt31(fields[2]).None? then Err(BadNumber(2))
    else if ParseContinuation(fields[3]).None? then Err(BadContinuation)
    else if ParseUint32(fields[4]).None? then Err(BadNumber(4))
    else if ParseInt31(fields[5]).None? then Err(BadNumber(5))
    else if ft == ANS && ParseInt31(fields[6]).None? then Err(BadNumber(6))
    else
      var more, size := ParseContinuation(fields[3]).value, ParseInt31(fields[5]).value;
      if ft == NUL && more then Err(NulWithMore)
      else if ft == NUL && size != 0 then Err(NulWithSize)
      else if maxPayloadSize > 0 && size > maxPayloadSize then Err(TooLarge)
      else
        Ok(Frame(ft, ParseInt31(fields[1]).value, ParseInt31(fields[2]).value, more, ParseUint32(fields[4]).value, size,
                 if ft == ANS then ParseInt31(fields[6]).value else 0, [], 0, 0))
  }

  /** Payload and trailer after the header of h. */
  function ReadBody(h: Frame, rest: bytes): (Scanned, bytes) {
    if |rest| < h.size then (Err(ShortPayload), [])
    else
      var payload, tail := rest[..h.size], rest[h.size..];
      if |tail| < 5 then (Err(ShortTrailer), [])
      else if tail[..5] != TRAILER then (Err(BadTrailer), tail[5..])
      else (Ok(h.(payload := payload)), tail[5..])
  }

  /** A frame or error by the words of the header. */
  function ParseFields(fields: seq<bytes>, maxPayloadSize: int, rest: bytes): (Scanned, bytes) {
    if fields == [] then (Err(EmptyHeader), rest)
    else if KeywordToType(fields[0]).None? then (Err(UnknownKeyword), rest)
    else if KeywordToType(fields[0]).value == SEQ then (ParseSEQ(fields), rest)
    else
      var h := ParseHeader(KeywordToType(fields[0]).value, fields, maxPayloadSize);
      if h.Err? then (h, rest) else ReadBody(h.frame, rest)
  }

  function ParseLine(line: bytes, maxPayloadSize: int, rest: bytes): (Scanned, bytes)
    requires line != []
  {
    if |line| > MAX_HEADER_LEN then (Err(HeaderTooLong), rest)
    else if |line| < 2 || line[|line| - 2] != CR || line[|line| - 1] != LF then (Err(NoCRLF), rest)
    else ParseFields(Fields(line[..|line| - 2]), maxPayloadSize, rest)
  }

  /** The next frame or error, and what is left to read. */
  function NextFrame(maxPayloadSize: int, s: bytes): (Scanned, bytes) {
    var i := IndexOf(s, LF);
    if s == [] then (Err(EndOfStream), [])
    else if i == |s| then (Err(NoHeader), [])
    else ParseLine(s[..i + 1], maxPayloadSize, s[i + 1..])
  }

  class Scanner {
    const input: bytes
    const maxPayloadSize: int
    var pos: nat

    constructor (input: bytes, maxPayloadSize: int)
      ensures this.input == input && this.maxPayloadSize == maxPayloadSize && Valid() && Left() == input
    {
      this.input, this.maxPayloadSize := input, maxPayloadSize;
      pos := 0;
    }

    predicate Valid()
      reads this
    {
      pos <= |input|
    }

    function Left(): bytes
      requires Valid()
      reads this
    {
      input[pos..]
    }

    /** Up to and with the next LF, or what is left and an error. */
    method ReadLine() returns (line: bytes, ok: bool)
      requires Valid()
      modifies this
      ensures Valid()
      ensures var s := old(Left()); var i := IndexOf(s, LF);
              if i == |s| then !ok && line == s && Left() == [] else ok && line == s[..i + 1] && Left() == s[i + 1..]
    {
      ghost var s := Left();
      var i := IndexOf(input[pos..], LF);
      if i == |input| - pos {
        line, ok := input[pos..], false;
        pos := |input|;
      } else {
        line, ok := input[pos..][..i + 1], true;
        pos := pos + i + 1;
        assert Left() == s[i + 1..];
      }
    }

    /** io.ReadFull: n octets, or an error that leaves nothing. */
    method ReadFull(n: nat) returns (b: bytes, ok: bool)
      requires Valid()
      modifies this
      ensures Valid()
      ensures ok <==> n <= |old(Left())|
      ensures if ok then b == old(Left())[..n] && Left() == old(Left())[n..] else Left() == []
    {
      ghost var s := Left();
      if n > |input| - pos {
        b, ok := input[pos..], false;
        pos := |input|;
        return;
      }
      b, ok := input[pos..][..n], true;
      pos := pos + n;
      assert Left() == s[n..];
    }

    method Scan() returns (r: Scanned)
      requires Valid()
      modifies this
      ensures Valid()
      ensures (r, Left()) == NextFrame(maxPayloadSize, old(Left()))
    {
      hide Fields, KeywordToType, ParseSEQ, ParseHeader, ReadBody, IndexOf;
      var line, ok := ReadLine();
      if !ok {
        return Err(if line == [] then EndOfStream else NoHeader);
      }
      if |line| > MAX_HEADER_LEN {
        return Err(HeaderTooLong);
      }
      if |line| < 2 || line[|line| - 2] != CR || line[|line| - 1] != LF {
        return Err(NoCRLF);
      }
      line := line[..|line| - 2];
      var fields := Fields(line);
      if |fields| < 1 {
        return Err(EmptyHeader);
      }
      var ft := KeywordToType(fields[0]);
      if ft.None? {
        return Err(UnknownKeyword);
      }
      if ft.value == SEQ {
        return ParseSEQ(fields);
      }
      var h := ParseHeader(ft.value, fields, maxPayloadSize);
      if h.Err? {
        return h;
      }
      r := ScanBody(h.frame);
    }

    method ScanBody(h: Frame) returns (r: Scanned)
      requires Valid()
      modifies this
      ensures Valid()
      ensures (r, Left()) == ReadBody(h, old(Left()))
    {
      var payload: bytes := [];
      var ok;
      ghost var s := Left();
      if h.size > 0 {
        payload, ok := ReadFull(h.size);
        if !ok {
          return Err(ShortPayload);
        }
      }
      assert Left() == s[h.size..];
      var trailer;
      trailer, ok := ReadFull(5);
      if !ok {
        return Err(ShortTrailer);
      }
      if trailer != TRAILER {
        return Err(BadTrailer);
      }
      return Ok(h.(payload := payload));
    }
  }

  // ------------------------------------------------------------------
  // Encoding and reading back

  /** The bounds of the RFCs, and the limit of the scanner. */
  predicate ValidFrame(f: Frame, maxPayloadSize: int) {
    && f.channel <= MAX_INT31
    && if f.typ == SEQ then
         && f.ackno <= MAX_UINT32 && f.window <= MAX_UINT32
         && f == Frame(SEQ, f.channel, 0, false, 0, 0, 0, [], f.ackno, f.window)
       else
         && f.msgno <= MAX_INT31 && f.seqno <= MAX_UINT32 && f.ackno == f.window == 0
         && f.size == |f.payload| <= MAX_INT31
         && (if f.typ == ANS then f.ansno <= MAX_INT31 else f.ansno == 0)
         && (f.typ == NUL ==> !f.more && f.size == 0)
         && (maxPayloadSize > 0 ==> f.size <= maxPayloadSize)
  }

  function Words(f: Frame): seq<bytes> {
    if f.typ == SEQ then [Keyword(SEQ), Dec(f.channel), Dec(f.ackno), Dec(f.window)]
    else
      [Keyword(f.typ), Dec(f.channel), Dec(f.msgno), [if f.more then STAR else DOT], Dec(f.seqno), Dec(f.size)]
      + if f.typ == ANS then [Dec(f.ansno)] else []
  }

  function HeaderText(f: Frame): bytes {
    Joined(Words(f)) + [CR, LF]
  }

  function FrameText(f: Frame): bytes {
    HeaderText(f) + if f.typ == SEQ then [] else f.payload + TRAILER
  }

  lemma DecWord(n: nat)
    ensures IsWord(Dec(n)) && AllDigits(Dec(n)) && Num(Dec(n)) == n
    ensures n <= MAX_UINT32 ==> |Dec(n)| <= 10
  {
    NumDec(n);
    assert Pow10(10) == 10000000000 by {
      assert Pow10(5) == 100000;
      assert Pow10(10) == 100000 * Pow10(5);
    }
    if n <= MAX_UINT32 { DecLength(n, 10); }
  }

  lemma DecParses(n: nat)
    ensures ParseUint32(Dec(n)) == if n <= MAX_UINT32 then Some(n) else None
    ensures n <= MAX_INT31 ==> ParseInt31(Dec(n)) == Some(n)
  {
    DecWord(n);
    hide Dec, Num;
  }

  lemma {:induction false} JoinedLength(ws: seq<bytes>)
    requires forall i :: 0 <= i < |ws| ==> |ws[i]| <= 10
    ensures |Joined(ws)| <= 11 * |ws|
    decreases |ws|
  {
    if |ws| > 1 { JoinedLength(ws[1..]); }
  }

  lemma {:induction false} JoinedOctets(ws: seq<bytes>)
    requires forall i :: 0 <= i < |ws| ==> IsWord(ws[i])
    ensures forall i :: 0 <= i < |Joined(ws)| ==> Joined(ws)[i] >= SP
    decreases |ws|
  {
    if |ws| > 1 { JoinedOctets(ws[1..]); }
  }

  lemma HeaderWords(f: Frame, maxPayloadSize: int)
    requires ValidFrame(f, maxPayloadSize)
    ensures forall i :: 0 <= i < |Words(f)| ==> IsWord(Words(f)[i]) && |Words(f)[i]| <= 10
  {
    hide Dec, Num, IsWord;
    DecWord(f.channel);
    DecWord(f.msgno);
    DecWord(f.seqno);
    DecWord(f.size);
    DecWord(f.ansno);
    DecWord(f.ackno);
    DecWord(f.window);
    MoreWord(f.more);
  }

  lemma MoreWord(more: bool)
    ensures IsWord([if more then STAR else DOT])
  {
  }

  /** Every canonical header fits the header limit. */
  lemma HeaderFits(f: Frame, maxPayloadSize: int)
    requires ValidFrame(f, maxPayloadSize)
    ensures |HeaderText(f)| <= MAX_HEADER_LEN
  {
    HeaderWords(f, maxPayloadSize);
    JoinedLength(Words(f));
  }

  /** The first line of a frame is its header. */
  lemma HeaderLine(f: Frame, maxPayloadSize: int, rest: bytes)
    requires ValidFrame(f, maxPayloadSize)
    ensures var line := HeaderText(f);
            && IndexOf(line + rest, LF) == |line| - 1 && (line + rest)[..|line|] == line && (line + rest)[|line|..] == rest
            && line[|line| - 2] == CR && line[|line| - 1] == LF && line[..|line| - 2] == Joined(Words(f))
  {
    hide Words, Joined;
    HeaderWords(f, maxPayloadSize);
    JoinedOctets(Words(f));
    var line, s := HeaderText(f), HeaderText(f) + rest;
    assert s[..|line| - 1] == Joined(Words(f)) + [CR];
    IndexIs(s, LF, |line| - 1);
  }

  lemma SeqParses(f: Frame, maxPayloadSize: int)
    requires ValidFrame(f, maxPayloadSize) && f.typ == SEQ
    ensures ParseSEQ(Words(f)) == Ok(f)
  {
    hide Dec, ParseUint32, ParseInt31;
    DecParses(f.channel);
    DecParses(f.ackno);
    DecParses(f.window);
  }

  lemma HeaderParses(f: Frame, maxPayloadSize: int)
    requires ValidFrame(f, maxPayloadSize) && f.typ != SEQ
    ensures ParseHeader(f.typ, Words(f), maxPayloadSize) == Ok(f.(payload := []))
  {
    hide Dec, ParseUint32, ParseInt31;
    DecParses(f.channel);
    DecParses(f.msgno);
    DecParses(f.seqno);
    DecParses(f.size);
    DecParses(f.ansno);
  }

  lemma KeywordKnown(ft: FrameType)
    ensures KeywordToType(Keyword(ft)) == Some(ft)
  {
  }

  lemma BodyRead(f: Frame, rest: bytes)
    requires f.size == |f.payload|
    ensures ReadBody(f.(payload := []), f.payload + TRAILER + rest) == (Ok(f), rest)
  {
    var s := f.payload + TRAILER + rest;
    assert s[..f.size] == f.payload && s[f.size..] == TRAILER + rest;
    assert (TRAILER + rest)[..5] == TRAILER && (TRAILER + rest)[5..] == rest;
  }

  /**
   Frame round trip: a frame within the bounds is read back from its canonical text, and
   what follows is left, whatever the payload looks like.
   */
  lemma FrameRoundTrip(f: Frame, maxPayloadSize: int, rest: bytes)
    requires ValidFrame(f, maxPayloadSize)
    ensures NextFrame(maxPayloadSize, FrameText(f) + rest) == (Ok(f), rest)
  {
    hide Words, Fields, Joined, ParseHeader, ParseSEQ, ReadBody, IndexOf, ValidFrame;
    var line := HeaderText(f);
    var after := (if f.typ == SEQ then [] else f.payload + TRAILER) + rest;
    assert FrameText(f) + rest == line + after;
    HeaderLine(f, maxPayloadSize, after);
    HeaderFits(f, maxPayloadSize);
    HeaderWords(f, maxPayloadSize);
    FieldsOfJoined(Words(f));
    FirstWord(f);
    KeywordKnown(f.typ);
    if f.typ == SEQ {
      SeqParses(f, maxPayloadSize);
      assert after == rest;
    } else {
      HeaderParses(f, maxPayloadSize);
      SizeIs(f, maxPayloadSize);
      BodyRead(f, rest);
    }
  }

  lemma FirstWord(f: Frame)
    ensures Words(f) != [] && Words(f)[0] == Keyword(f.typ)
  {
  }

  lemma SizeIs(f: Frame, maxPayloadSize: int)
    requires ValidFrame(f, maxPayloadSize) && f.typ != SEQ
    ensures f.size == |f.payload|
  {
  }

  function StreamText(fs: seq<Frame>): bytes {
    if fs == [] then [] else FrameText(fs[0]) + StreamText(fs[1..])
  }

  /** A frame takes the line up to the first LF, its payload and its trailer, and nothing else. */
  lemma FrameTakes(maxPayloadSize: int, s: bytes)
    ensures var (r, rest), i := NextFrame(maxPayloadSize, s), IndexOf(s, LF);
            r.Ok? ==> i < |s| && s == s[..i + 1] + AfterHeader(r.frame, rest)
  {
    hide Fields, KeywordToType, ParseHeader, ParseSEQ, ReadBody;
    var i := IndexOf(s, LF);
    if i < |s| {
      assert s == s[..i + 1] + s[i + 1..];
      LineTakes(s[..i + 1], maxPayloadSize, s[i + 1..]);
    }
  }

  /** The payload and the trailer of a data frame, and the rest. */
  function AfterHeader(f: Frame, rest: bytes): bytes {
    if f.typ == SEQ then rest else f.payload + TRAILER + rest
  }

  lemma LineTakes(line: bytes, maxPayloadSize: int, tail: bytes)
    requires line != []
    ensures var (r, rest) := ParseLine(line, maxPayloadSize, tail);
            r.Ok? ==> tail == AfterHeader(r.frame, rest)
  {
    hide Fields, ReadBody, ParseUint32, ParseInt31, ParseContinuation;
    if |line| >= 2 {
      var fields := Fields(line[..|line| - 2]);
      if fields != [] && KeywordToType(fields[0]).Some? {
        var h := ParseHeader(KeywordToType(fields[0]).value, fields, maxPayloadSize);
        if h.Ok? { BodyTakes(h.frame, tail); }
      }
    }
  }

  lemma BodyTakes(h: Frame, tail: bytes)
    ensures var (r, rest) := ReadBody(h, tail);
            r.Ok? ==> r.frame.typ == h.typ && tail == r.frame.payload + TRAILER + rest
  {
    if |tail| >= h.size + 5 {
      assert tail == tail[..h.size] + tail[h.size..][..5] + tail[h.size..][5..];
    }
  }

  /** All frames up to the first error, and the error. */
  function AllFrames(maxPayloadSize: int, s: bytes): (seq<Frame>, FrameError)
    decreases |s|
  {
    var (r, rest) := NextFrame(maxPayloadSize, s);
    FrameTakes(maxPayloadSize, s);
    match r
    case Err(e) => ([], e)
    case Ok(f) =>
      var (fs, e) := AllFrames(maxPayloadSize, rest);
      ([f] + fs, e)
  }

  /** Whole lists of frames are read back, up to the end of the stream. */
  lemma {:induction false} StreamRoundTrip(fs: seq<Frame>, maxPayloadSize: int)
    requires forall i :: 0 <= i < |fs| ==> ValidFrame(fs[i], maxPayloadSize)
    ensures AllFrames(maxPayloadSize, StreamText(fs)) == (fs, EndOfStream)
    decreases |fs|
  {
    hide NextFrame, ValidFrame, FrameText;
    if fs == [] {
      NothingLeft(maxPayloadSize);
    } else {
      FrameRoundTrip(fs[0], maxPayloadSize, StreamText(fs[1..]));
      StreamRoundTrip(fs[1..], maxPayloadSize);
      assert StreamText(fs) == FrameText(fs[0]) + StreamText(fs[1..]);
      assert fs == [fs[0]] + fs[1..];
    }
  }

  /** Conversely every frame that is read, from whatever octets, is within the bounds. */
  lemma ReadIsValid(maxPayloadSize: int, s: bytes)
    ensures var (r, rest) := NextFrame(maxPayloadSize, s); r.Ok? ==> ValidFrame(r.frame, maxPayloadSize)
  {
    hide Fields, Num, ParseContinuation;
  }

  lemma NothingLeft(maxPayloadSize: int)
    ensures NextFrame(maxPayloadSize, []) == (Err(EndOfStream), [])
  {
  }

  // ------------------------------------------------------------------
  // What is read and what is refused, in octets

  predicate Names(k: bytes, ft: FrameType) {
    match ft
    case MSG => k == [77, 83, 71]
    case RPY => k == [82, 80, 89]
    case ERR => k == [69, 82, 82]
    case ANS => k == [65, 78, 83]
    case NUL => k == [78, 85, 76]
    case SEQ => k == [83, 69, 81]
  }

  /** The numbers of words of a header: keyword channel ackno window, or keyword channel msgno more seqno size [ansno]. */
  predicate Counted(ft: FrameType, ws: seq<bytes>) {
    ws != [] && Names(ws[0], ft) && |ws| == if ft == SEQ then 4 else if ft == ANS then 7 else 6
  }

  predicate IsNumber(w: bytes, most: nat) {
    w != [] && AllDigits(w) && Num(w) <= most
  }

  /** ackno, window and seqno have 32 bits, the others 31; the continuation is `*` or `.`. */
  predicate GoodWord(ft: FrameType, ws: seq<bytes>, i: nat)
    requires 1 <= i < |ws|
  {
    if ft == SEQ then IsNumber(ws[i], if i == 1 then 2147483647 else 4294967295)
    else if i == 3 then ws[3] == [42] || ws[3] == [46]
    else IsNumber(ws[i], if i == 4 then 4294967295 else 2147483647)
  }

  /** The first word after the keyword that is not what it should be. */
  predicate FirstBad(ft: FrameType, ws: seq<bytes>, i: nat) {
    Counted(ft, ws) && 1 <= i < |ws| && !GoodWord(ft, ws, i) && forall j :: 1 <= j < i ==> GoodWord(ft, ws, j)
  }

  predicate Good(ft: FrameType, ws: seq<bytes>) {
    Counted(ft, ws) && forall j :: 1 <= j < |ws| ==> GoodWord(ft, ws, j)
  }

  /** A good header of a data frame that the scanner goes on with: size octets and a trailer should follow. */
  predicate GoesOn(ft: FrameType, ws: seq<bytes>, maxPayloadSize: int) {
    && ft != SEQ && Good(ft, ws)
    && (ft == NUL ==> ws[3] == [46] && Num(ws[5]) == 0)
    && (maxPayloadSize > 0 ==> Num(ws[5]) <= maxPayloadSize)
  }

  /** The fields of f are what the words say; those its type does not have are zero. */
  ghost predicate Says(ws: seq<bytes>, f: Frame, maxPayloadSize: int) {
    if f.typ == SEQ then
      && Good(SEQ, ws)
      && f == Frame(SEQ, f.channel, 0, false, 0, 0, 0, [], f.ackno, f.window)
      && f.channel == Num(ws[1]) && f.ackno == Num(ws[2]) && f.window == Num(ws[3])
    else
      && GoesOn(f.typ, ws, maxPayloadSize)
      && f.channel == Num(ws[1]) && f.msgno == Num(ws[2]) && f.more == (ws[3] == [42])
      && f.seqno == Num(ws[4]) && f.size == Num(ws[5]) == |f.payload|
      && f.ansno == (if f.typ == ANS then Num(ws[6]) else 0)
      && f.ackno == 0 && f.window == 0
  }

  /** A header line of at most 128 octets that ends in the first LF, with a CR before it. */
  predicate IsLine(s: bytes, body: bytes, after: bytes) {
    s == body + [13, 10] + after && 10 !in body && |body| + 2 <= 128
  }

  /** What follows the header of f. */
  predicate Follows(f: Frame, after: bytes, rest: bytes) {
    if f.typ == SEQ then after == rest else after == f.payload + [69, 78, 68, 13, 10] + rest
  }

  lemma KeywordNames(k: bytes, ft: FrameType)
    ensures KeywordToType(k) == Some(ft) <==> Names(k, ft)
  {
  }

  lemma NumberParses(w: bytes)
    ensures ParseUint32(w).Some? <==> IsNumber(w, 4294967295)
    ensures ParseInt31(w).Some? <==> IsNumber(w, 2147483647)
    ensures ParseUint32(w).Some? ==> ParseUint32(w).value == Num(w)
    ensures ParseInt31(w).Some? ==> ParseInt31(w).value == Num(w)
  {
    hide Num;
  }

  predicate GoodAt(ft: FrameType, ws: seq<bytes>, i: nat) {
    1 <= i < |ws| && GoodWord(ft, ws, i)
  }

  /** The conditions on the words, one by one. */
  lemma WordByWord(ft: FrameType, ws: seq<bytes>, i: nat)
    ensures Good(ft, ws) <==>
              && Counted(ft, ws)
              && GoodAt(ft, ws, 1) && GoodAt(ft, ws, 2) && GoodAt(ft, ws, 3)
              && (ft == SEQ || (GoodAt(ft, ws, 4) && GoodAt(ft, ws, 5) && (ft == ANS ==> GoodAt(ft, ws, 6))))
    ensures FirstBad(ft, ws, i) <==>
              && Counted(ft, ws)
              && 1 <= i < |ws| && !GoodAt(ft, ws, i)
              && (i > 1 ==> GoodAt(ft, ws, 1)) && (i > 2 ==> GoodAt(ft, ws, 2)) && (i > 3 ==> GoodAt(ft, ws, 3))
              && (i > 4 ==> GoodAt(ft, ws, 4)) && (i > 5 ==> GoodAt(ft, ws, 5))
  {
    hide GoodWord;
    forall j | 1 <= j < |ws| ensures GoodAt(ft, ws, j) <==> GoodWord(ft, ws, j) {}
  }

  /** A header of a SEQ frame. */
  lemma SeqSays(ws: seq<bytes>, f: Frame, maxPayloadSize: int, i: nat)
    requires ws != [] && Names(ws[0], SEQ)
    ensures ParseSEQ(ws) == Ok(f) <==> f.typ == SEQ && Says(ws, f, maxPayloadSize)
    ensures ParseSEQ(ws) == Err(FieldCount) <==> !Counted(SEQ, ws)
    ensures ParseSEQ(ws) == Err(BadNumber(i)) <==> FirstBad(SEQ, ws, i)
    ensures ParseSEQ(ws).Err? ==> ParseSEQ(ws).error == FieldCount || ParseSEQ(ws).error.BadNumber?
  {
    hide ParseUint32, ParseInt31, Num, IsNumber, Good, FirstBad;
    WordByWord(SEQ, ws, i);
    if |ws| == 4 {
      NumberParses(ws[1]);
      NumberParses(ws[2]);
      NumberParses(ws[3]);
    }
  }

  /** A header of a data frame. */
  lemma DataSays(ft: FrameType, ws: seq<bytes>, maxPayloadSize: int, i: nat)
    requires ft != SEQ && ws != [] && Names(ws[0], ft)
    ensures var h := ParseHeader(ft, ws, maxPayloadSize);
            && (h.Ok? <==> GoesOn(ft, ws, maxPayloadSize))
            && (h.Ok? ==> h.frame.typ == ft && Says(ws, h.frame.(payload := seq(h.frame.size, k => 0)), maxPayloadSize))
            && (h == Err(FieldCount) <==> !Counted(ft, ws))
            && (h == Err(BadNumber(i)) <==> FirstBad(ft, ws, i) && i != 3)
            && (h == Err(BadContinuation) <==> FirstBad(ft, ws, 3))
            && (h == Err(NulWithMore) <==> Good(ft, ws) && ft == NUL && ws[3] == [42])
            && (h == Err(NulWithSize) <==> Good(ft, ws) && ft == NUL && ws[3] == [46] && Num(ws[5]) != 0)
            && (h == Err(TooLarge) <==> Good(ft, ws) && (ft == NUL ==> ws[3] == [46] && Num(ws[5]) == 0)
                                        && 0 < maxPayloadSize < Num(ws[5]))
  {
    hide ParseUint32, ParseInt31, Num, IsNumber, Good, FirstBad;
    WordByWord(ft, ws, i);
    WordByWord(ft, ws, 3);
    if |ws| == (if ft == ANS then 7 else 6) {
      NumberParses(ws[1]);
      NumberParses(ws[2]);
      NumberParses(ws[4]);
      NumberParses(ws[5]);
      if ft == ANS { NumberParses(ws[6]); }
    }
  }

  /** The words of a header that is refused, whatever follows it. */
  ghost predicate HeaderRefused(ws: seq<bytes>, maxPayloadSize: int, e: FrameError) {
    match e
    case EmptyHeader => ws == []
    case UnknownKeyword => ws != [] && forall ft: FrameType :: !Names(ws[0], ft)
    case FieldCount => ws != [] && exists ft: FrameType :: Names(ws[0], ft) && !Counted(ft, ws)
    case BadNumber(i) => exists ft: FrameType :: FirstBad(ft, ws, i) && (ft == SEQ || i != 3)
    case BadContinuation => exists ft: FrameType :: FirstBad(ft, ws, 3) && ft != SEQ
    case NulWithMore => Good(NUL, ws) && ws[3] == [42]
    case NulWithSize => Good(NUL, ws) && ws[3] == [46] && Num(ws[5]) != 0
    case TooLarge =>
      exists ft: FrameType ::
        && Good(ft, ws) && ft != SEQ && (ft == NUL ==> ws[3] == [46] && Num(ws[5]) == 0)
        && 0 < maxPayloadSize < Num(ws[5])
    case _ => false
  }

  /** What is missing, or wrong, after the header of a data frame with size octets. */
  predicate BodyRefused(size: int, after: bytes, e: FrameError, rest: bytes) {
    match e
    case ShortPayload => |after| < size && rest == []
    case ShortTrailer => size <= |after| < size + 5 && rest == []
    case BadTrailer =>
      0 <= size && size + 5 <= |after| && after[size..size + 5] != [69, 78, 68, 13, 10] && rest == after[size + 5..]
    case _ => false
  }

  ghost predicate WordsRefused(ws: seq<bytes>, maxPayloadSize: int, after: bytes, e: FrameError, rest: bytes) {
    if e == ShortPayload || e == ShortTrailer || e == BadTrailer then
      exists ft: FrameType :: GoesOn(ft, ws, maxPayloadSize) && BodyRefused(Num(ws[5]), after, e, rest)
    else HeaderRefused(ws, maxPayloadSize, e) && rest == after
  }

  /** An input that is refused, and what is left of it. */
  ghost predicate Refused(maxPayloadSize: int, s: bytes, e: FrameError, rest: bytes) {
    match e
    case EndOfStream => s == [] && rest == []
    case NoHeader => s != [] && 10 !in s && rest == []
    case HeaderTooLong => exists line: bytes :: 10 !in line && s == line + [10] + rest && |line| + 1 > 128
    case NoCRLF =>
      exists line: bytes ::
        10 !in line && s == line + [10] + rest && |line| + 1 <= 128 && (line == [] || line[|line| - 1] != 13)
    case _ =>
      exists body: bytes, after: bytes ::
        IsLine(s, body, after) && WordsRefused(Fields(body), maxPayloadSize, after, e, rest)
  }

  /** The type of a keyword; a word that is none has none. */
  lemma TypeOf(k: bytes) returns (ft: Option<FrameType>)
    ensures KeywordToType(k) == ft
    ensures ft.Some? ==> Names(k, ft.value) && forall other: FrameType :: Names(k, other) ==> other == ft.value
    ensures ft.None? ==> forall other: FrameType :: !Names(k, other)
  {
    ft := KeywordToType(k);
    forall other: FrameType ensures Names(k, other) <==> ft == Some(other) { KeywordNames(k, other); }
  }

  lemma BodyOutcome(h: Frame, after: bytes, f: Frame, e: FrameError, rest: bytes)
    requires h.payload == []
    ensures ReadBody(h, after) == (Ok(f), rest)
       <==> |f.payload| == h.size && f.(payload := []) == h && after == f.payload + [69, 78, 68, 13, 10] + rest
    ensures ReadBody(h, after) == (Err(e), rest) <==> BodyRefused(h.size, after, e, rest)
  {
    if |after| >= h.size + 5 {
      assert after[h.size..][..5] == after[h.size..h.size + 5] && after[h.size..][5..] == after[h.size + 5..];
      assert after == after[..h.size] + after[h.size..h.size + 5] + after[h.size + 5..];
    }
    if after == f.payload + [69, 78, 68, 13, 10] + rest && |f.payload| == h.size {
      assert after[..h.size] == f.payload && after[h.size..h.size + 5] == [69, 78, 68, 13, 10];
      assert after[h.size + 5..] == rest;
    }
  }

  /** The header in the frame: says what the words say, with a payload of its size. */
  lemma HeaderOf(ft: FrameType, ws: seq<bytes>, maxPayloadSize: int, f: Frame)
    requires ft != SEQ && ParseHeader(ft, ws, maxPayloadSize).Ok? && ws != [] && Names(ws[0], ft)
    ensures var h := ParseHeader(ft, ws, maxPayloadSize).frame;
            && h.payload == [] && h.size == Num(ws[5])
            && (|f.payload| == h.size && f.(payload := []) == h <==> f.typ == ft && Says(ws, f, maxPayloadSize))
  {
    hide ParseUint32, ParseInt31, Num, IsNumber, Good, GoodWord;
    DataSays(ft, ws, maxPayloadSize, 1);
    NumberParses(ws[1]);
    NumberParses(ws[2]);
    NumberParses(ws[4]);
    NumberParses(ws[5]);
    if ft == ANS { NumberParses(ws[6]); }
  }

  lemma WordsRead(ws: seq<bytes>, maxPayloadSize: int, after: bytes, f: Frame, rest: bytes)
    ensures ParseFields(ws, maxPayloadSize, after) == (Ok(f), rest)
       <==> Says(ws, f, maxPayloadSize) && Follows(f, after, rest)
  {
    hide Names, KeywordToType, ParseSEQ, ParseHeader, ReadBody, GoodWord, Num;
    if ws != [] {
      var ft := TypeOf(ws[0]);
      if ft == Some(SEQ) {
        SeqSays(ws, f, maxPayloadSize, 1);
      } else if ft.Some? {
        DataSays(ft.value, ws, maxPayloadSize, 1);
        var h := ParseHeader(ft.value, ws, maxPayloadSize);
        if h.Ok? {
          HeaderOf(ft.value, ws, maxPayloadSize, f);
          BodyOutcome(h.frame, after, f, BadTrailer, rest);
        }
      }
    }
  }

  lemma SeqRefused(ws: seq<bytes>, maxPayloadSize: int, e: FrameError)
    requires ws != [] && KeywordToType(ws[0]) == Some(SEQ)
    ensures ParseSEQ(ws) == Err(e) <==> HeaderRefused(ws, maxPayloadSize, e)
    ensures forall ft: FrameType :: !GoesOn(ft, ws, maxPayloadSize)
  {
    hide Names, KeywordToType, ParseSEQ, GoodWord, Num;
    var ft := TypeOf(ws[0]);
    var f := Frame(SEQ, 0, 0, false, 0, 0, 0, [], 0, 0);
    SeqSays(ws, f, maxPayloadSize, if e.BadNumber? then e.field else 1);
  }

  lemma DataRefused(ft: FrameType, ws: seq<bytes>, maxPayloadSize: int, e: FrameError)
    requires ft != SEQ && ws != [] && KeywordToType(ws[0]) == Some(ft)
    ensures ParseHeader(ft, ws, maxPayloadSize) == Err(e) <==> HeaderRefused(ws, maxPayloadSize, e)
  {
    hide Names, KeywordToType, GoodWord, Num, ParseInt31, ParseUint32, ParseContinuation;
    var known := TypeOf(ws[0]);
    DataSays(ft, ws, maxPayloadSize, if e.BadNumber? then e.field else 1);
  }

  lemma WordsAreRefused(ws: seq<bytes>, maxPayloadSize: int, after: bytes, e: FrameError, rest: bytes)
    ensures ParseFields(ws, maxPayloadSize, after) == (Err(e), rest)
       <==> WordsRefused(ws, maxPayloadSize, after, e, rest)
  {
    hide Names, KeywordToType, ParseSEQ, ParseHeader, ReadBody, GoodWord, Good, Num, HeaderRefused, BodyRefused;
    if ws == [] {
      NoWords(maxPayloadSize, e);
    } else {
      var ft := TypeOf(ws[0]);
      if ft.None? {
        NoKeyword(ws, maxPayloadSize, e);
      } else if ft == Some(SEQ) {
        SeqRefused(ws, maxPayloadSize, e);
        NotHeaderErrors(ws, maxPayloadSize);
      } else {
        var h := ParseHeader(ft.value, ws, maxPayloadSize);
        DataRefused(ft.value, ws, maxPayloadSize, e);
        DataSays(ft.value, ws, maxPayloadSize, 1);
        NotHeaderErrors(ws, maxPayloadSize);
        if h.Ok? {
          HeaderOf(ft.value, ws, maxPayloadSize, h.frame);
          BodyOutcome(h.frame, after, h.frame, e, rest);
          OnlyBodyErrors(h.frame.size, after, e, rest);
        } else {
          DataRefused(ft.value, ws, maxPayloadSize, h.error);
          GoesOnNamed(ws, maxPayloadSize);
        }
      }
    }
  }

  lemma GoesOnNamed(ws: seq<bytes>, maxPayloadSize: int)
    ensures forall ft: FrameType :: GoesOn(ft, ws, maxPayloadSize) ==> ws != [] && Names(ws[0], ft)
  {
    hide GoodWord, Names;
  }

  lemma NotHeaderErrors(ws: seq<bytes>, maxPayloadSize: int)
    ensures !HeaderRefused(ws, maxPayloadSize, ShortPayload) && !HeaderRefused(ws, maxPayloadSize, ShortTrailer)
    ensures !HeaderRefused(ws, maxPayloadSize, BadTrailer)
  {
  }

  lemma OnlyBodyErrors(size: int, after: bytes, e: FrameError, rest: bytes)
    ensures BodyRefused(size, after, e, rest) ==> e == ShortPayload || e == ShortTrailer || e == BadTrailer
  {
  }

  lemma NoWords(maxPayloadSize: int, e: FrameError)
    ensures HeaderRefused([], maxPayloadSize, e) <==> e == EmptyHeader
    ensures forall ft: FrameType :: !GoesOn(ft, [], maxPayloadSize)
  {
  }

  lemma NoKeyword(ws: seq<bytes>, maxPayloadSize: int, e: FrameError)
    requires ws != [] && forall ft: FrameType :: !Names(ws[0], ft)
    ensures HeaderRefused(ws, maxPayloadSize, e) <==> e == UnknownKeyword
    ensures forall ft: FrameType :: !GoesOn(ft, ws, maxPayloadSize)
  {
    hide Names, GoodWord;
  }

  /** The header line is the one up to the first LF. */
  lemma ByLine(maxPayloadSize: int, s: bytes, line: bytes, after: bytes)
    requires 10 !in line && s == line + [10] + after
    ensures NextFrame(maxPayloadSize, s) == ParseLine(line + [10], maxPayloadSize, after)
  {
    hide ParseLine;
    assert s[..|line|] == line && s[..|line| + 1] == line + [10] && s[|line| + 1..] == after;
    IndexIs(s, LF, |line|);
  }

  lemma ByBody(maxPayloadSize: int, s: bytes, body: bytes, after: bytes)
    requires IsLine(s, body, after)
    ensures NextFrame(maxPayloadSize, s) == ParseFields(Fields(body), maxPayloadSize, after)
  {
    hide Fields, ParseFields, NextFrame;
    var line := body + [13] + [10];
    assert s == body + [13] + [10] + after;
    ByLine(maxPayloadSize, s, body + [13], after);
    assert line[..|line| - 2] == body;
  }

  lemma FirstLine(s: bytes) returns (line: bytes, after: bytes)
    requires 10 in s
    ensures 10 !in line && s == line + [10] + after
  {
    var i := IndexOf(s, LF);
    assert s[..|s|] == s;
    line, after := s[..i], s[i + 1..];
  }

  /** A line of at most 128 octets without its CR. */
  lemma LineBody(s: bytes, line: bytes, after: bytes) returns (body: bytes)
    requires 10 !in line && s == line + [10] + after && |line| + 1 <= 128 && line != [] && line[|line| - 1] == 13
    ensures IsLine(s, body, after)
  {
    body := line[..|line| - 1];
    assert line == body + [13];
  }

  /**
   A frame is read exactly when the first line is a header of at most 128 octets with
   CRLF, its words say the frame, and payload and trailer follow.
   */
  lemma FrameIsRead(maxPayloadSize: int, s: bytes, f: Frame, rest: bytes)
    ensures NextFrame(maxPayloadSize, s) == (Ok(f), rest)
       <==> exists body: bytes, after: bytes ::
              IsLine(s, body, after) && Says(Fields(body), f, maxPayloadSize) && Follows(f, after, rest)
  {
    hide Fields, ParseFields, NextFrame, Says, Follows, IsLine;
    if NextFrame(maxPayloadSize, s) == (Ok(f), rest) {
      var body, after := LineOfFrame(maxPayloadSize, s);
      ByBody(maxPayloadSize, s, body, after);
      WordsRead(Fields(body), maxPayloadSize, after, f, rest);
    }
    if body: bytes, after: bytes :|
      IsLine(s, body, after) && Says(Fields(body), f, maxPayloadSize) && Follows(f, after, rest) {
      ByBody(maxPayloadSize, s, body, after);
      WordsRead(Fields(body), maxPayloadSize, after, f, rest);
    }
  }

  lemma NoLine(maxPayloadSize: int, s: bytes)
    requires 10 !in s
    ensures NextFrame(maxPayloadSize, s) == (Err(if s == [] then EndOfStream else NoHeader), [])
  {
    hide ParseLine;
    var i := IndexOf(s, LF);
  }

  lemma LineOfFrame(maxPayloadSize: int, s: bytes) returns (body: bytes, after: bytes)
    requires NextFrame(maxPayloadSize, s).0.Ok?
    ensures IsLine(s, body, after)
  {
    hide Fields, ParseFields, NextFrame;
    if 10 !in s { NoLine(maxPayloadSize, s); }
    var line;
    line, after := FirstLine(s);
    ByLine(maxPayloadSize, s, line, after);
    assert line != [] && (line + [10])[|line| - 1] == line[|line| - 1];
    body := LineBody(s, line, after);
  }

  lemma LineError(line: bytes, maxPayloadSize: int, after: bytes)
    requires 10 !in line
    ensures |line| + 1 > 128 ==> ParseLine(line + [10], maxPayloadSize, after) == (Err(HeaderTooLong), after)
    ensures |line| + 1 <= 128 && (line == [] || line[|line| - 1] != 13) ==>
              ParseLine(line + [10], maxPayloadSize, after) == (Err(NoCRLF), after)
  {
    hide ParseFields, Fields;
    if line != [] { assert (line + [10])[|line| - 1] == line[|line| - 1]; }
  }

  predicate IsLineError(e: FrameError) {
    e in {EndOfStream, NoHeader, HeaderTooLong, NoCRLF}
  }

  lemma NotLineErrors(ws: seq<bytes>, maxPayloadSize: int, after: bytes, e: FrameError, rest: bytes)
    requires IsLineError(e)
    ensures !WordsRefused(ws, maxPayloadSize, after, e, rest)
  {
  }

  lemma RefusedByText(maxPayloadSize: int, s: bytes, e: FrameError, rest: bytes)
    requires NextFrame(maxPayloadSize, s) == (Err(e), rest)
    ensures Refused(maxPayloadSize, s, e, rest)
  {
    hide Fields, ParseFields, NextFrame, ParseLine, WordsRefused, IsLine;
    if 10 !in s {
      NoLine(maxPayloadSize, s);
    } else {
      var line, after := FirstLine(s);
      ByLine(maxPayloadSize, s, line, after);
      LineError(line, maxPayloadSize, after);
      if |line| + 1 <= 128 && line != [] && line[|line| - 1] == 13 {
        var body := LineBody(s, line, after);
        ByBody(maxPayloadSize, s, body, after);
        WordsAreRefused(Fields(body), maxPayloadSize, after, e, rest);
        if IsLineError(e) { NotLineErrors(Fields(body), maxPayloadSize, after, e, rest); }
      }
    }
  }

  lemma TextIsRefused(maxPayloadSize: int, s: bytes, e: FrameError, rest: bytes)
    requires Refused(maxPayloadSize, s, e, rest)
    ensures NextFrame(maxPayloadSize, s) == (Err(e), rest)
  {
    hide Fields, ParseFields, NextFrame, ParseLine, WordsRefused, IsLine;
    if e == EndOfStream || e == NoHeader {
      NoLine(maxPayloadSize, s);
    } else if e == HeaderTooLong {
      var line: bytes :| 10 !in line && s == line + [10] + rest && |line| + 1 > 128;
      ByLine(maxPayloadSize, s, line, rest);
      LineError(line, maxPayloadSize, rest);
    } else if e == NoCRLF {
      var line: bytes :|
        10 !in line && s == line + [10] + rest && |line| + 1 <= 128 && (line == [] || line[|line| - 1] != 13);
      ByLine(maxPayloadSize, s, line, rest);
      LineError(line, maxPayloadSize, rest);
    } else {
      var body: bytes, after: bytes :|
        IsLine(s, body, after) && WordsRefused(Fields(body), maxPayloadSize, after, e, rest);
      ByBody(maxPayloadSize, s, body, after);
      WordsAreRefused(Fields(body), maxPayloadSize, after, e, rest);
    }
  }

  /** An error is given exactly for the first thing that is wrong, and leaves what Refused says. */
  lemma FrameIsRefused(maxPayloadSize: int, s: bytes, e: FrameError, rest: bytes)
    ensures NextFrame(maxPayloadSize, s) == (Err(e), rest) <==> Refused(maxPayloadSize, s, e, rest)
  {
    hide NextFrame, Refused;
    if NextFrame(maxPayloadSize, s) == (Err(e), rest) { RefusedByText(maxPayloadSize, s, e, rest); }
    if Refused(maxPayloadSize, s, e, rest) { TextIsRefused(maxPayloadSize, s, e, rest); }
  }

  lemma UnknownWord(w: bytes, tail: bytes, maxPayloadSize: int, after: bytes)
    requires IsWord(w) && KeywordToType(w).None? && |w| + |tail| <= 125 && 10 !in w && 10 !in tail
    ensures NextFrame(maxPayloadSize, w + [32] + tail + [13, 10] + after) == (Err(UnknownKeyword), after)
  {
    hide Fields, NextFrame, KeywordToType, ParseSEQ, ParseHeader, ReadBody, IsWord;
    var body := w + [32] + tail;
    ByBody(maxPayloadSize, body + [13, 10] + after, body, after);
    FirstField(w, [SP] + tail);
    assert body == w + ([SP] + tail);
  }

  /** `FOO 0 1 . 52 0` is no header. */
  lemma UnknownFoo(maxPayloadSize: int, after: bytes)
    ensures NextFrame(maxPayloadSize, [70, 79, 79] + [32] + [48, 32, 49, 32, 46, 32, 53, 50, 32, 48] + [13, 10] + after)
         == (Err(UnknownKeyword), after)
  {
    hide NextFrame;
    UnknownWord([70, 79, 79], [48, 32, 49, 32, 46, 32, 53, 50, 32, 48], maxPayloadSize, after);
  }
}
