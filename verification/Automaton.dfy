/**
 rfc5424/machine.go as a pure automaton over octets. A state that the generated
 code unrolls (host names take 255 of its states) is one state with a count. The
 octets marked since pb are the token of the configuration, and the recorded
 backslashes are counted from its first octet. The first error ends the run; the
 fail state that follows it belongs to the machine, in Machine.
 */
module Automaton {
  import opened Bytes
  import opened Utf8
  import opened Functions
  import opened Timestamps
  import opened Messages

  datatype Options = Options(bestEffort: bool, compliantMsg: bool, optionalPriority: bool)

  datatype ErrorKind =
    | ErrPrival | ErrPri | ErrVersion | ErrTimestamp | ErrTime
    | ErrHostname | ErrAppname | ErrProcID | ErrMsgID
    | ErrStructuredData | ErrSdID | ErrSdIDDuplicated | ErrSdParam
    | ErrMsg | ErrMsgNotCompliant | ErrEscape | ErrParse

  /** The comments give the numbers of the generated states. */
  datatype State =
    | Start                          // 1
    | PriFirst                       // 2
    | PriLast                        // 3
    | PriOne                         // 593
    | PriTwo                         // 594
    | PriNineteen                    // 595
    | Body                           // 4
    | Version(count: nat)            // 5, 591, 592
    | TimeFirst                      // 6
    | TimeNil                        // 7
    | Time(number: int)              // 554..590
    | FieldFirst(f: Field)           // 8, 10, 12, 14
    | FieldRest(f: Field, count: nat)// 9 and 300..553, 11 and 253..299, 13 and 126..252, 15 and 95..125
    | SdFirst                        // 16
    | SdNil                          // 603
    | IdFirst                        // 17
    | IdRest(count: nat)             // 18, 64..94
    | NameFirst                      // 19
    | NameRest(count: nat)           // 20..51
    | NameEnd                        // 52
    | ValueFirst                     // 53
    | Value                          // 54
    | ValueEscape                    // 56
    | ValueTail(u: Utf8State)        // 57..63
    | ValueEnd                       // 55
    | ElementEnd                     // 606
    | MsgFirst                       // 604
    | AnyFirst                       // 607
    | AnyRest                        // 608
    | CompliantFirst                 // 609
    | Octets                         // 610
    | BomTwo                         // 611
    | BomThree                       // 612
    | Text                           // 613
    | TextTail(u: Utf8State)         // 596..602

  datatype Config = Config(
    cs: State, token: bytes, backslashes: seq<int>, elem: bytes, param: bytes, out: Draft)

  datatype Outcome = Go(c: Config) | Stop(kind: ErrorKind, out: Draft)

  datatype End = Accepted(out: Draft) | Rejected(kind: ErrorKind, col: nat, out: Draft)

  // ------------------------------------------------------------------
  // Actions

  function To(c: Config, cs: State): Outcome {
    Go(c.(cs := cs))
  }

  /** Moves on and forgets the token. */
  function Leave(c: Config, cs: State, out: Draft): Outcome {
    Go(c.(cs := cs, token := [], out := out))
  }

  function Mark(c: Config, cs: State, b: byte): Outcome {
    Go(c.(cs := cs, token := [b]))
  }

  function Take(c: Config, cs: State, b: byte): Outcome {
    Go(c.(cs := cs, token := c.token + [b]))
  }

  /** The narrowing conversions of Go. */
  function Uint8(n: int): byte {
    n % 256
  }

  function Uint16(n: int): nat {
    n % 65536
  }

  function SetPrival(c: Config): Draft {
    c.out.(priority := Uint8(Num(c.token)), prioritySet := true)
  }

  function SetVersion(c: Config): Draft {
    c.out.(version := Uint16(Num(c.token)))
  }

  function SetField(out: Draft, f: Field, s: bytes): Draft {
    match f
    case Hostname => out.(hostname := s)
    case Appname => out.(appname := s)
    case ProcID => out.(procID := s)
    case MsgID => out.(msgID := s)
  }

  function NewElement(out: Draft, id: bytes): Draft {
    out.(structuredData := out.structuredData[id := map[]], hasElements := true)
  }

  /** Go panics when the element is missing; StepInvariant says it never is. */
  function SetParam(out: Draft, elem: bytes, param: bytes, value: bytes): Draft {
    if elem in out.structuredData then
      out.(structuredData := out.structuredData[elem := out.structuredData[elem][param := value]])
    else out
  }

  /** The structured data element is dropped with its parameters. */
  function DropElement(out: Draft, elem: bytes): Draft {
    var sd := out.structuredData - {elem};
    out.(structuredData := sd, hasElements := if |sd| == 0 then false else out.hasElements)
  }

  function DropParam(out: Draft, elem: bytes, param: bytes): Draft {
    if elem in out.structuredData then
      out.(structuredData := out.structuredData[elem := out.structuredData[elem] - {param}])
    else out
  }

  /** The value of a parameter: its token without the recorded backslashes. */
  function Stripped(c: Config): bytes {
    if c.backslashes == [] then c.token else Without(c.token, c.backslashes, 0)
  }

  // ------------------------------------------------------------------
  // Transitions

  function FieldError(f: Field): ErrorKind {
    match f
    case Hostname => ErrHostname
    case Appname => ErrAppname
    case ProcID => ErrProcID
    case MsgID => ErrMsgID
  }

  /** The state after the space that ends a header field. */
  function AfterField(f: Field): State {
    match f
    case Hostname => FieldFirst(Appname)
    case Appname => FieldFirst(ProcID)
    case ProcID => FieldFirst(MsgID)
    case MsgID => SdFirst
  }

  /** Where one more digit of the PRIVAL leads. */
  function PriNext(cs: State, b: byte): Option<State> {
    match cs
    case PriOne => if b == NINE then Some(PriNineteen) else if IsDigit(b) then Some(PriTwo) else None
    case PriTwo => if IsDigit(b) then Some(PriLast) else None
    case PriNineteen => if Between(48, b, 49) then Some(PriLast) else None
    case _ => None
  }

  /** States 3 and 593..595 set the priority before they look at the octet. */
  function StepPri(c: Config, b: byte): Outcome {
    var d := c.(out := SetPrival(c));
    if b == GT then Leave(d, Body, d.out)
    else if PriNext(c.cs, b).Some? then Take(d, PriNext(c.cs, b).value, b)
    else Stop(ErrPrival, d.out)
  }

  /** States 5, 591 and 592 set the version before they look at the octet. */
  function StepVersion(c: Config, n: nat, b: byte): Outcome {
    var d := c.(out := SetVersion(c));
    if b == SP then Leave(d, TimeFirst, d.out)
    else if n < 3 && IsDigit(b) then Take(d, Version(n + 1), b)
    else Stop(if n == 1 then ErrParse else ErrVersion, d.out)
  }

  function StepTime(c: Config, n: int, b: byte): Outcome {
    if n == 578 then
      var t := ParseTime(c.token);
      if t.None? then Stop(ErrTime, c.out)
      else
        var out := c.out.(timestamp := t);
        if b == SP then Leave(c, FieldFirst(Hostname), out) else Stop(ErrParse, out)
    else
      var m := ParserNext(n, b);
      if m == 0 then Stop(ErrTimestamp, c.out) else Take(c, Time(m), b)
  }

  function StepFieldRest(c: Config, f: Field, n: nat, b: byte): Outcome {
    if b == SP then Leave(c, AfterField(f), SetField(c.out, f, c.token))
    else if n < MaxLength(f) && IsGraph(b) then Take(c, FieldRest(f, n + 1), b)
    else Stop(FieldError(f), c.out)
  }

  /** set_id, shared by the space, the bracket and the error exit. */
  function StepIdRest(c: Config, n: nat, b: byte): Outcome {
    if n < 32 && IsNameChar(b) then Take(c, IdRest(n + 1), b)
    else if c.token in c.out.structuredData then Stop(ErrSdIDDuplicated, c.out)
    else
      var out := NewElement(c.out, c.token);
      if b == SP then Leave(c.(elem := c.token), NameFirst, out)
      else if b == CLOSE then Leave(c.(elem := c.token), ElementEnd, out)
      else Stop(ErrSdID, DropElement(out, c.token))
  }

  function SdParamError(c: Config): Outcome {
    Stop(ErrSdParam, DropParam(c.out, c.elem, c.param))
  }

  function StepNameRest(c: Config, n: nat, b: byte): Outcome {
    if b == EQ then Leave(c.(param := c.token), NameEnd, c.out)
    else if n < 32 && IsNameChar(b) then Take(c, NameRest(n + 1), b)
    else SdParamError(c)
  }

  /** States 53 and 54: between two units of a parameter value. */
  function StepValue(c: Config, b: byte): Outcome {
    if b == DQ then Leave(c, ValueEnd, SetParam(c.out, c.elem, c.param, Stripped(c)))
    else if b == SLASH then Take(c.(backslashes := c.backslashes + [|c.token|]), ValueEscape, b)
    else if b == CLOSE || LeadOctet(b) == Bad then Stop(ErrEscape, c.out)
    else Take(c, if LeadOctet(b) == Ready then Value else ValueTail(LeadOctet(b)), b)
  }

  function StepValueTail(c: Config, u: Utf8State, b: byte): Outcome {
    var v := TailOctet(u, b);
    if v == Bad then SdParamError(c)
    else Take(c, if v == Ready then Value else ValueTail(v), b)
  }

  function MsgError(o: Options, c: Config): Outcome {
    Stop(if o.compliantMsg then ErrMsgNotCompliant else ErrMsg, c.out.(message := c.token))
  }

  function StepText(o: Options, c: Config, v: Utf8State, b: byte): Outcome {
    if v == Bad then MsgError(o, c)
    else Take(c, if v == Ready then Text else TextTail(v), b)
  }

  function StepAnyFirst(c: Config, b: byte): Outcome {
    Mark(c, AnyRest, b)
  }

  function StepCompliantFirst(c: Config, b: byte): Outcome {
    Mark(c, if b == 239 then BomTwo else Octets, b)
  }

  function Step(o: Options, c: Config, b: byte): Outcome {
    match c.cs
    case Start => if b == LT then To(c, PriFirst) else Stop(ErrPri, c.out)
    case PriFirst =>
      if b == 48 then Mark(c, PriLast, b)
      else if b == 49 then Mark(c, PriOne, b)
      else if Between(50, b, 57) then Mark(c, PriTwo, b)
      else Stop(ErrPrival, c.out)
    case PriLast => StepPri(c, b)
    case PriOne => StepPri(c, b)
    case PriTwo => StepPri(c, b)
    case PriNineteen => StepPri(c, b)
    case Body => if Between(49, b, 57) then Mark(c, Version(1), b) else Stop(ErrVersion, c.out)
    case Version(n) => StepVersion(c, n, b)
    case TimeFirst =>
      if b == DASH then To(c, TimeNil)
      else if IsDigit(b) then Mark(c, Time(554), b)
      else Stop(ErrTimestamp, c.out)
    case TimeNil => if b == SP then To(c, FieldFirst(Hostname)) else Stop(ErrParse, c.out)
    case Time(n) => StepTime(c, n, b)
    case FieldFirst(f) => if IsGraph(b) then Mark(c, FieldRest(f, 1), b) else Stop(FieldError(f), c.out)
    case FieldRest(f, n) => StepFieldRest(c, f, n, b)
    case SdFirst =>
      if b == DASH then To(c, SdNil)
      else if b == OPEN then Leave(c, IdFirst, c.out.(structuredData := map[]))
      else Stop(ErrStructuredData, c.out)
    case SdNil => if b == SP then To(c, MsgFirst) else Stop(ErrParse, c.out)
    case IdFirst => if IsNameChar(b) then Mark(c, IdRest(1), b) else Stop(ErrSdID, DropElement(c.out, c.elem))
    case IdRest(n) => StepIdRest(c, n, b)
    case NameFirst => if IsNameChar(b) then Mark(c.(backslashes := []), NameRest(1), b) else SdParamError(c)
    case NameRest(n) => StepNameRest(c, n, b)
    case NameEnd => if b == DQ then To(c, ValueFirst) else SdParamError(c)
    case ValueFirst => StepValue(c.(token := []), b)
    case Value => StepValue(c, b)
    case ValueEscape => if IsSpecial(b) then Take(c, Value, b) else Stop(ErrEscape, c.out)
    case ValueTail(u) => StepValueTail(c, u, b)
    case ValueEnd =>
      if b == SP then To(c, NameFirst)
      else if b == CLOSE then To(c, ElementEnd)
      else SdParamError(c)
    case ElementEnd =>
      if b == SP then To(c, MsgFirst)
      else if b == OPEN then To(c, IdFirst)
      else Stop(ErrStructuredData, c.out)
    case MsgFirst => if o.compliantMsg then StepCompliantFirst(c, b) else StepAnyFirst(c, b)
    case AnyFirst => StepAnyFirst(c, b)
    case AnyRest => Take(c, AnyRest, b)
    case CompliantFirst => StepCompliantFirst(c, b)
    case Octets => Take(c, Octets, b)
    case BomTwo => Take(c, if b == 187 then BomThree else Octets, b)
    case BomThree => Take(c, if b == 191 then Text else Octets, b)
    case Text => StepText(o, c, LeadOctet(b), b)
    case TextTail(u) => StepText(o, c, TailOctet(u, b), b)
  }

  // ------------------------------------------------------------------
  // End of input

  function EofTime(c: Config, n: int, col: nat): End {
    if n == 578 then
      var t := ParseTime(c.token);
      if t.None? then Rejected(ErrTime, col, c.out)
      else Rejected(ErrParse, col, c.out.(timestamp := t))
    else Rejected(ErrTimestamp, col, c.out)
  }

  function EofIdRest(c: Config, col: nat): End {
    if c.token in c.out.structuredData then Rejected(ErrSdIDDuplicated, col, c.out)
    else Rejected(ErrSdID, col, DropElement(NewElement(c.out, c.token), c.token))
  }

  function EofMessage(c: Config): End {
    Accepted(c.out.(message := c.token))
  }

  function AtEof(o: Options, c: Config, col: nat): End {
    match c.cs
    case Start => Rejected(ErrPri, col, c.out)
    case PriFirst => Rejected(ErrPrival, col, c.out)
    case PriLast => Rejected(ErrPrival, col, c.out)
    case PriOne => Rejected(ErrPrival, col, c.out)
    case PriTwo => Rejected(ErrPrival, col, c.out)
    case PriNineteen => Rejected(ErrPrival, col, c.out)
    case Body => Rejected(ErrVersion, col, c.out)
    case Version(n) => if n == 1 then Rejected(ErrParse, col, SetVersion(c)) else Rejected(ErrVersion, col, c.out)
    case TimeFirst => Rejected(ErrTimestamp, col, c.out)
    case TimeNil => Rejected(ErrParse, col, c.out)
    case Time(n) => EofTime(c, n, col)
    case FieldFirst(f) => Rejected(FieldError(f), col, c.out)
    case FieldRest(f, n) => Rejected(FieldError(f), col, c.out)
    case SdFirst => Rejected(ErrStructuredData, col, c.out)
    case SdNil => Accepted(c.out)
    case IdFirst => Rejected(ErrSdID, col, DropElement(c.out, c.elem))
    case IdRest(n) => EofIdRest(c, col)
    case NameFirst => Rejected(ErrSdParam, col, DropParam(c.out, c.elem, c.param))
    case NameRest(n) => Rejected(ErrSdParam, col, DropParam(c.out, c.elem, c.param))
    case NameEnd => Rejected(ErrSdParam, col, DropParam(c.out, c.elem, c.param))
    case ValueFirst => Rejected(ErrEscape, col, c.out)
    case Value => Rejected(ErrEscape, col, c.out)
    case ValueEscape => Rejected(ErrEscape, col, c.out)
    case ValueTail(u) => Rejected(ErrSdParam, col, DropParam(c.out, c.elem, c.param))
    case ValueEnd => Rejected(ErrSdParam, col, DropParam(c.out, c.elem, c.param))
    case ElementEnd => Accepted(c.out)
    case MsgFirst => Accepted(c.out)
    case AnyFirst => Accepted(c.out.(message := []))
    case AnyRest => EofMessage(c)
    case CompliantFirst => Accepted(c.out.(message := []))
    case Octets => EofMessage(c)
    case BomTwo => EofMessage(c)
    case BomThree => EofMessage(c)
    case Text => EofMessage(c)
    case TextTail(u) => Rejected(if o.compliantMsg then ErrMsgNotCompliant else ErrMsg, col, c.out.(message := c.token))
  }

  // ------------------------------------------------------------------
  // Runs

  function Run(o: Options, c: Config, s: bytes, col: nat): End
    decreases |s|
  {
    if s == [] then AtEof(o, c, col)
    else
      match Step(o, c, s[0])
      case Go(d) => Run(o, d, s[1..], col + 1)
      case Stop(kind, out) => Rejected(kind, col, out)
  }

  /** Without a PRI the parser starts at the VERSION, when it may. */
  function Initial(o: Options, s: bytes, elem: bytes, param: bytes): Config {
    var hasPriority := |s| > 0 && s[0] == LT;
    Config(if o.optionalPriority && !hasPriority then Body else Start, [], [], elem, param, BLANK)
  }

  function Parse(o: Options, s: bytes): End {
    Run(o, Initial(o, s, [], []), s, 0)
  }

  /** What the caller of Parse sees: a message, an error (with its column), or both. */
  datatype Reply = Reply(message: Option<Message>, error: Option<(ErrorKind, nat)>)

  function Answer(o: Options, e: End): Reply {
    match e
    case Accepted(out) => Reply(Some(out.Export()), None)
    case Rejected(kind, col, out) =>
      Reply(if o.bestEffort && out.Minimal(o.optionalPriority) then Some(out.Export()) else None, Some((kind, col)))
  }

  // ------------------------------------------------------------------
  // One octet

  /** A run over a concatenation starts with its first octet. */
  lemma RunHead(o: Options, c: Config, b: byte, rest: bytes, col: nat)
    ensures Run(o, c, [b] + rest, col)
         == if Step(o, c, b).Go? then Run(o, Step(o, c, b).c, rest, col + 1)
            else Rejected(Step(o, c, b).kind, col, Step(o, c, b).out)
  {
    hide Step;
    assert ([b] + rest)[1..] == rest;
  }

  /** An accepted run that is not over takes a live transition. */
  lemma RunLive(o: Options, c: Config, s: bytes, col: nat)
    requires s != [] && Run(o, c, s, col).Accepted?
    ensures Step(o, c, s[0]).Go?
    ensures Run(o, c, s, col) == Run(o, Step(o, c, s[0]).c, s[1..], col + 1)
  {
    hide Step;
  }

  /** The final states: after the SD part and inside a MSG, but not inside a character. */
  predicate IsFinal(cs: State) {
    match cs
    case SdNil => true
    case ElementEnd => true
    case MsgFirst => true
    case AnyFirst => true
    case AnyRest => true
    case CompliantFirst => true
    case Octets => true
    case BomTwo => true
    case BomThree => true
    case Text => true
    case _ => false
  }

  lemma EofFinal(o: Options, c: Config, col: nat)
    ensures AtEof(o, c, col).Accepted? <==> IsFinal(c.cs)
  {
  }

  /** Elsewhere an accepted run goes on. */
  lemma NotOver(o: Options, c: Config, s: bytes, col: nat)
    requires Run(o, c, s, col).Accepted? && !IsFinal(c.cs)
    ensures s != [] && s == [s[0]] + s[1..]
    ensures Step(o, c, s[0]).Go?
    ensures Run(o, c, s, col) == Run(o, Step(o, c, s[0]).c, s[1..], col + 1)
  {
    hide Step, AtEof;
    EofFinal(o, c, col);
  }

  /** Where the input may end inside a MSG. */
  lemma EndOfMessage(o: Options, c: Config, s: bytes, col: nat)
    requires c.cs in {AnyRest, Octets, BomTwo, BomThree, Text} && s == []
    ensures Run(o, c, s, col) == Accepted(c.out.(message := c.token))
  {
  }

  lemma StepOnStart(o: Options, c: Config, b: byte)
    requires c.cs == Start
    ensures Step(o, c, b) == if b == LT then To(c, PriFirst) else Stop(ErrPri, c.out)
  {
  }

  lemma StepOnPriFirst(o: Options, c: Config, b: byte)
    requires c.cs == PriFirst
    ensures b == 48 ==> Step(o, c, b) == Mark(c, PriLast, b)
    ensures b == 49 ==> Step(o, c, b) == Mark(c, PriOne, b)
    ensures 50 <= b <= 57 ==> Step(o, c, b) == Mark(c, PriTwo, b)
    ensures !IsDigit(b) ==> Step(o, c, b) == Stop(ErrPrival, c.out)
  {
  }

  lemma StepOnBody(o: Options, c: Config, b: byte)
    requires c.cs == Body
    ensures Step(o, c, b) == if 49 <= b <= 57 then Mark(c, Version(1), b) else Stop(ErrVersion, c.out)
  {
  }

  lemma StepOnTimeFirst(o: Options, c: Config, b: byte)
    requires c.cs == TimeFirst
    ensures Step(o, c, b) == if b == DASH then To(c, TimeNil)
                             else if IsDigit(b) then Mark(c, Time(554), b)
                             else Stop(ErrTimestamp, c.out)
  {
  }

  lemma StepOnTimeNil(o: Options, c: Config, b: byte)
    requires c.cs == TimeNil
    ensures Step(o, c, b) == if b == SP then To(c, FieldFirst(Hostname)) else Stop(ErrParse, c.out)
  {
  }

  lemma StepOnFieldFirst(o: Options, c: Config, f: Field, b: byte)
    requires c.cs == FieldFirst(f)
    ensures Step(o, c, b) == if IsGraph(b) then Mark(c, FieldRest(f, 1), b) else Stop(FieldError(f), c.out)
  {
  }

  lemma StepOnPri(o: Options, c: Config, b: byte)
    requires c.cs in {PriLast, PriOne, PriTwo, PriNineteen}
    ensures Step(o, c, b) == StepPri(c, b)
  {
  }

  lemma StepOnVersion(o: Options, c: Config, n: nat, b: byte)
    requires c.cs == Version(n)
    ensures Step(o, c, b) == StepVersion(c, n, b)
  {
  }

  lemma StepOnTime(o: Options, c: Config, n: int, b: byte)
    requires c.cs == Time(n)
    ensures Step(o, c, b) == StepTime(c, n, b)
  {
  }

  lemma StepOnField(o: Options, c: Config, f: Field, n: nat, b: byte)
    requires c.cs == FieldRest(f, n)
    ensures Step(o, c, b) == StepFieldRest(c, f, n, b)
  {
  }

  lemma StepOnSdFirst(o: Options, c: Config, b: byte)
    requires c.cs == SdFirst
    ensures Step(o, c, b) == if b == DASH then To(c, SdNil)
                             else if b == OPEN then Leave(c, IdFirst, c.out.(structuredData := map[]))
                             else Stop(ErrStructuredData, c.out)
  {
  }

  lemma StepOnSdNil(o: Options, c: Config, b: byte)
    requires c.cs == SdNil
    ensures Step(o, c, b) == if b == SP then To(c, MsgFirst) else Stop(ErrParse, c.out)
  {
  }

  lemma StepOnIdFirst(o: Options, c: Config, b: byte)
    requires c.cs == IdFirst
    ensures Step(o, c, b) == if IsNameChar(b) then Mark(c, IdRest(1), b)
                             else Stop(ErrSdID, DropElement(c.out, c.elem))
  {
  }

  lemma StepOnNameFirst(o: Options, c: Config, b: byte)
    requires c.cs == NameFirst
    ensures Step(o, c, b) == if IsNameChar(b) then Mark(c.(backslashes := []), NameRest(1), b) else SdParamError(c)
  {
  }

  lemma StepOnNameEnd(o: Options, c: Config, b: byte)
    requires c.cs == NameEnd
    ensures Step(o, c, b) == if b == DQ then To(c, ValueFirst) else SdParamError(c)
  {
  }

  lemma StepOnValueFirst(o: Options, c: Config, b: byte)
    requires c.cs == ValueFirst
    ensures Step(o, c, b) == StepValue(c.(token := []), b)
  {
  }

  lemma StepOnValueEscape(o: Options, c: Config, b: byte)
    requires c.cs == ValueEscape
    ensures Step(o, c, b) == if IsSpecial(b) then Take(c, Value, b) else Stop(ErrEscape, c.out)
  {
  }

  lemma StepOnValueEnd(o: Options, c: Config, b: byte)
    requires c.cs == ValueEnd
    ensures Step(o, c, b) == if b == SP then To(c, NameFirst)
                             else if b == CLOSE then To(c, ElementEnd)
                             else SdParamError(c)
  {
  }

  lemma StepOnElementEnd(o: Options, c: Config, b: byte)
    requires c.cs == ElementEnd
    ensures Step(o, c, b) == if b == SP then To(c, MsgFirst)
                             else if b == OPEN then To(c, IdFirst)
                             else Stop(ErrStructuredData, c.out)
  {
  }

  lemma StepOnMsgFirst(o: Options, c: Config, b: byte)
    requires c.cs == MsgFirst
    ensures Step(o, c, b) == if !o.compliantMsg then Mark(c, AnyRest, b)
                             else Mark(c, if b == 239 then BomTwo else Octets, b)
  {
  }

  lemma StepOnMessageFirst(o: Options, c: Config, b: byte)
    requires c.cs == AnyFirst || c.cs == CompliantFirst
    ensures c.cs == AnyFirst ==> Step(o, c, b) == Mark(c, AnyRest, b)
    ensures c.cs == CompliantFirst ==> Step(o, c, b) == Mark(c, if b == 239 then BomTwo else Octets, b)
  {
  }

  lemma StepOnBom(o: Options, c: Config, b: byte)
    requires c.cs == BomTwo || c.cs == BomThree
    ensures c.cs == BomTwo ==> Step(o, c, b) == Take(c, if b == 187 then BomThree else Octets, b)
    ensures c.cs == BomThree ==> Step(o, c, b) == Take(c, if b == 191 then Text else Octets, b)
  {
  }

  lemma StepOnId(o: Options, c: Config, n: nat, b: byte)
    requires c.cs == IdRest(n)
    ensures Step(o, c, b) == StepIdRest(c, n, b)
  {
  }

  lemma StepOnName(o: Options, c: Config, n: nat, b: byte)
    requires c.cs == NameRest(n)
    ensures Step(o, c, b) == StepNameRest(c, n, b)
  {
  }

  lemma StepOnValue(o: Options, c: Config, b: byte)
    requires c.cs == Value
    ensures Step(o, c, b) == StepValue(c, b)
  {
  }

  lemma StepOnValueTail(o: Options, c: Config, u: Utf8State, b: byte)
    requires c.cs == ValueTail(u)
    ensures Step(o, c, b) == StepValueTail(c, u, b)
  {
  }

  lemma StepOnText(o: Options, c: Config, b: byte)
    requires c.cs == Text
    ensures Step(o, c, b) == StepText(o, c, LeadOctet(b), b)
  {
  }

  lemma StepOnTextTail(o: Options, c: Config, u: Utf8State, b: byte)
    requires c.cs == TextTail(u)
    ensures Step(o, c, b) == StepText(o, c, TailOctet(u, b), b)
  {
  }

  lemma StepOnOctets(o: Options, c: Config, b: byte)
    requires c.cs == AnyRest || c.cs == Octets
    ensures Step(o, c, b) == Take(c, c.cs, b)
  {
  }
}
