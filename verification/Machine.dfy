/**
 The parser object of rfc5424/machine.go: its fields, its loop over the states,
 the fail state, the actions at the end of the input, and what Parse returns.
 */
module Machines {
  import opened Bytes
  import opened Utf8
  import opened Functions
  import opened Timestamps
  import opened Messages
  import opened Automaton
  import opened Completeness
  import opened Invariants

  /** Fail is state 614, Dead is state 0. */
  datatype MachineState = Live(state: State) | Fail | Dead

  /** The phases of a run; only a change of phase reads an octet again. */
  function Phase(cs: MachineState): nat {
    match cs
    case Dead => 0
    case Fail => 1
    case Live(s) => if InMessage(s) then 2 else 3
  }

  /** The states whose recorded backslashes belong to the current parameter. */
  predicate InParam(cs: State) {
    HasParamName(cs) || cs.NameRest?
  }

  class Machine {
    var data: bytes
    var cs: MachineState
    var p: int
    var pe: int
    var eof: int
    var pb: int
    var err: Option<(ErrorKind, nat)>
    var currentelem: bytes
    var currentparam: bytes
    var msgat: int
    var backslashat: seq<int>
    var bestEffort: bool
    var compliantMsg: bool
    var optionalPriority: bool
    var output: Draft

    constructor ()
      ensures Opts() == Options(false, false, false)
    {
      data, cs, p, pe, eof, pb, err := [], Dead, 0, 0, 0, 0, None;
      currentelem, currentparam, msgat, backslashat := [], [], 0, [];
      bestEffort, compliantMsg, optionalPriority, output := false, false, false, BLANK;
    }

    method WithBestEffort()
      modifies this`bestEffort
      ensures Opts() == old(Opts()).(bestEffort := true)
    {
      bestEffort := true;
    }

    method WithOptionalPriority()
      modifies this`optionalPriority
      ensures Opts() == old(Opts()).(optionalPriority := true)
    {
      optionalPriority := true;
    }

    function Opts(): Options
      reads this`bestEffort, this`compliantMsg, this`optionalPriority
    {
      Options(bestEffort, compliantMsg, optionalPriority)
    }

    predicate Bounds()
      reads this
    {
      0 <= pb <= p <= pe && pe == eof == |data|
    }

    function Text(): bytes
      requires Bounds()
      reads this
    {
      data[pb..p]
    }

    /** The fields hold the configuration c of the automaton. */
    ghost predicate Matches(c: Config)
      reads this
    {
      && Bounds()
      && cs == Live(c.cs) && err == None
      && output == c.out && currentelem == c.elem && currentparam == c.param
      && (InToken(c.cs) ==> c.token == data[pb..p])
      && (InParam(c.cs) ==> SameBackslashes(c))
      && (InToken(c.cs) && InMessage(c.cs) ==> msgat == pb > 0)
      && (c.cs != Start && c.cs != Body ==> p > 0)
    }

    ghost predicate SameBackslashes(c: Config)
      reads this`backslashat, this`pb
    {
      && |backslashat| == |c.backslashes|
      && forall i :: 0 <= i < |backslashat| ==> backslashat[i] == c.backslashes[i] + pb
    }

    /** The fields after an octet at q led to x: one octet on, or in the fail state at q. */
    ghost predicate Follows(x: Outcome, q: int)
      reads this
    {
      match x
      case Go(d) => p == q + 1 && Matches(d)
      case Stop(kind, out) => Failed(kind, out, q)
    }

    ghost predicate Failed(kind: ErrorKind, out: Draft, q: int)
      reads this
    {
      && 0 <= q == p <= pe && pe == eof == |data|
      && cs == Fail && err == Some((kind, p)) && output == out
    }

    /** Error action: report the column, hold the octet, go to the fail state. */
    method Reject(kind: ErrorKind)
      requires 0 <= p
      modifies this`err, this`p, this`cs
      ensures err == Some((kind, old(p))) && p == old(p) - 1 && cs == Fail
    {
      err := Some((kind, p));
      p := p - 1;
      cs := Fail;
    }

    // ----------------------------------------------------------------
    // Transitions

    /** States 1, 2 and 4. */
    method StepStart(ghost c: Config)
      requires Matches(c) && p < pe && c.cs in {Start, PriFirst, Body}
      modifies this`p, this`pb, this`cs, this`err
      ensures Follows(Step(Opts(), c, data[old(p)]), old(p))
    {
      hide Step;
      var b := data[p];
      assert data[p..p + 1] == [b];
      match cs.state {
        case Start =>
          StepOnStart(Opts(), c, b);
          if b == LT { cs := Live(PriFirst); } else { Reject(ErrPri); }
        case PriFirst =>
          StepOnPriFirst(Opts(), c, b);
          if b == 48 { pb := p; cs := Live(PriLast); }
          else if b == 49 { pb := p; cs := Live(PriOne); }
          else if 50 <= b <= 57 { pb := p; cs := Live(PriTwo); }
          else { Reject(ErrPrival); }
        case Body =>
          StepOnBody(Opts(), c, b);
          if 49 <= b <= 57 { pb := p; cs := Live(Version(1)); } else { Reject(ErrVersion); }
      }
      p := p + 1;
    }

    /** States 6 and 7, and the first octet of a header field. */
    method StepHeader(ghost c: Config)
      requires Matches(c) && p < pe && (c.cs in {TimeFirst, TimeNil} || c.cs.FieldFirst?)
      modifies this`p, this`pb, this`cs, this`err
      ensures Follows(Step(Opts(), c, data[old(p)]), old(p))
    {
      hide Step;
      var b := data[p];
      assert data[p..p + 1] == [b];
      match cs.state {
        case TimeFirst =>
          StepOnTimeFirst(Opts(), c, b);
          if b == DASH { cs := Live(TimeNil); }
          else if 48 <= b <= 57 { pb := p; cs := Live(Time(554)); }
          else { Reject(ErrTimestamp); }
        case TimeNil =>
          StepOnTimeNil(Opts(), c, b);
          if b == SP { cs := Live(FieldFirst(Hostname)); } else { Reject(ErrParse); }
        case FieldFirst(f) =>
          StepOnFieldFirst(Opts(), c, f, b);
          if 33 <= b <= 126 { pb := p; cs := Live(FieldRest(f, 1)); } else { Reject(FieldError(f)); }
      }
      p := p + 1;
    }

    /** States 3 and 593..595. */
    method StepPrival(ghost c: Config)
      requires Matches(c) && p < pe && IsPri(c.cs)
      modifies this`p, this`cs, this`err, this`output
      ensures Follows(StepPri(c, data[old(p)]), old(p))
    {
      hide Num;
      var b := data[p];
      assert data[pb..p + 1] == data[pb..p] + [b];
      var n := UnsafeUTF8DecimalCodePointsToInt(Text());
      output := output.(priority := Uint8(n), prioritySet := true);
      if b == GT { cs := Live(Body); }
      else if cs == Live(PriOne) && b == NINE { cs := Live(PriNineteen); }
      else if cs == Live(PriOne) && 48 <= b <= 56 { cs := Live(PriTwo); }
      else if cs == Live(PriTwo) && 48 <= b <= 57 { cs := Live(PriLast); }
      else if cs == Live(PriNineteen) && 48 <= b <= 49 { cs := Live(PriLast); }
      else { Reject(ErrPrival); }
      p := p + 1;
    }

    /** States 5, 591 and 592. */
    method StepVersionDigits(ghost c: Config, n: nat)
      requires Matches(c) && p < pe && c.cs == Version(n)
      modifies this`p, this`cs, this`err, this`output
      ensures Follows(StepVersion(c, n, data[old(p)]), old(p))
    {
      hide Num;
      var b := data[p];
      assert data[pb..p + 1] == data[pb..p] + [b];
      var v := UnsafeUTF8DecimalCodePointsToInt(Text());
      output := output.(version := Uint16(v));
      if b == SP { cs := Live(TimeFirst); }
      else if n < 3 && 48 <= b <= 57 { cs := Live(Version(n + 1)); }
      else if n == 1 { Reject(ErrParse); }
      else { Reject(ErrVersion); }
      p := p + 1;
    }

    /** States 554..590. */
    method StepTimestamp(ghost c: Config, n: int)
      requires Matches(c) && p < pe && c.cs == Time(n)
      modifies this`p, this`cs, this`err, this`output
      ensures Follows(StepTime(c, n, data[old(p)]), old(p))
    {
      hide ParserNext, ParseTime;
      var b := data[p];
      assert data[pb..p + 1] == data[pb..p] + [b];
      if n == 578 {
        var t := ParseTime(Text());
        if t.None? {
          Reject(ErrTime);
        } else {
          output := output.(timestamp := t);
          if b == SP { cs := Live(FieldFirst(Hostname)); } else { Reject(ErrParse); }
        }
      } else {
        var m := ParserNext(n, b);
        if m == 0 { Reject(ErrTimestamp); } else { cs := Live(Time(m)); }
      }
      p := p + 1;
    }

    /** The rest of a header field: its octets and the space that stores it. */
    method StepField(ghost c: Config, f: Field, n: nat)
      requires Matches(c) && p < pe && c.cs == FieldRest(f, n)
      modifies this`p, this`cs, this`err, this`output
      ensures Follows(StepFieldRest(c, f, n, data[old(p)]), old(p))
    {
      var b := data[p];
      assert data[pb..p + 1] == data[pb..p] + [b];
      if b == SP {
        match f
        case Hostname => output := output.(hostname := Text()); cs := Live(FieldFirst(Appname));
        case Appname => output := output.(appname := Text()); cs := Live(FieldFirst(ProcID));
        case ProcID => output := output.(procID := Text()); cs := Live(FieldFirst(MsgID));
        case MsgID => output := output.(msgID := Text()); cs := Live(SdFirst);
      } else if 33 <= b <= 126 && n < MaxLength(f) {
        cs := Live(FieldRest(f, n + 1));
      } else {
        Reject(FieldError(f));
      }
      p := p + 1;
    }

    /** delete(output.structuredData, m.currentelem), and the flag. */
    method DeleteElement()
      modifies this`output
      ensures output == DropElement(old(output), currentelem)
    {
      var sd := output.structuredData - {currentelem};
      output := output.(structuredData := sd);
      if |sd| == 0 {
        output := output.(hasElements := false);
      }
    }

    /** delete(output.structuredData[m.currentelem], m.currentparam). */
    method DeleteParam()
      modifies this`output
      ensures output == DropParam(old(output), currentelem, currentparam)
    {
      if |output.structuredData| > 0 && currentelem in output.structuredData {
        var m := output.structuredData[currentelem] - {currentparam};
        output := output.(structuredData := output.structuredData[currentelem := m]);
      }
    }

    method RejectParam(ghost c: Config)
      requires Matches(c)
      modifies this`err, this`p, this`cs, this`output
      ensures output == DropParam(old(output), currentelem, currentparam)
      ensures err == Some((ErrSdParam, old(p))) && p == old(p) - 1 && cs == Fail
    {
      DeleteParam();
      Reject(ErrSdParam);
    }

    /** set_id: the element is new, or the identifier is a duplicate. */
    method SetId() returns (ok: bool)
      requires Bounds()
      modifies this`err, this`p, this`cs, this`output, this`currentelem
      ensures ok <==> old(Text()) !in old(output).structuredData
      ensures ok ==> output == NewElement(old(output), old(Text())) && currentelem == old(Text())
      ensures ok ==> p == old(p) && cs == old(cs) && err == old(err)
      ensures !ok ==> output == old(output) && currentelem == old(currentelem)
      ensures !ok ==> err == Some((ErrSdIDDuplicated, old(p))) && p == old(p) - 1 && cs == Fail
    {
      var id := Text();
      ok := id !in output.structuredData;
      if !ok {
        Reject(ErrSdIDDuplicated);
      } else {
        output := output.(structuredData := output.structuredData[id := map[]], hasElements := true);
        currentelem := id;
      }
    }

    /** States 16 and 603. */
    method StepSdFirst(ghost c: Config)
      requires Matches(c) && p < pe && c.cs in {SdFirst, SdNil}
      modifies this`p, this`cs, this`err, this`output
      ensures Follows(Step(Opts(), c, data[old(p)]), old(p))
    {
      hide Step;
      var b := data[p];
      if cs == Live(SdFirst) {
        StepOnSdFirst(Opts(), c, b);
        if b == DASH { cs := Live(SdNil); }
        else if b == OPEN { output := output.(structuredData := map[]); cs := Live(IdFirst); }
        else { Reject(ErrStructuredData); }
      } else {
        StepOnSdNil(Opts(), c, b);
        if b == SP { cs := Live(MsgFirst); } else { Reject(ErrParse); }
      }
      p := p + 1;
    }

    /** State 17. */
    method StepIdFirst(ghost c: Config)
      requires Matches(c) && p < pe && c.cs == IdFirst
      modifies this`p, this`pb, this`cs, this`err, this`output
      ensures Follows(Step(Opts(), c, data[old(p)]), old(p))
    {
      hide Step, DropElement;
      StepOnIdFirst(Opts(), c, data[p]);
      assert data[p..p + 1] == [data[p]];
      if IsNameChar(data[p]) {
        pb := p;
        cs := Live(IdRest(1));
      } else {
        DeleteElement();
        Reject(ErrSdID);
      }
      p := p + 1;
    }

    /** State 606. */
    method StepElementEnd(ghost c: Config)
      requires Matches(c) && p < pe && c.cs == ElementEnd
      modifies this`p, this`cs, this`err
      ensures Follows(Step(Opts(), c, data[old(p)]), old(p))
    {
      hide Step;
      StepOnElementEnd(Opts(), c, data[p]);
      if data[p] == SP { cs := Live(MsgFirst); }
      else if data[p] == OPEN { cs := Live(IdFirst); }
      else { Reject(ErrStructuredData); }
      p := p + 1;
    }

    /** States 18 and 64..94. */
    method StepId(ghost c: Config, n: nat)
      requires Matches(c) && p < pe && c.cs == IdRest(n)
      modifies this`p, this`cs, this`err, this`output, this`currentelem
      ensures Follows(StepIdRest(c, n, data[old(p)]), old(p))
    {
      hide DropElement, NewElement;
      var b := data[p];
      assert data[pb..p + 1] == data[pb..p] + [b];
      if IsNameChar(b) && n < 32 {
        cs := Live(IdRest(n + 1));
      } else {
        var ok := SetId();
        if ok {
          if b == SP { cs := Live(NameFirst); }
          else if b == CLOSE { cs := Live(ElementEnd); }
          else { DeleteElement(); Reject(ErrSdID); }
        }
      }
      p := p + 1;
    }

    /** State 19. */
    method StepNameFirst(ghost c: Config)
      requires Matches(c) && p < pe && c.cs == NameFirst
      modifies this`p, this`pb, this`cs, this`err, this`output, this`backslashat
      ensures Follows(Step(Opts(), c, data[old(p)]), old(p))
    {
      hide Step, DropParam;
      StepOnNameFirst(Opts(), c, data[p]);
      assert data[p..p + 1] == [data[p]];
      if IsNameChar(data[p]) {
        backslashat := [];
        pb := p;
        cs := Live(NameRest(1));
      } else {
        RejectParam(c);
      }
      p := p + 1;
    }

    /** States 52 and 55. */
    method StepParam(ghost c: Config)
      requires Matches(c) && p < pe && c.cs in {NameEnd, ValueEnd}
      modifies this`p, this`cs, this`err, this`output
      ensures Follows(Step(Opts(), c, data[old(p)]), old(p))
    {
      hide Step, DropParam;
      var b := data[p];
      if cs == Live(NameEnd) {
        StepOnNameEnd(Opts(), c, b);
        if b == DQ { cs := Live(ValueFirst); } else { RejectParam(c); }
      } else {
        StepOnValueEnd(Opts(), c, b);
        if b == SP { cs := Live(NameFirst); }
        else if b == CLOSE { cs := Live(ElementEnd); }
        else { RejectParam(c); }
      }
      p := p + 1;
    }

    /** States 20..51. */
    method StepName(ghost c: Config, n: nat)
      requires Matches(c) && p < pe && c.cs == NameRest(n)
      modifies this`p, this`cs, this`err, this`output, this`currentparam
      ensures Follows(StepNameRest(c, n, data[old(p)]), old(p))
    {
      hide DropParam;
      var b := data[p];
      assert data[pb..p + 1] == data[pb..p] + [b];
      if b == EQ { currentparam := Text(); cs := Live(NameEnd); }
      else if IsNameChar(b) && n < 32 { cs := Live(NameRest(n + 1)); }
      else { RejectParam(c); }
      p := p + 1;
    }

    // ----------------------------------------------------------------
    // Parameter values

    /** set_paramvalue: the token without its backslashes goes into the element. */
    method StoreParam(ghost c: Config)
      requires Bounds() && SameBackslashes(c) && c.token == Text()
      requires Increasing(c.backslashes) && Within(c.backslashes, 0, |c.token|)
      requires currentelem in output.structuredData && output.hasElements
      modifies this`output
      ensures output == SetParam(old(output), currentelem, currentparam, Stripped(c))
    {
      if output.hasElements {
        var text := Text();
        if |backslashat| > 0 {
          WithoutShift(text, c.backslashes, backslashat, 0, pb);
          text := RemoveBytes(text, backslashat, pb);
        }
        var m := output.structuredData[currentelem][currentparam := text];
        output := output.(structuredData := output.structuredData[currentelem := m]);
      }
    }

    /** State 53 marks the value and goes on like state 54. */
    method MarkValue(ghost c: Config) returns (ghost d: Config)
      requires Matches(c) && p < pe && c.cs == ValueFirst && Inv(c)
      modifies this`pb, this`cs
      ensures Matches(d) && Inv(d) && d.cs == Value
      ensures StepValue(d, data[p]) == StepValue(c.(token := []), data[p])
    {
      hide StepValue;
      pb := p;
      cs := Live(Value);
      d := c.(cs := Value, token := []);
      SameStepValue(c.(token := []), d, data[p]);
    }

    /** State 54. */
    method StepValueOctet(ghost c: Config)
      requires Matches(c) && p < pe && c.cs == Value && Inv(c)
      modifies this`p, this`cs, this`err, this`output, this`backslashat
      ensures Follows(StepValue(c, data[old(p)]), old(p))
    {
      hide SetParam, Stripped, LeadOctet, Increasing, Within, Inv;
      var b := data[p];
      assert data[pb..p + 1] == data[pb..p] + [b];
      if b == DQ {
        ValueStored(c);
        StoreParam(c);
        cs := Live(ValueEnd);
      } else if b == SLASH {
        backslashat := backslashat + [p];
        cs := Live(ValueEscape);
      } else if b == CLOSE || LeadOctet(b) == Bad {
        Reject(ErrEscape);
      } else if LeadOctet(b) == Ready {
        cs := Live(Value);
      } else {
        cs := Live(ValueTail(LeadOctet(b)));
      }
      p := p + 1;
    }

    /** State 56. */
    method StepEscape(ghost c: Config)
      requires Matches(c) && p < pe && c.cs == ValueEscape
      modifies this`p, this`cs, this`err
      ensures Follows(Step(Opts(), c, data[old(p)]), old(p))
    {
      hide Step;
      StepOnValueEscape(Opts(), c, data[p]);
      assert data[pb..p + 1] == data[pb..p] + [data[p]];
      if data[p] == DQ || SLASH <= data[p] <= CLOSE { cs := Live(Value); } else { Reject(ErrEscape); }
      p := p + 1;
    }

    /** States 57..63. */
    method StepTail(ghost c: Config, u: Utf8State)
      requires Matches(c) && p < pe && c.cs == ValueTail(u)
      modifies this`p, this`cs, this`err, this`output
      ensures Follows(StepValueTail(c, u, data[old(p)]), old(p))
    {
      hide DropParam, TailOctet;
      assert data[pb..p + 1] == data[pb..p] + [data[p]];
      var v := TailOctet(u, data[p]);
      if v == Bad { RejectParam(c); }
      else if v == Ready { cs := Live(Value); }
      else { cs := Live(ValueTail(v)); }
      p := p + 1;
    }

    // ----------------------------------------------------------------
    // MSG

    /** err_msg: what was read of the message so far is kept. */
    method RejectMessage()
      requires 0 < msgat <= p <= |data|
      modifies this`err, this`p, this`cs, this`output
      ensures output == old(output).(message := data[msgat..old(p)])
      ensures err == Some((if compliantMsg then ErrMsgNotCompliant else ErrMsg, old(p)))
      ensures p == old(p) - 1 && cs == Fail
    {
      if msgat > 0 {
        output := output.(message := data[msgat..p]);
      }
      if compliantMsg { Reject(ErrMsgNotCompliant); } else { Reject(ErrMsg); }
    }

    /** State 604 holds the octet and enters one of the two message machines. */
    method SelectMessageMode(ghost c: Config)
      requires Matches(c) && p < pe && c.cs == MsgFirst
      modifies this`p, this`cs
      ensures p == old(p) && Matches(c.(cs := if compliantMsg then CompliantFirst else AnyFirst))
      ensures Step(Opts(), c, data[p]) == Step(Opts(), c.(cs := if compliantMsg then CompliantFirst else AnyFirst), data[p])
    {
      hide Step;
      StepOnMsgFirst(Opts(), c, data[p]);
      StepOnMessageFirst(Opts(), c.(cs := if compliantMsg then CompliantFirst else AnyFirst), data[p]);
      p := p - 1;
      if compliantMsg { cs := Live(CompliantFirst); } else { cs := Live(AnyFirst); }
      p := p + 1;
    }

    /** States 607 and 609 mark the message. */
    method StepMessageFirst(ghost c: Config)
      requires Matches(c) && p < pe && c.cs in {AnyFirst, CompliantFirst}
      modifies this`p, this`pb, this`msgat, this`cs
      ensures Follows(Step(Opts(), c, data[old(p)]), old(p))
    {
      hide Step;
      var b := data[p];
      StepOnMessageFirst(Opts(), c, b);
      assert data[p..p + 1] == [b];
      pb := p;
      msgat := p;
      if cs == Live(AnyFirst) { cs := Live(AnyRest); }
      else if b == 239 { cs := Live(BomTwo); }
      else { cs := Live(Octets); }
      p := p + 1;
    }

    /** States 608 and 610..612. */
    method StepOctets(ghost c: Config)
      requires Matches(c) && p < pe && c.cs in {AnyRest, Octets, BomTwo, BomThree}
      modifies this`p, this`cs
      ensures Follows(Step(Opts(), c, data[old(p)]), old(p))
    {
      hide Step;
      assert data[pb..p + 1] == data[pb..p] + [data[p]];
      if cs == Live(BomTwo) {
        StepOnBom(Opts(), c, data[p]);
        cs := Live(if data[p] == 187 then BomThree else Octets);
      } else if cs == Live(BomThree) {
        StepOnBom(Opts(), c, data[p]);
        cs := Live(if data[p] == 191 then Automaton.Text else Octets);
      } else {
        StepOnOctets(Opts(), c, data[p]);
      }
      p := p + 1;
    }

    /** States 613 and 596..602. */
    method StepUtf8(ghost c: Config, v: Utf8State)
      requires Matches(c) && p < pe && (c.cs.Text? || c.cs.TextTail?)
      requires v == (if c.cs.Text? then LeadOctet(data[p]) else TailOctet(c.cs.u, data[p]))
      modifies this`p, this`cs, this`err, this`output
      ensures Follows(StepText(Opts(), c, v, data[old(p)]), old(p))
    {
      hide LeadOctet, TailOctet;
      assert data[pb..p + 1] == data[pb..p] + [data[p]];
      if v == Bad { RejectMessage(); }
      else if v == Ready { cs := Live(Automaton.Text); }
      else { cs := Live(TextTail(v)); }
      p := p + 1;
    }

    // ----------------------------------------------------------------
    // The loop

    /** The octet at p, outside the SD part. */
    method AdvanceHeader(ghost c: Config)
      requires Matches(c) && Inv(c) && p < pe
      requires BeforeSd(c.cs) && c.cs != SdFirst && c.cs != SdNil
      modifies this`p, this`pb, this`cs, this`err, this`output
      ensures Follows(Step(Opts(), c, data[old(p)]), old(p))
    {
      hide Step, StepPri, StepVersion, StepTime, StepFieldRest, Inv, Follows;
      ghost var o, b := Opts(), data[p];
      var s := cs.state;
      if s.Version? {
        StepOnVersion(o, c, s.count, b);
        StepVersionDigits(c, s.count);
      } else if s.Time? {
        StepOnTime(o, c, s.number, b);
        StepTimestamp(c, s.number);
      } else if s.FieldRest? {
        StepOnField(o, c, s.f, s.count, b);
        StepField(c, s.f, s.count);
      } else if s in {Start, PriFirst, Body} {
        StepStart(c);
      } else if s.FieldFirst? || s in {TimeFirst, TimeNil} {
        StepHeader(c);
      } else {
        StepOnPri(o, c, b);
        StepPrival(c);
      }
    }

    /** The octet at p, in the SD part. */
    method AdvanceSd(ghost c: Config)
      requires Matches(c) && Inv(c) && p < pe
      requires c.cs in {SdFirst, SdNil} || (!BeforeSd(c.cs) && !InMessage(c.cs) && c.cs != MsgFirst)
      modifies this`p, this`pb, this`cs, this`err, this`output, this`currentelem, this`currentparam, this`backslashat
      ensures Follows(Step(Opts(), c, data[old(p)]), old(p))
    {
      hide Step, StepIdRest, StepNameRest, StepValue, StepValueTail, Inv, Follows;
      ghost var o, b := Opts(), data[p];
      var s := cs.state;
      if s.IdRest? {
        StepOnId(o, c, s.count, b);
        StepId(c, s.count);
      } else if s.NameRest? {
        StepOnName(o, c, s.count, b);
        StepName(c, s.count);
      } else if s.ValueTail? {
        StepOnValueTail(o, c, s.u, b);
        StepTail(c, s.u);
      } else if s == NameFirst {
        StepNameFirst(c);
      } else if s in {NameEnd, ValueEnd} {
        StepParam(c);
      } else if s == ValueFirst {
        StepOnValueFirst(o, c, b);
        ghost var d := MarkValue(c);
        StepValueOctet(d);
      } else if s == Value {
        StepOnValue(o, c, b);
        StepValueOctet(c);
      } else if s == ValueEscape {
        StepEscape(c);
      } else if s == IdFirst {
        StepIdFirst(c);
      } else if s == ElementEnd {
        StepElementEnd(c);
      } else {
        StepSdFirst(c);
      }
    }

    /** The octet at p, in a MSG. */
    method AdvanceMessage(ghost c: Config)
      requires Matches(c) && p < pe && InMessage(c.cs)
      modifies this`p, this`pb, this`cs, this`err, this`output, this`msgat
      ensures Follows(Step(Opts(), c, data[old(p)]), old(p))
    {
      hide Step, StepText, Follows;
      ghost var o := Opts();
      var s := cs.state;
      if s in {AnyFirst, CompliantFirst} {
        StepMessageFirst(c);
      } else if s == Automaton.Text {
        StepOnText(o, c, data[p]);
        StepUtf8(c, LeadOctet(data[p]));
      } else if s.TextTail? {
        StepOnTextTail(o, c, s.u, data[p]);
        StepUtf8(c, TailOctet(s.u, data[p]));
      } else {
        StepOctets(c);
      }
    }

    // ----------------------------------------------------------------
    // End of input

    /** The fields after the input ended in the state of c. */
    ghost predicate Ends(e: End)
      reads this
    {
      match e
      case Accepted(out) => cs.Live? && IsFinal(cs.state) && err == None && output == out
      case Rejected(kind, col, out) => cs == Fail && err == Some((kind, col)) && output == out
    }

    /** The actions at the end of the input, before the MSG. */
    method FinishHeader(ghost c: Config)
      requires Matches(c) && Inv(c) && p == eof && BeforeSd(c.cs)
      modifies this`p, this`cs, this`err, this`output
      ensures Ends(AtEof(Opts(), c, old(p)))
    {
      hide Num, ParseTime;
      var s := cs.state;
      if s == SdNil {
        return;
      } else if s == Start {
        Reject(ErrPri);
      } else if s in {PriFirst, PriLast, PriOne, PriTwo, PriNineteen} {
        Reject(ErrPrival);
      } else if s == Body {
        Reject(ErrVersion);
      } else if s.Version? {
        if s.count == 1 {
          var v := UnsafeUTF8DecimalCodePointsToInt(Text());
          output := output.(version := Uint16(v));
          Reject(ErrParse);
        } else {
          Reject(ErrVersion);
        }
      } else if s == TimeNil {
        Reject(ErrParse);
      } else if s.Time? && s.number == 578 {
        var t := ParseTime(Text());
        if t.None? {
          Reject(ErrTime);
        } else {
          output := output.(timestamp := t);
          Reject(ErrParse);
        }
      } else if s.FieldFirst? || s.FieldRest? {
        Reject(FieldError(s.f));
      } else if s == SdFirst {
        Reject(ErrStructuredData);
      } else {
        Reject(ErrTimestamp);
      }
      p := p + 1;
    }

    /** The actions at the end of the input, in the SD part. */
    method FinishSd(ghost c: Config)
      requires Matches(c) && Inv(c) && p == eof && !BeforeSd(c.cs) && !InMessage(c.cs)
      modifies this`p, this`cs, this`err, this`output, this`currentelem
      ensures Ends(AtEof(Opts(), c, old(p)))
    {
      hide DropElement, NewElement, DropParam;
      var s := cs.state;
      if s in {ElementEnd, MsgFirst} {
        return;
      } else if s == IdFirst {
        DeleteElement();
        Reject(ErrSdID);
      } else if s.IdRest? {
        var ok := SetId();
        if ok {
          DeleteElement();
          Reject(ErrSdID);
        }
      } else if s in {ValueFirst, Value, ValueEscape} {
        Reject(ErrEscape);
      } else {
        RejectParam(c);
      }
      p := p + 1;
    }

    /** The actions at the end of the input, in a MSG. */
    method FinishMessage(ghost c: Config)
      requires Matches(c) && p == eof && InMessage(c.cs)
      modifies this`p, this`pb, this`msgat, this`cs, this`err, this`output
      ensures Ends(AtEof(Opts(), c, old(p)))
    {
      var s := cs.state;
      if s.TextTail? {
        RejectMessage();
        p := p + 1;
      } else {
        if s in {AnyFirst, CompliantFirst} {
          pb := p;
          msgat := p;
        }
        output := output.(message := Text());
      }
    }

    // ----------------------------------------------------------------
    // Parse

    /** What is left to do from here has the outcome of the whole run. */
    ghost predicate OnTrack(o: Options, c: Config, whole: End)
      reads this
    {
      && 0 <= p <= pe && pe == eof == |data| && Opts() == o
      && if cs.Live? then Matches(c) && Inv(c) && Run(o, c, data[p..], p) == whole
         else err.Some? && whole == Rejected(err.value.0, err.value.1, output)
    }

    /** An octet read as x says keeps the machine on track. */
    lemma StayOnTrack(o: Options, c: Config, whole: End, x: Outcome, q: nat)
      requires Follows(x, q) && q < pe && pe == eof == |data| && Opts() == o && Keeps(x)
      requires whole == if x.Go? then Run(o, x.c, data[q + 1..], q + 1) else Rejected(x.kind, q, x.out)
      ensures OnTrack(o, if x.Go? then x.c else c, whole)
      ensures if x.Go? then cs == Live(x.c.cs) && p == q + 1 else cs == Fail
    {
      hide Run, Inv;
    }

    /** The octet at p in any live state but 604. */
    method AdvanceLive(ghost c: Config)
      requires Matches(c) && Inv(c) && p < pe && c.cs != MsgFirst
      modifies this`p, this`pb, this`msgat, this`cs, this`err, this`output, this`currentelem, this`currentparam, this`backslashat
      ensures Follows(Step(Opts(), c, data[old(p)]), old(p))
    {
      hide Step, Inv, Follows;
      if InMessage(cs.state) {
        AdvanceMessage(c);
      } else if BeforeSd(cs.state) && cs.state != SdFirst && cs.state != SdNil {
        AdvanceHeader(c);
      } else {
        AdvanceSd(c);
      }
    }

    /** One turn in a live state but 604. */
    method TurnLive(ghost o: Options, ghost c: Config, ghost whole: End) returns (ghost d: Config)
      requires OnTrack(o, c, whole) && p < pe && cs.Live? && cs.state != MsgFirst
      modifies this`p, this`pb, this`msgat, this`cs, this`err, this`output, this`currentelem, this`currentparam, this`backslashat
      ensures OnTrack(o, d, whole)
      ensures Phase(cs) < Phase(old(cs)) || (Phase(cs) == Phase(old(cs)) && p > old(p))
    {
      hide Run, Step, Inv, AtEof, Follows;
      ghost var x, q := Step(o, c, data[p]), p;
      Unfold(o, c, data, p);
      StepInvariant(o, c, data[p]);
      SamePhase(o, c, data[p]);
      AdvanceLive(c);
      StayOnTrack(o, c, whole, x, q);
      d := if x.Go? then x.c else c;
    }

    /** State 604 changes to the message phase without reading. */
    method TurnMode(ghost o: Options, ghost c: Config, ghost whole: End) returns (ghost d: Config)
      requires OnTrack(o, c, whole) && p < pe && cs == Live(MsgFirst)
      modifies this`p, this`cs
      ensures OnTrack(o, d, whole)
      ensures Phase(cs) < Phase(old(cs))
    {
      hide Run, Step, Inv, AtEof;
      SelectMessageMode(c);
      d := c.(cs := if compliantMsg then CompliantFirst else AnyFirst);
      ModeRun(o, c, d, data[p..], p);
      ModeInv(c, d);
    }

    /** One turn of the loop over the states. */
    method Turn(ghost o: Options, ghost c: Config, ghost whole: End) returns (ghost d: Config)
      requires OnTrack(o, c, whole) && p < pe && cs != Dead
      modifies this`p, this`pb, this`msgat, this`cs, this`err, this`output, this`currentelem, this`currentparam, this`backslashat
      ensures OnTrack(o, d, whole)
      ensures Phase(cs) < Phase(old(cs)) || (Phase(cs) == Phase(old(cs)) && p > old(p))
    {
      d := c;
      if cs == Fail {
        hide Run, Inv, Matches;
        if data[p] == LF || data[p] == CR { cs := Dead; } else { p := p + 1; }
      } else if cs == Live(MsgFirst) {
        hide OnTrack;
        d := TurnMode(o, c, whole);
      } else {
        hide OnTrack;
        d := TurnLive(o, c, whole);
      }
    }

    /** The initialisation of a parse. */
    method Init(input: bytes)
      modifies this`data, this`p, this`pb, this`msgat, this`backslashat, this`pe, this`eof, this`err, this`output, this`cs
      ensures data == input && pe == |input|
      ensures OnTrack(Opts(), Initial(Opts(), input, currentelem, currentparam), Automaton.Parse(Opts(), input))
    {
      hide Run, Step, Inv, AtEof, OnTrack;
      var hasPriority := |input| > 0 && input[0] == LT;
      data := input;
      p := 0;
      pb := 0;
      msgat := 0;
      backslashat := [];
      pe := |input|;
      eof := |input|;
      err := None;
      output := BLANK;
      cs := Live(Start);
      if optionalPriority && !hasPriority {
        cs := Live(Body);
      }
      Begin(Opts());
    }

    /** The machine is on track at the start, whatever element and parameter it last read. */
    lemma Begin(o: Options)
      requires Opts() == o && p == pb == 0 && pe == eof == |data| && err == None && output == BLANK
      requires cs == Live(if o.optionalPriority && !(|data| > 0 && data[0] == LT) then Body else Start)
      ensures OnTrack(o, Initial(o, data, currentelem, currentparam), Automaton.Parse(o, data))
    {
      hide Run, Step, Inv, AtEof;
      InitialInvariant(o, data, currentelem, currentparam);
      ReuseIsFresh(o, data, currentelem, currentparam);
      assert data[0..] == data;
    }

    lemma InBounds(o: Options, c: Config, whole: End)
      requires OnTrack(o, c, whole)
      ensures 0 <= p <= pe
    {
    }

    /** Parses the input; fields that no action resets keep what an earlier parse left there. */
    method Parse(input: bytes) returns (reply: Reply)
      modifies this
      ensures reply == Answer(old(Opts()), Automaton.Parse(old(Opts()), input))
      ensures Opts() == old(Opts())
    {
      hide OnTrack, Initial, Automaton.Parse, Answer, Result;
      Init(input);
      ghost var o, whole := Opts(), Automaton.Parse(Opts(), input);
      ghost var c := Initial(o, input, currentelem, currentparam);
      InBounds(o, c, whole);
      while p != pe && cs != Dead
        invariant OnTrack(o, c, whole) && 0 <= p <= pe
        invariant pe == |input| && Opts() == o
        decreases Phase(cs), pe - p
      {
        c := Turn(o, c, whole);
        InBounds(o, c, whole);
      }
      Finish(o, c, whole);
      Outcome(o, whole);
      reply := Export();
    }

    lemma Outcome(o: Options, whole: End)
      requires Ended(whole) && Opts() == o
      ensures Answer(o, whole) == Result()
    {
    }

    ghost predicate Ended(e: End)
      reads this
    {
      match e
      case Accepted(out) => cs.Live? && IsFinal(cs.state) && output == out
      case Rejected(kind, col, out) => !(cs.Live? && IsFinal(cs.state)) && err == Some((kind, col)) && output == out
    }

    /** The end of Parse: cs below the first final state, or the fail state. */
    function Result(): Reply
      reads this
    {
      if !(cs.Live? && IsFinal(cs.state)) then
        if bestEffort && output.Minimal(optionalPriority) then Reply(Some(output.Export()), err)
        else Reply(None, err)
      else Reply(Some(output.Export()), None)
    }

    method Export() returns (reply: Reply)
      ensures reply == Result()
    {
      if !(cs.Live? && IsFinal(cs.state)) {
        if bestEffort && output.Minimal(optionalPriority) {
          return Reply(Some(output.Export()), err);
        }
        return Reply(None, err);
      }
      return Reply(Some(output.Export()), None);
    }

    /** The actions at the end of the input, when it was reached. */
    method Finish(ghost o: Options, ghost c: Config, ghost whole: End)
      requires OnTrack(o, c, whole) && (p == pe || cs == Dead)
      modifies this`p, this`pb, this`msgat, this`cs, this`err, this`output, this`currentelem
      ensures Ended(whole)
    {
      hide Run, Step, Inv, AtEof;
      if cs.Live? {
        RunEnd(o, c, data[p..], p);
        if InMessage(cs.state) { FinishMessage(c); }
        else if BeforeSd(cs.state) { FinishHeader(c); }
        else { FinishSd(c); }
      }
    }
  }

  /** While a value is marked its recorded backslashes are in order. */
  lemma ValueStored(c: Config)
    requires Inv(c) && c.cs == Value
    ensures Increasing(c.backslashes) && Within(c.backslashes, 0, |c.token|)
    ensures c.elem in c.out.structuredData && c.out.hasElements
  {
  }

  /** One octet of a run over the rest of the data. */
  lemma Unfold(o: Options, c: Config, data: bytes, p: nat)
    requires p < |data|
    ensures Run(o, c, data[p..], p)
         == if Step(o, c, data[p]).Go? then Run(o, Step(o, c, data[p]).c, data[p + 1..], p + 1)
            else Rejected(Step(o, c, data[p]).kind, p, Step(o, c, data[p]).out)
  {
    assert data[p..] == [data[p]] + data[p + 1..];
    RunHead(o, c, data[p], data[p + 1..], p);
  }

  lemma RunEnd(o: Options, c: Config, s: bytes, col: nat)
    requires s == []
    ensures Run(o, c, s, col) == AtEof(o, c, col)
  {
    hide AtEof;
  }

  /** Only the space before the MSG enters the message phase. */
  lemma SamePhase(o: Options, c: Config, b: byte)
    requires c.cs != MsgFirst
    ensures Step(o, c, b).Go? ==> (InMessage(Step(o, c, b).c.cs) <==> InMessage(c.cs))
  {
    hide Num, ParserNext, ParseTime, LeadOctet, TailOctet, Stripped, DropParam, DropElement, SetParam, NewElement;
  }

  /** State 604 and the state it selects read the next octet alike. */
  lemma ModeRun(o: Options, c: Config, d: Config, s: bytes, col: nat)
    requires c.cs == MsgFirst && s != []
    requires d == c.(cs := if o.compliantMsg then CompliantFirst else AnyFirst)
    ensures Run(o, c, s, col) == Run(o, d, s, col)
  {
    hide Step;
    StepOnMsgFirst(o, c, s[0]);
    StepOnMessageFirst(o, d, s[0]);
  }

  lemma ModeInv(c: Config, d: Config)
    requires Inv(c) && c.cs == MsgFirst
    requires d == c.(cs := d.cs) && d.cs in {AnyFirst, CompliantFirst}
    ensures Inv(d)
  {
  }
}
