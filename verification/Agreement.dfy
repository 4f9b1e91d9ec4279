/**
 The generated machine of rfc5424/builder.go against that of rfc5424/machine.go: for
 every field the one stores exactly the values that the states of the other accept.
 */
module Agreement {
  import opened Bytes
  import opened Utf8
  import opened Timestamps
  import opened Messages
  import opened Automaton
  import opened Grammar
  import opened Completeness
  import opened Soundness
  import opened Builder

  /** The parser's state before the field of an entry point. */
  function Entry(e: EntryPoint): State {
    match e
    case EnTimestamp => TimeFirst
    case EnField(f) => FieldFirst(f)
    case EnSdid => IdFirst
    case EnSdpn => NameFirst
    case EnSdpv => ValueFirst
    case EnMsg => MsgFirst
  }

  /** The parser's states inside the field of an entry point. */
  predicate Inside(e: EntryPoint, cs: State) {
    match e
    case EnTimestamp => cs.Time?
    case EnField(f) => cs.FieldRest? && cs.f == f
    case EnSdid => cs.IdRest?
    case EnSdpn => cs.NameRest?
    case EnSdpv => cs.Value? || cs.ValueEscape? || cs.ValueTail?
    case EnMsg => cs.AnyRest?
  }

  /** The states that have a transition out of the field, or may end a message. */
  predicate MayLeave(e: EntryPoint, cs: State) {
    match e
    case EnTimestamp => cs == Time(578)
    case EnSdpv => cs == ValueFirst || cs == Value
    case EnMsg => cs == MsgFirst || cs == AnyRest
    case _ => Inside(e, cs)
  }

  /** The parser reads all of v without leaving the states of the field, and may then leave them. */
  predicate Reads(o: Options, e: EntryPoint, c: Config, v: bytes)
    decreases |v|
  {
    if v == [] then MayLeave(e, c.cs)
    else Step(o, c, v[0]).Go? && Inside(e, Step(o, c, v[0]).c.cs) && Reads(o, e, Step(o, c, v[0]).c, v[1..])
  }

  /** The builder's state for a state of the parser. */
  ghost predicate Matches(e: EntryPoint, cs: State, s: BuilderState) {
    match cs
    case TimeFirst => s == Stamping(1)
    case Time(n) => s.Stamping? && (2 <= s.number <= 37 || s.number == 54) && n == Renamed(s.number)
    case FieldFirst(f) => s == FieldStart(f)
    case FieldRest(f, n) => s == Fielding(f, n)
    case IdFirst => s == IdStart
    case IdRest(n) => s == Identifying(n)
    case NameFirst => s == NameStart
    case NameRest(n) => s == Naming(n)
    case ValueFirst => s == ValueStart
    case Value => s == Valuing
    case ValueEscape => s == Escaped
    case ValueTail(u) => s == Char(u) && u != Ready && u != Bad
    case MsgFirst => s == MsgStart
    case AnyRest => s == Messaging
    case _ => false
  }

  /** Both go on into matching states, or the parser leaves the field and the builder stops. */
  ghost predicate InStep(e: EntryPoint, x: Outcome, s: BuilderState) {
    if x.Go? && Inside(e, x.c.cs) then Matches(e, x.c.cs, s) else s == Error
  }

  lemma TimeInStep(o: Options, c: Config, s: BuilderState, b: byte)
    requires c.cs == TimeFirst || c.cs.Time?
    requires Matches(EnTimestamp, c.cs, s)
    ensures InStep(EnTimestamp, Step(o, c, b), Next(s, b))
  {
    NextAgrees(s.number, b);
    hide Step, ParserNext, BuilderNext, ParseTime;
    if c.cs == TimeFirst {
      FirstStamp(b);
      StepOnTimeFirst(o, c, b);
    } else {
      LastStamp(b);
      StepOnTime(o, c, c.cs.number, b);
    }
  }

  lemma FirstStamp(b: byte)
    ensures BuilderNext(1, b) == if IsDigit(b) then 2 else 0
  {
  }

  lemma LastStamp(b: byte)
    ensures BuilderNext(54, b) == 0
    ensures forall n :: BuilderNext(n, b) != 1
  {
  }

  lemma FieldInStep(o: Options, c: Config, f: Field, s: BuilderState, b: byte)
    requires c.cs == FieldFirst(f) || (c.cs.FieldRest? && c.cs.f == f)
    requires Matches(EnField(f), c.cs, s)
    ensures InStep(EnField(f), Step(o, c, b), Next(s, b))
  {
    hide Step;
    if c.cs.FieldRest? { StepOnField(o, c, f, c.cs.count, b); } else { StepOnFieldFirst(o, c, f, b); }
  }

  lemma NameInStep(o: Options, e: EntryPoint, c: Config, s: BuilderState, b: byte)
    requires if e == EnSdid then c.cs == IdFirst || c.cs.IdRest? else e == EnSdpn && (c.cs == NameFirst || c.cs.NameRest?)
    requires Matches(e, c.cs, s)
    ensures InStep(e, Step(o, c, b), Next(s, b))
  {
    hide Step;
    if c.cs == IdFirst { StepOnIdFirst(o, c, b); }
    if c.cs.IdRest? { StepOnId(o, c, c.cs.count, b); }
    if c.cs == NameFirst { StepOnNameFirst(o, c, b); }
    if c.cs.NameRest? { StepOnName(o, c, c.cs.count, b); }
  }

  lemma TailInStep(o: Options, c: Config, u: Utf8State, s: BuilderState, b: byte)
    requires c.cs == ValueTail(u) && Matches(EnSdpv, c.cs, s)
    ensures InStep(EnSdpv, Step(o, c, b), Next(s, b))
  {
    CharNext(u, b);
    CharMatches(TailOctet(u, b));
    hide Step, Next, Char, TailOctet;
    StepOnValueTail(o, c, u, b);
  }

  /** Between two characters or escapes. */
  lemma UnitInStep(o: Options, c: Config, s: BuilderState, b: byte)
    requires (c.cs == ValueFirst && s == ValueStart) || (c.cs == Value && s == Valuing)
    ensures InStep(EnSdpv, Step(o, c, b), Next(s, b))
  {
    hide Step, Stripped, Next, Char, LeadOctet;
    StartsAsValue(b);
    CharNext(Ready, b);
    CharMatches(LeadOctet(b));
    if c.cs == ValueFirst { StepOnValueFirst(o, c, b); } else { StepOnValue(o, c, b); }
  }

  lemma ValueInStep(o: Options, c: Config, s: BuilderState, b: byte)
    requires c.cs in {ValueFirst, Value, ValueEscape} || c.cs.ValueTail?
    requires Matches(EnSdpv, c.cs, s)
    ensures InStep(EnSdpv, Step(o, c, b), Next(s, b))
  {
    hide Step, InStep;
    if c.cs.ValueTail? {
      hide Next;
      TailInStep(o, c, c.cs.u, s, b);
    } else if c.cs == ValueEscape {
      EscapeInStep(o, c, b);
    } else {
      hide Next;
      UnitInStep(o, c, s, b);
    }
  }

  lemma EscapeInStep(o: Options, c: Config, b: byte)
    requires c.cs == ValueEscape
    ensures InStep(EnSdpv, Step(o, c, b), Next(Escaped, b))
  {
    hide Step;
    StepOnValueEscape(o, c, b);
  }

  lemma StartsAsValue(b: byte)
    ensures Next(ValueStart, b) == Next(Valuing, b)
    ensures b == DQ || b == CLOSE ==> Next(Valuing, b) == Error
    ensures b == SLASH ==> Next(Valuing, b) == Escaped
  {
  }

  lemma CharMatches(u: Utf8State)
    ensures u == Ready ==> Char(u) == Valuing
    ensures u == Bad ==> Char(u) == Error
    ensures u != Ready && u != Bad ==> Char(u).InChar?
  {
  }

  lemma MsgInStep(o: Options, c: Config, s: BuilderState, b: byte)
    requires (c.cs == MsgFirst || c.cs == AnyRest) && !o.compliantMsg
    requires Matches(EnMsg, c.cs, s)
    ensures InStep(EnMsg, Step(o, c, b), Next(s, b))
  {
    hide Step;
    if c.cs == MsgFirst { StepOnMsgFirst(o, c, b); } else { StepOnOctets(o, c, b); }
  }

  lemma StepInStep(o: Options, e: EntryPoint, c: Config, s: BuilderState, b: byte)
    requires c.cs == Entry(e) || Inside(e, c.cs)
    requires Matches(e, c.cs, s) && (e == EnMsg ==> !o.compliantMsg)
    ensures InStep(e, Step(o, c, b), Next(s, b))
  {
    hide Step, Next, InStep, Matches;
    match e
    case EnTimestamp => TimeInStep(o, c, s, b);
    case EnField(f) => FieldInStep(o, c, f, s, b);
    case EnSdid => NameInStep(o, e, c, s, b);
    case EnSdpn => NameInStep(o, e, c, s, b);
    case EnSdpv => ValueInStep(o, c, s, b);
    case EnMsg => MsgInStep(o, c, s, b);
  }

  lemma {:induction false} InStepRun(o: Options, e: EntryPoint, c: Config, s: BuilderState, v: bytes)
    requires c.cs == Entry(e) || Inside(e, c.cs)
    requires Matches(e, c.cs, s) && (e == EnMsg ==> !o.compliantMsg)
    ensures Reads(o, e, c, v) <==> Stores(RunFrom(s, v))
    decreases |v|
  {
    hide Step, Next;
    if v == [] {
      AtEndInStep(e, c.cs, s);
    } else {
      StepInStep(o, e, c, s, v[0]);
      var x := Step(o, c, v[0]);
      if x.Go? && Inside(e, x.c.cs) {
        InStepRun(o, e, x.c, Next(s, v[0]), v[1..]);
      } else {
        ErrorStays(v[1..]);
      }
    }
  }

  lemma AtEndInStep(e: EntryPoint, cs: State, s: BuilderState)
    requires (cs == Entry(e) || Inside(e, cs)) && Matches(e, cs, s)
    ensures MayLeave(e, cs) <==> Stores(s)
  {
  }

  /**
   A plain set takes effect exactly when the parser's states for the field accept the
   value: with the builder's machine in lock step, and so with the grammar.
   */
  lemma MachinesAgree(o: Options, e: EntryPoint, c: Config, v: bytes)
    requires c.cs == Entry(e) && (e == EnMsg ==> !o.compliantMsg)
    ensures Reads(o, e, c, v) <==> Stores(RunFrom(Translate(e), v))
    ensures Reads(o, e, c, v) <==> Legal(e, v)
  {
    hide Step, Next, Reads, RunFrom, Stores, Legal;
    InStepRun(o, e, c, Translate(e), v);
    MachineIsLegal(e, v);
  }

  /** The parser's state before the value of a plain call. */
  predicate Before(call: Call, cs: State) {
    match call
    case SetTimestamp(_) => cs == TimeFirst
    case SetHostname(_) => cs == FieldFirst(Hostname)
    case SetAppname(_) => cs == FieldFirst(Appname)
    case SetProcID(_) => cs == FieldFirst(ProcID)
    case SetMsgID(_) => cs == FieldFirst(MsgID)
    case SetElementID(_) => cs == IdFirst
    case SetMessage(_) => cs == MsgFirst
    case _ => false
  }

  /** The message with the field of a plain call, if the parser reads the value there and it is not ineffective. */
  function Taken(o: Options, m: Message, call: Call, c: Config): Message {
    match call
    case SetTimestamp(v) =>
      if Reads(o, EnTimestamp, c, v) && ParseTime(v).Some? then m.(timestamp := ParseTime(v)) else m
    case SetHostname(v) =>
      if Reads(o, EnField(Hostname), c, v) && v != [DASH] then m.(hostname := Some(v)) else m
    case SetAppname(v) =>
      if Reads(o, EnField(Appname), c, v) && v != [DASH] then m.(appname := Some(v)) else m
    case SetProcID(v) =>
      if Reads(o, EnField(ProcID), c, v) && v != [DASH] then m.(procID := Some(v)) else m
    case SetMsgID(v) =>
      if Reads(o, EnField(MsgID), c, v) && v != [DASH] then m.(msgID := Some(v)) else m
    case SetElementID(v) =>
      if Reads(o, EnSdid, c, v) then
        m.(structuredData := Some(if v in Elements(m) then Elements(m) else Elements(m)[v := map[]]))
      else m
    case SetMessage(v) =>
      if Reads(o, EnMsg, c, v) && v != [] then m.(message := Some(v)) else m
    case _ => m
  }

  /**
   A plain call writes its one field when the parser would accept the value there, and
   it is not a nil value, an empty message or a day the month does not have; otherwise
   it changes nothing.
   */
  lemma SetterAgrees(o: Options, m: Message, call: Call, c: Config)
    requires Before(call, c.cs) && (call.SetMessage? ==> !o.compliantMsg)
    ensures Apply(m, call) == Taken(o, m, call, c)
  {
    hide Step, Reads, RunFrom, Stores, Next, ParseTime;
    match call
    case SetTimestamp(v) => MachinesAgree(o, EnTimestamp, c, v);
    case SetHostname(v) => MachinesAgree(o, EnField(Hostname), c, v);
    case SetAppname(v) => MachinesAgree(o, EnField(Appname), c, v);
    case SetProcID(v) => MachinesAgree(o, EnField(ProcID), c, v);
    case SetMsgID(v) => MachinesAgree(o, EnField(MsgID), c, v);
    case SetElementID(v) => MachinesAgree(o, EnSdid, c, v);
    case SetMessage(v) => MachinesAgree(o, EnMsg, c, v);
    case _ =>
  }

  // ------------------------------------------------------------------
  // What each call does, in numbers

  /** The four header fields: visible octets within the length of the field, and not `-`. */
  lemma FieldCalls(m: Message, v: bytes)
    ensures Apply(m, SetHostname(v)) == if 1 <= |v| <= 255 && Visible(v) && v != [45] then m.(hostname := Some(v)) else m
    ensures Apply(m, SetAppname(v)) == if 1 <= |v| <= 48 && Visible(v) && v != [45] then m.(appname := Some(v)) else m
    ensures Apply(m, SetProcID(v)) == if 1 <= |v| <= 128 && Visible(v) && v != [45] then m.(procID := Some(v)) else m
    ensures Apply(m, SetMsgID(v)) == if 1 <= |v| <= 32 && Visible(v) && v != [45] then m.(msgID := Some(v)) else m
  {
  }

  lemma OtherCalls(m: Message, p: byte, version: nat, v: bytes)
    ensures Apply(m, SetPriority(p))
         == if p <= 191 then m.(priority := Some(p), facility := Some(p / 8), severity := Some(p % 8)) else m
    ensures Apply(m, Call.SetVersion(version)) == if 1 <= version <= 999 then m.(version := version) else m
    ensures Apply(m, SetElementID(v))
         == if 1 <= |v| <= 32 && Visible(v) && 61 !in v && 93 !in v && 34 !in v then
              m.(structuredData := Some(if v in Elements(m) then Elements(m) else Elements(m)[v := map[]]))
            else m
    ensures Apply(m, SetMessage(v)) == if v == [] then m else m.(message := Some(v))
  {
    assert forall i :: 0 <= i < |v| ==> v[i] in v;
  }

  /** A timestamp is set exactly when it is one and its month has the day. */
  lemma TimestampCall(m: Message, v: bytes)
    ensures forall st: Stamp :: st.WellFormed() && StampText(st) == v ==>
              Apply(m, SetTimestamp(v))
              == if st.day <= DaysIn(st.year, st.month) then m.(timestamp := Some(st.Value())) else m
    ensures (forall st: Stamp :: st.WellFormed() ==> StampText(st) != v) ==> Apply(m, SetTimestamp(v)) == m
  {
    hide StampText, ParserRun, ParseTime;
    TimestampTable(v);
    forall st: Stamp | st.WellFormed() && StampText(st) == v
      ensures Apply(m, SetTimestamp(v))
           == if st.day <= DaysIn(st.year, st.month) then m.(timestamp := Some(st.Value())) else m
    {
      ParseStamp(st);
    }
  }

  // ------------------------------------------------------------------
  // MSG

  /** A MSG is accepted when it does not start with a BOM or the rest is UTF-8; without the option, always. */
  lemma MsgAccepted(o: Options, c: Config, m: bytes, col: nat)
    requires c.cs == MsgFirst && c.out.message == []
    ensures Run(o, c, m, col).Accepted? <==> (o.compliantMsg && BOM <= m ==> IsUtf8(m[3..]))
    ensures Run(o, c, m, col).Accepted? ==> Run(o, c, m, col).out == c.out.(message := m)
  {
    hide Run, WellFormed, IsUtf8;
    if BOM <= m { WellFormedIsUtf8(m[3..]); }
    if o.compliantMsg ==> IsCompliant(m) {
      ReadMsg(o, c, m, col);
    } else if Run(o, c, m, col).Accepted? {
      MsgBack(o, c, m, col);
    }
  }
}
