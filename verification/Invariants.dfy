/**
 What every step of the automaton keeps: the counts of the collapsed states, the
 structured data invariant, exact narrowing, and independence from the element
 and parameter names that an earlier parse left behind.
 */
module Invariants {
  import opened Bytes
  import opened Utf8
  import opened Functions
  import opened Timestamps
  import opened Messages
  import opened Automaton
  import opened Completeness

  /** The states inside the token that starts at pb. */
  predicate InToken(cs: State) {
    match cs
    case PriLast => true
    case PriOne => true
    case PriTwo => true
    case PriNineteen => true
    case Version(n) => true
    case Time(n) => true
    case FieldRest(f, n) => true
    case IdRest(n) => true
    case NameRest(n) => true
    case Value => true
    case ValueEscape => true
    case ValueTail(u) => true
    case AnyRest => true
    case Octets => true
    case BomTwo => true
    case BomThree => true
    case Text => true
    case TextTail(u) => true
    case _ => false
  }

  /** The states 19..63, inside a structured data element. */
  predicate InElement(cs: State) {
    match cs
    case NameFirst => true
    case NameRest(n) => true
    case NameEnd => true
    case ValueFirst => true
    case Value => true
    case ValueEscape => true
    case ValueTail(u) => true
    case ValueEnd => true
    case _ => false
  }

  predicate InMessage(cs: State) {
    match cs
    case AnyFirst => true
    case AnyRest => true
    case CompliantFirst => true
    case Octets => true
    case BomTwo => true
    case BomThree => true
    case Text => true
    case TextTail(u) => true
    case _ => false
  }

  /** The states before the first bracket. */
  predicate BeforeSd(cs: State) {
    match cs
    case Start => true
    case PriFirst => true
    case PriLast => true
    case PriOne => true
    case PriTwo => true
    case PriNineteen => true
    case Body => true
    case Version(n) => true
    case TimeFirst => true
    case TimeNil => true
    case Time(n) => true
    case FieldFirst(f) => true
    case FieldRest(f, n) => true
    case SdFirst => true
    case SdNil => true
    case _ => false
  }

  /** The counts of the collapsed states, and what the token of a state looks like. */
  ghost predicate TokenFits(cs: State, token: bytes) {
    match cs
    case PriLast => 1 <= |token| <= 3 && 0 <= Num(token) <= 191
    case PriOne => Num(token) == 1 && |token| == 1
    case PriTwo => (|token| == 1 && 2 <= Num(token) <= 9) || (|token| == 2 && 10 <= Num(token) <= 18)
    case PriNineteen => |token| == 2 && Num(token) == 19
    case Version(n) => 1 <= n <= 3 && n == |token| && 1 <= Num(token) < Pow10(n)
    case Time(n) => 554 <= n <= 590 && ParserRun(6, token) == n
    case FieldRest(f, n) => n == |token| && IsField(f, token)
    case IdRest(n) => n == |token| && IsName(token)
    case NameRest(n) => n == |token| && IsName(token)
    case ValueTail(u) => token != [] && u != Ready && u != Bad
    case TextTail(u) => u != Ready && u != Bad
    case ValueEscape => token != []
    case _ => InToken(cs) || token == []
  }

  /** The recorded backslashes lie inside the token, in order. */
  ghost predicate BackslashesFit(c: Config) {
    match c.cs
    case NameRest(n) => c.backslashes == []
    case NameEnd => c.backslashes == []
    case ValueFirst => c.backslashes == []
    case Value => Increasing(c.backslashes) && Within(c.backslashes, 0, |c.token|)
    case ValueEscape => Increasing(c.backslashes) && Within(c.backslashes, 0, |c.token|)
    case ValueTail(u) => Increasing(c.backslashes) && Within(c.backslashes, 0, |c.token|)
    case _ => true
  }

  predicate SdConsistent(out: Draft) {
    out.hasElements <==> out.structuredData != map[]
  }

  /** Between two parameters: the states 19..51 and 55. */
  predicate BetweenParams(cs: State) {
    cs == NameFirst || cs.NameRest? || cs == ValueEnd
  }

  /** Between two elements: the states 17, 18, 64..94 and 606. */
  predicate BetweenElements(cs: State) {
    cs == IdFirst || cs.IdRest? || cs == ElementEnd
  }

  /** The current element and, between parameters, the current parameter are in the map. */
  ghost predicate NamesFit(c: Config) {
    && (InElement(c.cs) ==> c.elem in c.out.structuredData)
    && (BetweenElements(c.cs) ==> c.out.structuredData == map[] || c.elem in c.out.structuredData)
    && (BetweenParams(c.cs) ==> CurrentParam(c))
  }

  /** The current parameter belongs to the current element, if that has parameters. */
  ghost predicate CurrentParam(c: Config) {
    var sd := c.out.structuredData;
    c.elem in sd && (sd[c.elem] == map[] || c.param in sd[c.elem])
  }

  ghost predicate Inv(c: Config) {
    && TokenFits(c.cs, c.token)
    && BackslashesFit(c)
    && SdConsistent(c.out)
    && (BeforeSd(c.cs) ==> c.out.structuredData == map[])
    && NamesFit(c)
  }

  // ------------------------------------------------------------------
  // Every step keeps the invariant

  lemma NumExtend(t: bytes, b: byte)
    ensures Num(t + [b]) == 10 * Num(t) + (b as int - 48)
  {
    assert (t + [b])[..|t|] == t;
  }

  lemma NumOne(b: byte)
    ensures Num([b]) == b as int - 48
  {
    assert [b][..0] == [];
  }

  ghost predicate Keeps(x: Outcome) {
    match x
    case Go(d) => Inv(d)
    case Stop(kind, out) => SdConsistent(out)
  }

  lemma PriKeeps(c: Config, b: byte)
    requires Inv(c) && IsPri(c.cs)
    ensures Keeps(StepPri(c, b))
  {
    NumExtend(c.token, b);
    hide Num;
  }

  lemma VersionKeeps(c: Config, n: nat, b: byte)
    requires Inv(c) && c.cs == Version(n)
    ensures Keeps(StepVersion(c, n, b))
  {
    NumExtend(c.token, b);
    assert Pow10(n + 1) == 10 * Pow10(n);
    hide Num;
  }

  lemma TimeKeeps(c: Config, n: int, b: byte)
    requires Inv(c) && c.cs == Time(n)
    ensures Keeps(StepTime(c, n, b))
  {
    hide ParserNext, ParserRun, ParseTime;
    RunConcat(6, c.token, [b]);
    Run1(n, b);
  }

  lemma FieldKeeps(c: Config, f: Field, n: nat, b: byte)
    requires Inv(c) && c.cs == FieldRest(f, n)
    ensures Keeps(StepFieldRest(c, f, n, b))
  {
  }

  /** Dropping an element leaves none exactly when the flag goes. */
  lemma DropKeeps(out: Draft, elem: bytes)
    requires SdConsistent(out)
    ensures SdConsistent(DropElement(out, elem))
  {
    var sd := out.structuredData - {elem};
    if |sd| > 0 {
      assert sd.Keys != {};
      assert out.structuredData != map[];
    }
  }

  lemma NewKeeps(out: Draft, id: bytes)
    ensures SdConsistent(NewElement(out, id)) && id in NewElement(out, id).structuredData
    ensures NewElement(out, id).structuredData[id] == map[]
  {
    assert id in out.structuredData[id := map[]];
  }

  lemma IdKeeps(c: Config, n: nat, b: byte)
    requires Inv(c) && c.cs == IdRest(n)
    ensures Keeps(StepIdRest(c, n, b))
  {
    hide DropElement, NewElement;
    NewKeeps(c.out, c.token);
    DropKeeps(NewElement(c.out, c.token), c.token);
  }

  lemma SetParamKeeps(out: Draft, elem: bytes, param: bytes, value: bytes)
    requires SdConsistent(out)
    ensures SdConsistent(SetParam(out, elem, param, value))
    ensures SetParam(out, elem, param, value).structuredData.Keys == out.structuredData.Keys
    ensures elem in out.structuredData ==> param in SetParam(out, elem, param, value).structuredData[elem]
  {
    if elem in out.structuredData {
      assert elem in SetParam(out, elem, param, value).structuredData;
    }
  }

  lemma DropParamKeeps(out: Draft, elem: bytes, param: bytes)
    requires SdConsistent(out)
    ensures SdConsistent(DropParam(out, elem, param))
  {
    if elem in out.structuredData {
      assert elem in DropParam(out, elem, param).structuredData;
    }
  }

  lemma NameKeeps(c: Config, n: nat, b: byte)
    requires Inv(c) && c.cs == NameRest(n)
    ensures Keeps(StepNameRest(c, n, b))
  {
    hide DropParam;
    DropParamKeeps(c.out, c.elem, c.param);
  }

  lemma MoreBackslashes(bs: seq<int>, n: nat)
    requires Increasing(bs) && Within(bs, 0, n)
    ensures Increasing(bs + [n]) && Within(bs + [n], 0, n + 1)
  {
  }

  lemma LongerToken(bs: seq<int>, n: nat)
    requires Within(bs, 0, n)
    ensures Within(bs, 0, n + 1)
  {
  }

  lemma ValueKeeps(c: Config, b: byte)
    requires Inv(c) && c.cs == Value
    ensures Keeps(StepValue(c, b))
  {
    hide SetParam, Stripped, Increasing, Within, LeadOctet, Num, ParserRun, IsName, IsField, SdConsistent;
    SetParamKeeps(c.out, c.elem, c.param, Stripped(c));
    if b == SLASH { MoreBackslashes(c.backslashes, |c.token|); }
    LongerToken(c.backslashes, |c.token|);
  }

  lemma ValueTailKeeps(c: Config, u: Utf8State, b: byte)
    requires Inv(c) && c.cs == ValueTail(u)
    ensures Keeps(StepValueTail(c, u, b))
  {
    hide DropParam, Increasing, Within, Num, ParserRun, IsName, IsField;
    DropParamKeeps(c.out, c.elem, c.param);
    LongerToken(c.backslashes, |c.token|);
  }

  lemma HeaderKeeps(o: Options, c: Config, b: byte)
    requires Inv(c) && !InToken(c.cs) && BeforeSd(c.cs)
    ensures Keeps(Step(o, c, b))
  {
    hide Num, DropElement, DropParam, ParserRun, StepValue, Stripped;
    NumOne(b);
    Run1(6, b);
    assert Pow10(1) == 10;
  }

  lemma ElementPartKeeps(o: Options, c: Config, b: byte)
    requires Inv(c) && c.cs in {IdFirst, ElementEnd, MsgFirst}
    ensures Keeps(Step(o, c, b))
  {
    hide Step, Keeps, Inv;
    if c.cs == IdFirst {
      IdFirstKeeps(o, c, b);
    } else {
      ElementEndKeeps(o, c, b);
    }
  }

  lemma IdFirstKeeps(o: Options, c: Config, b: byte)
    requires Inv(c) && c.cs == IdFirst
    ensures Keeps(Step(o, c, b))
  {
    DropKeeps(c.out, c.elem);
    StepOnIdFirst(o, c, b);
    hide Step, Num, DropElement, ParserRun, Increasing, Within, IsField, SdConsistent;
  }

  lemma ElementEndKeeps(o: Options, c: Config, b: byte)
    requires Inv(c) && (c.cs == ElementEnd || c.cs == MsgFirst)
    ensures Keeps(Step(o, c, b))
  {
    if c.cs == ElementEnd { StepOnElementEnd(o, c, b); } else { StepOnMsgFirst(o, c, b); }
    hide Step, Num, DropElement, ParserRun, Increasing, Within, IsField, SdConsistent;
  }

  lemma ParamPartKeeps(o: Options, c: Config, b: byte)
    requires Inv(c) && c.cs in {NameFirst, NameEnd, ValueEnd}
    ensures Keeps(Step(o, c, b))
  {
    hide Step, Num, DropParam, ParserRun, Increasing, Within, IsField;
    DropParamKeeps(c.out, c.elem, c.param);
    if c.cs == NameFirst { StepOnNameFirst(o, c, b); }
    if c.cs == NameEnd { StepOnNameEnd(o, c, b); }
    if c.cs == ValueEnd { StepOnValueEnd(o, c, b); }
  }

  lemma OtherKeeps(o: Options, c: Config, b: byte)
    requires Inv(c) && !InToken(c.cs) && !c.cs.ValueFirst?
    ensures Keeps(Step(o, c, b))
  {
    hide Step, Inv, Keeps;
    if BeforeSd(c.cs) {
      HeaderKeeps(o, c, b);
    } else if InMessage(c.cs) {
      MessageStartKeeps(o, c, b);
    } else if InElement(c.cs) {
      ParamPartKeeps(o, c, b);
    } else {
      ElementPartKeeps(o, c, b);
    }
  }

  lemma MessageStartKeeps(o: Options, c: Config, b: byte)
    requires Inv(c) && (c.cs == AnyFirst || c.cs == CompliantFirst)
    ensures Keeps(Step(o, c, b))
  {
    hide Step;
    StepOnMessageFirst(o, c, b);
  }

  lemma EscapeKeeps(o: Options, c: Config, b: byte)
    requires Inv(c) && c.cs == ValueEscape
    ensures Keeps(Step(o, c, b))
  {
    hide Step;
    StepOnValueEscape(o, c, b);
  }

  lemma MessageKeeps(o: Options, c: Config, b: byte)
    requires Inv(c) && InToken(c.cs) && InMessage(c.cs)
    ensures Keeps(Step(o, c, b))
  {
    hide LeadOctet, Num, ParserRun;
  }

  /** Every live step keeps the invariant, and a stop keeps the flag right. */
  lemma StepInvariant(o: Options, c: Config, b: byte)
    requires Inv(c)
    ensures Keeps(Step(o, c, b))
  {
    hide Step, Inv, Keeps, StepPri, StepVersion, StepTime, StepFieldRest, StepIdRest, StepNameRest, StepValue, StepValueTail;
    match c.cs
    case PriLast => StepOnPri(o, c, b); PriKeeps(c, b);
    case PriOne => StepOnPri(o, c, b); PriKeeps(c, b);
    case PriTwo => StepOnPri(o, c, b); PriKeeps(c, b);
    case PriNineteen => StepOnPri(o, c, b); PriKeeps(c, b);
    case Version(n) => StepOnVersion(o, c, n, b); VersionKeeps(c, n, b);
    case Time(n) => StepOnTime(o, c, n, b); TimeKeeps(c, n, b);
    case FieldRest(f, n) => StepOnField(o, c, f, n, b); FieldKeeps(c, f, n, b);
    case IdRest(n) => StepOnId(o, c, n, b); IdKeeps(c, n, b);
    case NameRest(n) => StepOnName(o, c, n, b); NameKeeps(c, n, b);
    case Value => StepOnValue(o, c, b); ValueKeeps(c, b);
    case ValueFirst => StepOnValueFirst(o, c, b); FirstValueKeeps(c, b);
    case ValueEscape => EscapeKeeps(o, c, b);
    case ValueTail(u) => StepOnValueTail(o, c, u, b); ValueTailKeeps(c, u, b);
    case AnyRest => MessageKeeps(o, c, b);
    case Octets => MessageKeeps(o, c, b);
    case BomTwo => MessageKeeps(o, c, b);
    case BomThree => MessageKeeps(o, c, b);
    case Text => MessageKeeps(o, c, b);
    case TextTail(u) => MessageKeeps(o, c, b);
    case _ => OtherKeeps(o, c, b);
  }

  lemma FirstValueKeeps(c: Config, b: byte)
    requires Inv(c) && c.cs == ValueFirst
    ensures Keeps(StepValue(c.(token := []), b))
  {
    var d := c.(cs := Value, token := []);
    SameStepValue(c.(token := []), d, b);
    ValueKeeps(d, b);
  }

  lemma InitialInvariant(o: Options, s: bytes, elem: bytes, param: bytes)
    ensures Inv(Initial(o, s, elem, param))
  {
  }

  /** The narrowing of the priority to 8 bits and of the version to 16 bits loses nothing. */
  lemma ExactNarrowing(c: Config)
    requires Inv(c)
    ensures IsPri(c.cs) ==> Uint8(Num(c.token)) == Num(c.token) <= 191
    ensures c.cs.Version? ==> Uint16(Num(c.token)) == Num(c.token) <= 999
  {
    if c.cs.Version? {
      assert Pow10(1) == 10 && Pow10(2) == 100 && Pow10(3) == 1000;
    }
    hide Num;
  }

  // ------------------------------------------------------------------
  // Names left behind by an earlier parse do not matter

  predicate NoParams(sd: StructuredData) {
    forall id :: id in sd ==> sd[id] == map[]
  }

  /** From set_paramname to the end of the value. */
  predicate HasParamName(cs: State) {
    match cs
    case NameEnd => true
    case ValueFirst => true
    case Value => true
    case ValueEscape => true
    case ValueTail(u) => true
    case _ => false
  }

  /**
   d differs from c at most in names that nothing refers to yet: an element name
   while there are no elements, a parameter name while there are no parameters.
   */
  predicate Stale(c: Config, d: Config) {
    && d == c.(elem := d.elem, param := d.param)
    && (d.elem == c.elem || c.out.structuredData == map[])
    && (d.param == c.param || (NoParams(c.out.structuredData) && !HasParamName(c.cs)))
  }

  /** The same stop, or two configurations related as before. */
  predicate StaleOutcome(x: Outcome, y: Outcome) {
    if x.Go? then y.Go? && Stale(x.c, y.c) else x == y
  }

  lemma DropParamStale(out: Draft, elem: bytes, p: bytes, q: bytes)
    requires p == q || NoParams(out.structuredData)
    ensures DropParam(out, elem, p) == DropParam(out, elem, q)
  {
    if elem in out.structuredData && p != q {
      var m := out.structuredData[elem];
      assert m - {p} == map[] && m - {q} == map[];
    }
  }

  lemma DropElementStale(out: Draft, e: bytes, f: bytes)
    requires e == f || out.structuredData == map[]
    ensures DropElement(out, e) == DropElement(out, f)
  {
    if e != f {
      assert out.structuredData - {e} == map[] && out.structuredData - {f} == map[];
    }
  }

  lemma HeaderStale(o: Options, c: Config, d: Config, b: byte)
    requires Stale(c, d) && BeforeSd(c.cs) && !InToken(c.cs)
    ensures StaleOutcome(Step(o, c, b), Step(o, d, b))
  {
    hide Num, ParserNext, ParseTime, LeadOctet;
  }

  lemma TokenStale(o: Options, c: Config, d: Config, b: byte)
    requires Stale(c, d) && BeforeSd(c.cs) && InToken(c.cs)
    ensures StaleOutcome(Step(o, c, b), Step(o, d, b))
  {
    hide Step, Num, ParserNext, ParseTime;
    match c.cs
    case Version(n) => StepOnVersion(o, c, n, b); StepOnVersion(o, d, n, b);
    case Time(n) => StepOnTime(o, c, n, b); StepOnTime(o, d, n, b);
    case FieldRest(f, n) => StepOnField(o, c, f, n, b); StepOnField(o, d, f, n, b);
    case _ => StepOnPri(o, c, b); StepOnPri(o, d, b);
  }

  lemma MessageStale(o: Options, c: Config, d: Config, b: byte)
    requires Stale(c, d) && InMessage(c.cs)
    ensures StaleOutcome(Step(o, c, b), Step(o, d, b))
  {
    hide Step, LeadOctet, TailOctet;
    match c.cs
    case Text => StepOnText(o, c, b); StepOnText(o, d, b);
    case TextTail(u) => StepOnTextTail(o, c, u, b); StepOnTextTail(o, d, u, b);
    case AnyRest => StepOnOctets(o, c, b); StepOnOctets(o, d, b);
    case Octets => StepOnOctets(o, c, b); StepOnOctets(o, d, b);
    case BomTwo => StepOnBom(o, c, b); StepOnBom(o, d, b);
    case BomThree => StepOnBom(o, c, b); StepOnBom(o, d, b);
    case _ => StepOnMessageFirst(o, c, b); StepOnMessageFirst(o, d, b);
  }

  lemma IdStale(o: Options, c: Config, d: Config, b: byte)
    requires Stale(c, d) && (c.cs.IdRest? || c.cs in {IdFirst, ElementEnd, MsgFirst})
    ensures StaleOutcome(Step(o, c, b), Step(o, d, b))
  {
    hide Step, DropElement;
    DropElementStale(c.out, c.elem, d.elem);
    match c.cs
    case IdFirst => StepOnIdFirst(o, c, b); StepOnIdFirst(o, d, b);
    case IdRest(n) => StepOnId(o, c, n, b); StepOnId(o, d, n, b);
    case ElementEnd => StepOnElementEnd(o, c, b); StepOnElementEnd(o, d, b);
    case _ => StepOnMsgFirst(o, c, b); StepOnMsgFirst(o, d, b);
  }

  lemma NameStale(o: Options, c: Config, d: Config, b: byte)
    requires Inv(c) && Stale(c, d) && (c.cs.NameRest? || c.cs in {NameFirst, NameEnd, ValueEnd})
    ensures StaleOutcome(Step(o, c, b), Step(o, d, b))
  {
    hide Step, DropParam;
    DropParamStale(c.out, c.elem, c.param, d.param);
    match c.cs
    case NameFirst => StepOnNameFirst(o, c, b); StepOnNameFirst(o, d, b);
    case NameRest(n) => StepOnName(o, c, n, b); StepOnName(o, d, n, b);
    case NameEnd => StepOnNameEnd(o, c, b); StepOnNameEnd(o, d, b);
    case _ => StepOnValueEnd(o, c, b); StepOnValueEnd(o, d, b);
  }

  /** Inside an element the element name, and inside a value both names, are current. */
  lemma Current(c: Config, d: Config)
    requires Inv(c) && Stale(c, d) && InElement(c.cs)
    ensures d.elem == c.elem
    ensures HasParamName(c.cs) ==> d == c
  {
  }

  lemma StaleStep(o: Options, c: Config, d: Config, b: byte)
    requires Inv(c) && Stale(c, d)
    ensures StaleOutcome(Step(o, c, b), Step(o, d, b))
  {
    hide Step, Inv, Stale, StaleOutcome;
    if InMessage(c.cs) {
      MessageStale(o, c, d, b);
    } else if BeforeSd(c.cs) {
      if InToken(c.cs) { TokenStale(o, c, d, b); } else { HeaderStale(o, c, d, b); }
    } else if HasParamName(c.cs) {
      Current(c, d);
      StaleRefl(Step(o, c, b));
    } else if InElement(c.cs) {
      NameStale(o, c, d, b);
    } else {
      IdStale(o, c, d, b);
    }
  }

  lemma StaleRefl(x: Outcome)
    ensures StaleOutcome(x, x)
  {
  }

  lemma StaleEof(o: Options, c: Config, d: Config, col: nat)
    requires Stale(c, d)
    ensures AtEof(o, c, col) == AtEof(o, d, col)
  {
    hide Num, ParseTime, DropElement, DropParam;
    DropElementStale(c.out, c.elem, d.elem);
    EofParamStale(o, c, d);
  }

  lemma EofParamStale(o: Options, c: Config, d: Config)
    requires Stale(c, d)
    ensures DropParam(c.out, c.elem, c.param) == DropParam(d.out, d.elem, d.param)
  {
    DropParamStale(c.out, c.elem, c.param, d.param);
  }

  lemma {:induction false} StaleRun(o: Options, c: Config, d: Config, s: bytes, col: nat)
    requires Inv(c) && Stale(c, d)
    ensures Run(o, c, s, col) == Run(o, d, s, col)
    decreases |s|
  {
    hide Step, Inv, Stale, AtEof;
    if s == [] {
      StaleEof(o, c, d, col);
    } else {
      StepInvariant(o, c, s[0]);
      StaleStep(o, c, d, s[0]);
      if Step(o, c, s[0]).Go? {
        StaleRun(o, Step(o, c, s[0]).c, Step(o, d, s[0]).c, s[1..], col + 1);
      }
    }
  }

  /** The outcome of a parse does not depend on the names an earlier parse left behind. */
  lemma ReuseIsFresh(o: Options, s: bytes, elem: bytes, param: bytes)
    ensures Run(o, Initial(o, s, elem, param), s, 0) == Parse(o, s)
  {
    hide Run;
    InitialInvariant(o, s, [], []);
    StaleRun(o, Initial(o, s, [], []), Initial(o, s, elem, param), s, 0);
  }
}
