/**
 What later octets cannot change in rfc5424/machine.go: the column and the kind of
 a rejection, the header fields that were read, and so the message that the best
 effort mode returns.
 */
module Stability {
  import opened Bytes
  import opened Utf8
  import opened Functions
  import opened Timestamps
  import opened Messages
  import opened Automaton
  import opened Grammar
  import opened Completeness
  import opened Soundness
  import opened Invariants

  /** The configuration after s, or the first stop. */
  function Walk(o: Options, c: Config, s: bytes): Outcome
    decreases |s|
  {
    if s == [] then Go(c)
    else
      match Step(o, c, s[0])
      case Go(d) => Walk(o, d, s[1..])
      case Stop(kind, out) => Stop(kind, out)
  }

  lemma {:induction false} RunWalk(o: Options, c: Config, s: bytes, t: bytes, col: nat)
    requires Walk(o, c, s).Go?
    ensures Run(o, c, s + t, col) == Run(o, Walk(o, c, s).c, t, col + |s|)
    decreases |s|
  {
    hide Step;
    if s == [] {
      assert s + t == t;
    } else {
      TailOfConcat(s, t);
      RunWalk(o, Step(o, c, s[0]).c, s[1..], t, col + 1);
    }
  }

  /** The column of a rejection is the octet that stopped the run, or the end of the input. */
  lemma {:induction false} Rejection(o: Options, c: Config, s: bytes, col: nat)
    requires Run(o, c, s, col).Rejected?
    ensures var e := Run(o, c, s, col);
            && col <= e.col <= col + |s|
            && Walk(o, c, s[..e.col - col]).Go?
            && var d := Walk(o, c, s[..e.col - col]).c;
               if e.col < col + |s| then Step(o, d, s[e.col - col]) == Stop(e.kind, e.out) else AtEof(o, d, e.col) == e
    decreases |s|
  {
    hide Step, AtEof;
    EofColumn(o, c, col);
    var e := Run(o, c, s, col);
    if s == [] {
      assert s[..0] == [];
    } else if Step(o, c, s[0]).Go? {
      Rejection(o, Step(o, c, s[0]).c, s[1..], col + 1);
      assert s[..e.col - col][1..] == s[1..][..e.col - col - 1];
    }
  }

  lemma EofColumn(o: Options, c: Config, col: nat)
    ensures AtEof(o, c, col).Rejected? ==> AtEof(o, c, col).col == col
  {
    hide Num, ParseTime, DropElement, DropParam, NewElement;
  }

  lemma SameStart(o: Options, s: bytes, t: bytes)
    requires s != [] && t != [] && s[0] == t[0]
    ensures Initial(o, t, [], []) == Initial(o, s, [], [])
  {
  }

  /**
   Final rejection: an error before the end of the input repeats, with its kind, its
   column and its message, on every input that shares the octets up to it.
   */
  lemma FinalRejection(o: Options, s: bytes, t: bytes)
    requires Parse(o, s).Rejected? && Parse(o, s).col < |s|
    requires s[..Parse(o, s).col + 1] <= t
    ensures Parse(o, t) == Parse(o, s)
    ensures Answer(o, Parse(o, t)) == Answer(o, Parse(o, s))
  {
    hide Run, Step, Initial, Answer;
    var k, c := Parse(o, s).col, Initial(o, s, [], []);
    Rejection(o, c, s, 0);
    assert s[0] == s[..k + 1][0] && t[0] == s[..k + 1][0];
    SameStart(o, s, t);
    assert t == s[..k] + ([s[k]] + t[k + 1..]) by {
      assert s[..k + 1] == s[..k] + [s[k]];
    }
    RunWalk(o, c, s[..k], [s[k]] + t[k + 1..], 0);
    RunHead(o, Walk(o, c, s[..k]).c, s[k], t[k + 1..], k);
  }

  // ------------------------------------------------------------------
  // Stages

  /** How far the header has been read: PRI, VERSION, TIMESTAMP, the four fields, the rest. */
  function Stage(cs: State): nat {
    match cs
    case Start => 0
    case PriFirst => 0
    case PriLast => 0
    case PriOne => 0
    case PriTwo => 0
    case PriNineteen => 0
    case Body => 1
    case Version(n) => 1
    case TimeFirst => 2
    case TimeNil => 2
    case Time(n) => 2
    case FieldFirst(f) => FieldStage(f)
    case FieldRest(f, n) => FieldStage(f)
    case _ => 7
  }

  function FieldStage(f: Field): nat {
    match f
    case Hostname => 3
    case Appname => 4
    case ProcID => 5
    case MsgID => 6
  }

  /** Nothing is set before its stage. */
  predicate UnsetYet(stage: nat, out: Draft) {
    && (stage <= 2 ==> out.timestamp.None?)
    && (stage <= 3 ==> out.hostname == []) && (stage <= 4 ==> out.appname == [])
    && (stage <= 5 ==> out.procID == []) && (stage <= 6 ==> out.msgID == [])
  }

  /** What d has of TIMESTAMP and the fields, e has too; PRI and VERSION are the same. */
  predicate Carried(d: Draft, e: Draft) {
    && d.prioritySet == e.prioritySet && d.priority == e.priority && d.version == e.version
    && (d.timestamp.None? || d.timestamp == e.timestamp)
    && (d.hostname == [] || d.hostname == e.hostname) && (d.appname == [] || d.appname == e.appname)
    && (d.procID == [] || d.procID == e.procID) && (d.msgID == [] || d.msgID == e.msgID)
  }

  /** From the TIMESTAMP on, a step keeps what was read, and so does a stop. */
  predicate Advances(c: Config, x: Outcome) {
    match x
    case Go(d) => Stage(d.cs) >= Stage(c.cs) && UnsetYet(Stage(d.cs), d.out) && Carried(c.out, d.out)
    case Stop(kind, out) => StoppedWith(c, out)
  }

  /** A stop sets at most the TIMESTAMP, from a token that is one. */
  predicate StoppedWith(c: Config, out: Draft) {
    && Carried(c.out, out) && Carried(out.(timestamp := c.out.timestamp), c.out)
    && (out.timestamp == c.out.timestamp || (c.cs == Time(578) && out.timestamp == ParseTime(c.token)))
  }

  lemma HeaderAdvances(o: Options, c: Config, b: byte)
    requires 2 <= Stage(c.cs) <= 6 && UnsetYet(Stage(c.cs), c.out)
    ensures Advances(c, Step(o, c, b))
  {
    hide Step, ParserNext, ParseTime;
    match c.cs
    case TimeFirst => StepOnTimeFirst(o, c, b);
    case TimeNil => StepOnTimeNil(o, c, b);
    case Time(n) => StepOnTime(o, c, n, b);
    case FieldFirst(f) => StepOnFieldFirst(o, c, f, b);
    case FieldRest(f, n) => StepOnField(o, c, f, n, b);
  }

  lemma MessageAdvances(o: Options, c: Config, b: byte)
    requires InMessage(c.cs)
    ensures Advances(c, Step(o, c, b))
  {
    hide Step, LeadOctet, TailOctet;
    match c.cs
    case AnyFirst => StepOnMessageFirst(o, c, b);
    case AnyRest => StepOnOctets(o, c, b);
    case CompliantFirst => StepOnMessageFirst(o, c, b);
    case Octets => StepOnOctets(o, c, b);
    case BomTwo => StepOnBom(o, c, b);
    case BomThree => StepOnBom(o, c, b);
    case Text => StepOnText(o, c, b);
    case TextTail(u) => StepOnTextTail(o, c, u, b);
  }

  lemma ParamAdvances(o: Options, c: Config, b: byte)
    requires InElement(c.cs)
    ensures Advances(c, Step(o, c, b))
  {
    hide Step, LeadOctet, TailOctet, Stripped;
    match c.cs
    case NameFirst => StepOnNameFirst(o, c, b);
    case NameRest(n) => StepOnName(o, c, n, b);
    case NameEnd => StepOnNameEnd(o, c, b);
    case ValueFirst => StepOnValueFirst(o, c, b);
    case Value => StepOnValue(o, c, b);
    case ValueEscape => StepOnValueEscape(o, c, b);
    case ValueTail(u) => StepOnValueTail(o, c, u, b);
    case ValueEnd => StepOnValueEnd(o, c, b);
  }

  lemma ElementAdvances(o: Options, c: Config, b: byte)
    requires c.cs in {SdFirst, SdNil, IdFirst, ElementEnd, MsgFirst}
    ensures Advances(c, Step(o, c, b))
  {
    hide Step;
    if c.cs == SdFirst { StepOnSdFirst(o, c, b); }
    if c.cs == SdNil { StepOnSdNil(o, c, b); }
    if c.cs == IdFirst { StepOnIdFirst(o, c, b); }
    if c.cs == ElementEnd { StepOnElementEnd(o, c, b); }
    if c.cs == MsgFirst { StepOnMsgFirst(o, c, b); }
  }

  lemma IdAdvances(o: Options, c: Config, n: nat, b: byte)
    requires c.cs == IdRest(n)
    ensures Advances(c, Step(o, c, b))
  {
    hide Step;
    StepOnId(o, c, n, b);
  }

  lemma StepAdvances(o: Options, c: Config, b: byte)
    requires Stage(c.cs) >= 2 && UnsetYet(Stage(c.cs), c.out)
    ensures Advances(c, Step(o, c, b))
  {
    hide Advances, UnsetYet, Step;
    if InMessage(c.cs) {
      MessageAdvances(o, c, b);
    } else if InElement(c.cs) {
      ParamAdvances(o, c, b);
    } else if c.cs.IdRest? {
      IdAdvances(o, c, c.cs.count, b);
    } else if Stage(c.cs) == 7 {
      ElementAdvances(o, c, b);
    } else {
      HeaderAdvances(o, c, b);
    }
  }

  lemma EofAdvances(o: Options, c: Config, col: nat)
    requires Stage(c.cs) >= 2 && UnsetYet(Stage(c.cs), c.out)
    ensures StoppedWith(c, AtEof(o, c, col).out)
  {
    hide StoppedWith, UnsetYet, AtEof;
    if Stage(c.cs) == 7 {
      if InMessage(c.cs) { MessageEof(o, c, col); } else { RestEof(o, c, col); }
    } else {
      HeaderEof(o, c, col);
    }
  }

  lemma HeaderEof(o: Options, c: Config, col: nat)
    requires 2 <= Stage(c.cs) <= 6 && UnsetYet(Stage(c.cs), c.out)
    ensures StoppedWith(c, AtEof(o, c, col).out)
  {
    hide Num, ParseTime;
  }

  lemma RestEof(o: Options, c: Config, col: nat)
    requires Stage(c.cs) == 7 && !InMessage(c.cs)
    ensures StoppedWith(c, AtEof(o, c, col).out)
  {
    hide Num, ParseTime, InToken, InElement;
  }

  lemma MessageEof(o: Options, c: Config, col: nat)
    requires InMessage(c.cs)
    ensures StoppedWith(c, AtEof(o, c, col).out)
  {
  }

  // ------------------------------------------------------------------
  // What a rejected input still gives

  predicate PastVersion(cs: State) {
    cs.Version? || Stage(cs) >= 2
  }

  /** What holds of the draft in each stage of the header. */
  ghost predicate HeaderInv(o: Options, c: Config) {
    && Inv(c)
    && UnsetYet(Stage(c.cs), c.out)
    && (c.cs == Start || c.cs == PriFirst ==> c.out == BLANK)
    && (!PastVersion(c.cs) ==> c.out.version == 0)
    && (Stage(c.cs) >= 1 ==> if c.out.prioritySet then ValidPriority(c.out.priority) else o.optionalPriority)
    && (Stage(c.cs) >= 2 || (c.cs.Version? && c.cs.count >= 2) ==> ValidVersion(c.out.version))
  }

  /** The draft of a stop or of the end of the input, against the configuration there. */
  ghost predicate Leaves(o: Options, c: Config, out: Draft) {
    && (!PastVersion(c.cs) ==> out.version == 0)
    && (PastVersion(c.cs) ==>
          && StoppedWith(c, out.(version := c.out.version))
          && (Stage(c.cs) >= 2 ==> out.version == c.out.version)
          && out.Minimal(o.optionalPriority))
  }

  ghost predicate HeaderKept(o: Options, c: Config, x: Outcome) {
    match x
    case Go(d) =>
      && HeaderInv(o, d)
      && (PastVersion(c.cs) ==> PastVersion(d.cs) && Carried(c.out.(version := d.out.version), d.out))
      && (Stage(c.cs) >= 2 ==> Stage(d.cs) >= 2 && d.out.version == c.out.version)
    case Stop(kind, out) => Leaves(o, c, out)
  }

  lemma VersionInRange(c: Config)
    requires Inv(c) && c.cs.Version?
    ensures ValidVersion(SetVersion(c).version)
  {
    ExactNarrowing(c);
    hide Num;
  }

  lemma StartKept(o: Options, c: Config, b: byte)
    requires HeaderInv(o, c) && c.cs in {Start, PriFirst, Body}
    ensures HeaderKept(o, c, Step(o, c, b))
  {
    StepInvariant(o, c, b);
    hide Step, Inv, Num;
    if c.cs == Start { StepOnStart(o, c, b); }
    if c.cs == PriFirst { StepOnPriFirst(o, c, b); }
    if c.cs == Body { StepOnBody(o, c, b); }
  }

  lemma PriKept(o: Options, c: Config, b: byte)
    requires HeaderInv(o, c) && IsPri(c.cs)
    ensures HeaderKept(o, c, Step(o, c, b))
  {
    StepInvariant(o, c, b);
    ExactNarrowing(c);
    hide Step, Inv, Num, Carried, StoppedWith;
    StepOnPri(o, c, b);
  }

  lemma VersionKept(o: Options, c: Config, n: nat, b: byte)
    requires HeaderInv(o, c) && c.cs == Version(n)
    ensures HeaderKept(o, c, Step(o, c, b))
  {
    StepInvariant(o, c, b);
    VersionInRange(c);
    hide Step, Inv, Num;
    StepOnVersion(o, c, n, b);
  }

  lemma LaterKept(o: Options, c: Config, b: byte)
    requires HeaderInv(o, c) && Stage(c.cs) >= 2
    ensures HeaderKept(o, c, Step(o, c, b))
  {
    StepInvariant(o, c, b);
    StepAdvances(o, c, b);
    LateState();
    hide Step, Inv, UnsetYet, Stage, ParseTime;
  }

  lemma LateState()
    ensures forall cs :: Stage(cs) >= 2 ==> cs != Start && cs != PriFirst && PastVersion(cs) && !cs.Version?
  {
  }

  lemma StepKeepsHeader(o: Options, c: Config, b: byte)
    requires HeaderInv(o, c)
    ensures HeaderKept(o, c, Step(o, c, b))
  {
    if Stage(c.cs) < 2 {
      hide HeaderInv, HeaderKept, Step;
      if c.cs.Version? {
        VersionKept(o, c, c.cs.count, b);
      } else if IsPri(c.cs) {
        PriKept(o, c, b);
      } else {
        StartKept(o, c, b);
      }
    } else {
      hide HeaderInv, HeaderKept, Step;
      LaterKept(o, c, b);
    }
  }

  lemma EofKeepsHeader(o: Options, c: Config, col: nat)
    requires HeaderInv(o, c)
    ensures AtEof(o, c, col).Rejected? ==> Leaves(o, c, AtEof(o, c, col).out)
    ensures AtEof(o, c, col).Accepted? ==> Stage(c.cs) == 7
  {
    if Stage(c.cs) >= 2 {
      EofAdvances(o, c, col);
      EofFinal(o, c, col);
      hide AtEof, Inv, UnsetYet;
    } else {
      if c.cs.Version? { VersionInRange(c); }
      hide Num, Inv, UnsetYet;
    }
  }

  lemma {:induction false} WalkKeepsHeader(o: Options, c: Config, s: bytes)
    requires HeaderInv(o, c) && Walk(o, c, s).Go?
    ensures HeaderInv(o, Walk(o, c, s).c)
    decreases |s|
  {
    hide Step, HeaderInv;
    if s != [] {
      StepKeepsHeader(o, c, s[0]);
      WalkKeepsHeader(o, Step(o, c, s[0]).c, s[1..]);
    }
  }

  /** A run keeps what was read before it, however it ends. */
  lemma {:induction false} RunCarries(o: Options, c: Config, s: bytes, col: nat)
    requires HeaderInv(o, c) && PastVersion(c.cs)
    ensures var e := Run(o, c, s, col);
            && Carried(c.out.(version := e.out.version), e.out)
            && (Stage(c.cs) >= 2 ==> e.out.version == c.out.version)
            && (e.Rejected? ==> e.out.Minimal(o.optionalPriority))
    decreases |s|
  {
    hide Step, HeaderInv, AtEof;
    if s == [] {
      EofKeepsHeader(o, c, col);
      EofAccepted(o, c, col);
    } else {
      StepKeepsHeader(o, c, s[0]);
      if Step(o, c, s[0]).Go? { RunCarries(o, Step(o, c, s[0]).c, s[1..], col + 1); }
    }
  }

  lemma EofAccepted(o: Options, c: Config, col: nat)
    ensures AtEof(o, c, col).Accepted? ==> Carried(c.out, AtEof(o, c, col).out)
  {
  }

  lemma InitialHeader(o: Options, s: bytes)
    ensures HeaderInv(o, Initial(o, s, [], []))
  {
    InitialInvariant(o, s, [], []);
  }

  /** PRI, unless it may be left out, and the first digit of the VERSION. */
  ghost predicate Begins(o: Options, s: bytes) {
    || (exists pri: nat :: ValidPriority(pri) && StartsWithDigit(PriText(Some(pri)), s))
    || (o.optionalPriority && StartsWithDigit([], s))
  }

  predicate StartsWithDigit(head: bytes, s: bytes) {
    head < s && 49 <= s[|head|] <= 57
  }

  /** Past the first digit of the VERSION every rejection leaves a minimal message. */
  lemma BodyLeaves(o: Options, c: Config, s: bytes, col: nat)
    requires HeaderInv(o, c) && c.cs == Body
    ensures Run(o, c, s, col).Rejected? ==>
              (Run(o, c, s, col).out.Minimal(o.optionalPriority) <==> StartsWithDigit([], s))
  {
    hide Step, HeaderInv;
    if s == [] {
      EofKeepsHeader(o, c, col);
    } else {
      StepOnBody(o, c, s[0]);
      StepKeepsHeader(o, c, s[0]);
      if Step(o, c, s[0]).Go? { RunCarries(o, Step(o, c, s[0]).c, s[1..], col + 1); }
    }
  }

  /** The configuration after a PRI. */
  function AfterPriConfig(pri: byte): Config {
    Config(Body, [], [], [], [], BLANK.(priority := pri, prioritySet := true))
  }

  lemma AfterPriHeader(o: Options, s: bytes, pri: nat)
    requires ValidPriority(pri) && PriText(Some(pri)) <= s
    ensures HeaderInv(o, AfterPriConfig(pri))
    ensures Parse(o, s) == Run(o, AfterPriConfig(pri), s[|PriText(Some(pri))|..], |PriText(Some(pri))|)
  {
    hide Run, Dec, Num;
    var k := |PriText(Some(pri))|;
    assert s == PriText(Some(pri)) + s[k..] && s[0] == LT;
    ReadPri(o, Initial(o, s, [], []), pri, s[k..], 0);
  }

  lemma AfterPri(o: Options, s: bytes, pri: nat)
    requires ValidPriority(pri) && PriText(Some(pri)) <= s
    ensures var k := |PriText(Some(pri))|;
            Parse(o, s).Rejected? ==>
              (Parse(o, s).out.Minimal(o.optionalPriority) <==> StartsWithDigit([], s[k..]))
  {
    AfterPriHeader(o, s, pri);
    hide Run, HeaderInv, PriText;
    var k := |PriText(Some(pri))|;
    BodyLeaves(o, AfterPriConfig(pri), s[k..], k);
  }

  lemma MinimalBegins(o: Options, s: bytes)
    requires Initial(o, s, [], []).cs == Start
    requires Parse(o, s).Rejected? && Parse(o, s).out.Minimal(o.optionalPriority)
    ensures Begins(o, s)
  {
    hide Run, Step, Dec, StartsWithDigit;
    var c := Initial(o, s, [], []);
    NotOverYet(o, c, s, 0);
    StepOnStart(o, c, s[0]);
    var pri, rest, _ := PrivalBack(o, c.(cs := PriFirst), s[1..], 1);
    var head := PriText(Some(pri));
    assert s == head + rest;
    assert s[|head|..] == rest;
    AfterPri(o, s, pri);
    DigitAfter(head, s);
  }

  lemma DigitAfter(head: bytes, s: bytes)
    requires head <= s
    ensures StartsWithDigit(head, s) <==> StartsWithDigit([], s[|head|..])
  {
  }

  /** A rejected input leaves a minimal message exactly when it gets past the first digit of the VERSION. */
  lemma MinimalOnRejection(o: Options, s: bytes)
    requires Parse(o, s).Rejected?
    ensures Parse(o, s).out.Minimal(o.optionalPriority) <==> Begins(o, s)
  {
    hide Run, Dec;
    if Initial(o, s, [], []).cs == Body {
      InitialHeader(o, s);
      BodyLeaves(o, Initial(o, s, [], []), s, 0);
    } else {
      if Parse(o, s).out.Minimal(o.optionalPriority) {
        MinimalBegins(o, s);
      }
      if exists pri: nat :: ValidPriority(pri) && StartsWithDigit(PriText(Some(pri)), s) {
        var pri: nat :| ValidPriority(pri) && StartsWithDigit(PriText(Some(pri)), s);
        DigitAfter(PriText(Some(pri)), s);
        AfterPri(o, s, pri);
      }
    }
  }

  /** The best effort option changes nothing before the answer. */
  lemma {:induction false} OptionUnread(o: Options, c: Config, s: bytes, col: nat, b: bool)
    ensures Run(o.(bestEffort := b), c, s, col) == Run(o, c, s, col)
    decreases |s|
  {
    hide Step, AtEof;
    if s == [] {
      EofUnread(o, c, col, b);
    } else {
      StepUnread(o, c, s[0], b);
      if Step(o, c, s[0]).Go? { OptionUnread(o, Step(o, c, s[0]).c, s[1..], col + 1, b); }
    }
  }

  lemma StepUnread(o: Options, c: Config, x: byte, b: bool)
    ensures Step(o.(bestEffort := b), c, x) == Step(o, c, x)
  {
    hide StepPri, StepVersion, StepTime, StepFieldRest, StepIdRest, StepNameRest, StepValue, StepValueTail;
  }

  lemma EofUnread(o: Options, c: Config, col: nat, b: bool)
    ensures AtEof(o.(bestEffort := b), c, col) == AtEof(o, c, col)
  {
    hide EofTime, EofIdRest, EofMessage;
  }

  /**
   Best effort: the same answer as in strict mode on accepted inputs; on rejected ones
   the same error, and a message exactly when the input gets past the first digit of
   the VERSION.
   */
  lemma BestEffort(o: Options, s: bytes)
    requires o.bestEffort
    ensures var strict := o.(bestEffort := false);
            var a, b := Answer(o, Parse(o, s)), Answer(strict, Parse(strict, s));
            && a.error == b.error
            && (b.error.None? ==> a == b && b.message.Some?)
            && (b.error.Some? ==> b.message.None? && (a.message.Some? <==> Begins(o, s)))
  {
    hide Run, Begins;
    OptionUnread(o, Initial(o, s, [], []), s, 0, false);
    if Parse(o, s).Rejected? { MinimalOnRejection(o, s); }
  }

  // ------------------------------------------------------------------
  // The VERSION of a rejected input

  /** What follows the PRI, if there is one. */
  function VersionPart(s: bytes): bytes {
    if s != [] && s[0] == LT && IndexOf(s, GT) < |s| then s[IndexOf(s, GT) + 1..] else s
  }

  function DigitsUpTo(v: bytes, limit: nat): (d: bytes)
    ensures |d| <= limit && d <= v && AllDigits(d)
  {
    var n := DigitRun(v);
    if n <= limit then v[..n]
    else
      assert forall i :: 0 <= i < limit ==> v[..limit][i] == v[..n][i];
      v[..limit]
  }

  /** The digits of the VERSION that are read: three at most. */
  function VersionDigitsOf(s: bytes): bytes {
    DigitsUpTo(VersionPart(s), 3)
  }

  /** The input ends right after the second or the third digit. */
  predicate EndsInVersion(s: bytes) {
    |VersionPart(s)| == |VersionDigitsOf(s)| >= 2
  }

  /** The number of the digits, without the last one when the input ends after two or more of them. */
  function VersionLeft(v: bytes): int {
    var d := DigitsUpTo(v, 3);
    if |v| == |d| >= 2 then Num(d[..|d| - 1]) else Num(d)
  }

  /** What a parse leaves of the VERSION in v. */
  predicate LeavesVersion(e: End, v: bytes, end: nat) {
    e.out.version == VersionLeft(v) && (|v| == |DigitsUpTo(v, 3)| ==> e.Rejected? && e.col == end)
  }

  /** One octet of a VERSION. */
  lemma VersionStep(o: Options, c: Config, n: nat, b: byte)
    requires HeaderInv(o, c) && c.cs == Version(n)
    ensures var x := Step(o, c, b);
            if b == SP then
              x.Go? && HeaderInv(o, x.c) && x.c.cs == TimeFirst && x.c.out.version == Num(c.token)
            else if n < 3 && IsDigit(b) then
              && x.Go? && HeaderInv(o, x.c) && x.c.cs == Version(n + 1) && x.c.token == c.token + [b]
              && x.c.out.version == Num(c.token)
            else x.Stop? && x.out.version == Num(c.token)
  {
    NarrowVersion(o, c);
    StepOnVersion(o, c, n, b);
    StepKeepsHeader(o, c, b);
    hide Step, HeaderInv, Num, Inv, Leaves, Carried;
  }

  lemma RunOne(o: Options, c: Config, s: bytes, col: nat)
    ensures Run(o, c, s, col)
         == if s == [] then AtEof(o, c, col)
            else if Step(o, c, s[0]).Go? then Run(o, Step(o, c, s[0]).c, s[1..], col + 1)
            else Rejected(Step(o, c, s[0]).kind, col, Step(o, c, s[0]).out)
  {
    hide Step, AtEof;
  }

  lemma AfterVersion(o: Options, c: Config, s: bytes, col: nat)
    requires HeaderInv(o, c) && c.cs == TimeFirst
    ensures Run(o, c, s, col).out.version == c.out.version
  {
    hide Run, HeaderInv;
    RunCarries(o, c, s, col);
  }

  /** The VERSION after the digits of token and of v, digit by digit. */
  function VersionAfter(token: bytes, v: bytes): int
    decreases |v|
  {
    if v == [] then (if |token| >= 2 then Num(token[..|token| - 1]) else Num(token))
    else if |token| < 3 && IsDigit(v[0]) then VersionAfter(token + [v[0]], v[1..])
    else Num(token)
  }

  /** Inside a VERSION: the last digit is missing at the end of the input, but for the first. */
  lemma {:induction false} VersionRun(o: Options, c: Config, n: nat, v: bytes, col: nat)
    requires HeaderInv(o, c) && c.cs == Version(n) && |c.token| == n <= 3
    requires n >= 2 ==> c.out.version == Num(c.token[..n - 1])
    ensures Run(o, c, v, col).out.version == VersionAfter(c.token, v)
    decreases |v|
  {
    hide Step, HeaderInv, Num, AtEof, Run;
    RunOne(o, c, v, col);
    if v == [] {
      NarrowVersion(o, c);
      VersionEof(o, c, n, col);
    } else {
      VersionStep(o, c, n, v[0]);
      var d := Step(o, c, v[0]);
      if n < 3 && IsDigit(v[0]) {
        assert (c.token + [v[0]])[..n] == c.token;
        VersionRun(o, d.c, n + 1, v[1..], col + 1);
      } else if v[0] == SP {
        AfterVersion(o, d.c, v[1..], col + 1);
      }
    }
  }

  /** The input ends inside the VERSION. */
  lemma {:induction false} VersionEnds(o: Options, c: Config, n: nat, v: bytes, col: nat)
    requires HeaderInv(o, c) && c.cs == Version(n) && n + |v| <= 3 && AllDigits(v)
    ensures Run(o, c, v, col).Rejected? && Run(o, c, v, col).col == col + |v|
    decreases |v|
  {
    hide Step, HeaderInv, Num, AtEof, Run;
    RunOne(o, c, v, col);
    if v == [] {
      VersionEof(o, c, n, col);
    } else {
      VersionStep(o, c, n, v[0]);
      VersionEnds(o, Step(o, c, v[0]).c, n + 1, v[1..], col + 1);
    }
  }

  lemma {:induction false} VersionAfterIs(token: bytes, v: bytes)
    requires 1 <= |token| <= 3
    ensures var d := token + DigitsUpTo(v, 3 - |token|);
            VersionAfter(token, v) == if |token| + |v| == |d| >= 2 then Num(d[..|d| - 1]) else Num(d)
    decreases |v|
  {
    hide Num, DigitsUpTo;
    if v != [] && |token| < 3 && IsDigit(v[0]) {
      DigitTaken(token, v, 3 - |token|);
      VersionAfterIs(token + [v[0]], v[1..]);
    } else {
      NoDigits(v, 3 - |token|);
      assert token + [] == token;
    }
  }

  lemma NarrowVersion(o: Options, c: Config)
    requires c.cs.Version? && HeaderInv(o, c)
    ensures SetVersion(c).version == Num(c.token) && c.cs.count >= 1
  {
    ExactNarrowing(c);
  }

  lemma VersionEof(o: Options, c: Config, n: nat, col: nat)
    requires c.cs == Version(n)
    ensures AtEof(o, c, col).Rejected? && AtEof(o, c, col).col == col
    ensures AtEof(o, c, col).out.version == if n == 1 then SetVersion(c).version else c.out.version
  {
    hide Num;
  }

  lemma NoDigits(v: bytes, limit: nat)
    requires v == [] || !IsDigit(v[0]) || limit == 0
    ensures DigitsUpTo(v, limit) == []
  {
  }

  lemma MoreDigits(v: bytes, limit: nat)
    requires v != [] && IsDigit(v[0]) && limit > 0
    ensures DigitsUpTo(v, limit) == [v[0]] + DigitsUpTo(v[1..], limit - 1)
  {
    assert DigitRun(v) == 1 + DigitRun(v[1..]);
    hide DigitRun;
  }

  lemma DigitTaken(token: bytes, v: bytes, limit: nat)
    requires v != [] && IsDigit(v[0]) && limit > 0
    ensures (token + [v[0]])[..|token|] == token
    ensures token + [v[0]] + DigitsUpTo(v[1..], limit - 1) == token + DigitsUpTo(v, limit)
    ensures |DigitsUpTo(v, limit)| == |DigitsUpTo(v[1..], limit - 1)| + 1
  {
    MoreDigits(v, limit);
    hide DigitsUpTo;
  }

  lemma VersionText(v: bytes)
    requires StartsWithDigit([], v)
    ensures VersionAfter([v[0]], v[1..]) == VersionLeft(v)
    ensures |v| == |DigitsUpTo(v, 3)| ==> |v| <= 3 && AllDigits(v[1..])
  {
    VersionAfterIs([v[0]], v[1..]);
    MoreDigits(v, 3);
    hide Num, DigitsUpTo, VersionAfter;
    if |v| == |DigitsUpTo(v, 3)| { assert v == DigitsUpTo(v, 3); }
  }

  lemma BodyVersion(o: Options, c: Config, v: bytes, col: nat)
    requires HeaderInv(o, c) && c.cs == Body && StartsWithDigit([], v)
    ensures LeavesVersion(Run(o, c, v, col), v, col + |v|)
  {
    hide Step, HeaderInv, Run, DigitsUpTo, VersionAfter, VersionLeft;
    VersionText(v);
    BodyStep(o, c, v[0]);
    RunOne(o, c, v, col);
    var d := c.(cs := Version(1), token := [v[0]]);
    VersionRun(o, d, 1, v[1..], col + 1);
    if |v| == |DigitsUpTo(v, 3)| { VersionEnds(o, d, 1, v[1..], col + 1); }
  }

  lemma BodyStep(o: Options, c: Config, b: byte)
    requires HeaderInv(o, c) && c.cs == Body && 49 <= b <= 57
    ensures Step(o, c, b) == Go(c.(cs := Version(1), token := [b])) && HeaderInv(o, Step(o, c, b).c)
  {
    StepOnBody(o, c, b);
    StepKeepsHeader(o, c, b);
    hide Step, HeaderInv;
  }

  lemma PriPart(s: bytes, pri: nat)
    requires ValidPriority(pri) && PriText(Some(pri)) <= s
    ensures VersionPart(s) == s[|PriText(Some(pri))|..]
  {
    PriDigits(pri);
    hide Dec, Num, PriPath;
    var d := Dec(pri);
    var n := |d| + 1;
    assert PriText(Some(pri)) == [LT] + d + [GT];
    assert s[..n + 1] == [LT] + d + [GT];
    assert s[..n] == [LT] + d && s[n] == s[..n + 1][n] == GT && s[0] == s[..n][0];
    forall i | 0 <= i < n ensures s[..n][i] != GT {
      if i > 0 { assert s[..n][i] == d[i - 1]; }
    }
    IndexIs(s, GT, n);
  }

  lemma PriVersion(o: Options, s: bytes, pri: nat)
    requires ValidPriority(pri) && StartsWithDigit(PriText(Some(pri)), s)
    ensures StartsWithDigit([], VersionPart(s)) && LeavesVersion(Parse(o, s), VersionPart(s), |s|)
  {
    PriPart(s, pri);
    AfterPriHeader(o, s, pri);
    hide Run, PriText, VersionPart, LeavesVersion, HeaderInv;
    DigitAfter(PriText(Some(pri)), s);
    BodyVersion(o, AfterPriConfig(pri), s[|PriText(Some(pri))|..], |PriText(Some(pri))|);
  }

  lemma VersionLeaves(o: Options, s: bytes)
    requires Begins(o, s)
    ensures StartsWithDigit([], VersionPart(s)) && LeavesVersion(Parse(o, s), VersionPart(s), |s|)
  {
    hide Run, LeavesVersion, Dec;
    if exists pri: nat :: ValidPriority(pri) && StartsWithDigit(PriText(Some(pri)), s) {
      var pri: nat :| ValidPriority(pri) && StartsWithDigit(PriText(Some(pri)), s);
      PriVersion(o, s, pri);
    } else {
      InitialHeader(o, s);
      BodyVersion(o, Initial(o, s, [], []), s, 0);
    }
  }

  lemma LastDigit(d: bytes)
    requires AllDigits(d) && d != [] && d[0] != ZERO
    ensures |d| >= 2 ==> Num(d[..|d| - 1]) < Num(d)
  {
    if |d| >= 2 {
      var h := d[..|d| - 1];
      DecNum(h);
      DecNum(d);
    }
  }

  /**
   The VERSION that a parse leaves is the number of the digits read, exactly unless the
   input ends right after the second or the third of them; then it is one digit short.
   */
  lemma VersionOfParse(o: Options, s: bytes)
    requires Begins(o, s)
    ensures var d, version := VersionDigitsOf(s), Parse(o, s).out.version;
            && d != []
            && version == (if EndsInVersion(s) then Num(d[..|d| - 1]) else Num(d))
            && (version == Num(d) <==> !EndsInVersion(s))
            && (EndsInVersion(s) ==> Parse(o, s).Rejected? && Parse(o, s).col == |s|)
  {
    VersionLeaves(o, s);
    MoreDigits(VersionPart(s), 3);
    LastDigit(VersionDigitsOf(s));
    hide Parse, Begins, DigitsUpTo, VersionPart, Num;
  }

  /** `<1>12` is rejected at its end with VERSION 1. */
  lemma VersionOneShort(o: Options)
    ensures var s := [LT, 49, GT, 49, 50];
            && Begins(o, s) && Parse(o, s).Rejected? && Parse(o, s).col == 5
            && Num(VersionDigitsOf(s)) == 12 && Parse(o, s).out.version == 1
  {
    var s: bytes := [LT, 49, GT, 49, 50];
    DecDigits(1);
    assert PriText(Some(1)) == [LT, 49, GT] && s[..3] == [LT, 49, GT];
    assert StartsWithDigit(PriText(Some(1)), s);
    assert ValidPriority(1);
    PriPart(s, 1);
    assert VersionPart(s) == [49, 50];
    DigitRunIs([49, 50], 2);
    assert VersionDigitsOf(s) == [49, 50];
    assert [49, 50][..1] == [49];
    NumSmall([49]);
    NumSmall([49, 50]);
    VersionOfParse(o, s);
  }

  // ------------------------------------------------------------------
  // The fields of the message of a rejected input

  /** What m has of the header is the header of n; its VERSION may be one of fewer digits. */
  predicate SameHeader(m: Message, n: Message, sameVersion: bool) {
    && (sameVersion ==> m.version == n.version)
    && m.priority == n.priority && m.facility == n.facility && m.severity == n.severity
    && (m.timestamp.None? || m.timestamp == n.timestamp)
    && (m.hostname.None? || m.hostname == n.hostname) && (m.appname.None? || m.appname == n.appname)
    && (m.procID.None? || m.procID == n.procID) && (m.msgID.None? || m.msgID == n.msgID)
  }

  lemma CarriedHeader(d: Draft, e: Draft)
    requires Carried(d.(version := e.version), e)
    ensures SameHeader(d.Export(), e.Export(), d.version == e.version)
  {
  }

  /** The octet at col comes after the space that ends the VERSION. */
  predicate PastSpace(s: bytes, col: nat) {
    col > |s| - |VersionPart(s)| + |VersionDigitsOf(s)|
  }

  lemma SameDigits(v: bytes, w: bytes)
    requires var n := |DigitsUpTo(v, 3)|; |v| > n && |w| > n && v[..n + 1] == w[..n + 1]
    ensures DigitsUpTo(w, 3) == DigitsUpTo(v, 3)
  {
    var n := |DigitsUpTo(v, 3)|;
    assert v[..n] == v[..n + 1][..n] && w[..n] == w[..n + 1][..n];
    assert v[n] == v[..n + 1][n] && w[n] == w[..n + 1][n];
    if n < 3 { DigitRunIs(w, n); } else { DigitRunAtLeast(w, n); }
  }

  /** Behind the same head the same digits are read. */
  lemma SharedDigits(head: bytes, s: bytes, t: bytes, k: nat)
    requires StartsWithDigit(head, s) && VersionPart(s) == s[|head|..]
    requires k <= |s| && s[..k] <= t && PastSpace(s, k)
    requires StartsWithDigit(head, t) ==> VersionPart(t) == t[|head|..]
    ensures StartsWithDigit(head, t) && VersionDigitsOf(t) == VersionDigitsOf(s)
    ensures !EndsInVersion(s) && !EndsInVersion(t)
  {
    var v, w, n := s[|head|..], t[|head|..], |VersionDigitsOf(s)|;
    hide VersionPart, DigitsUpTo;
    assert k > |head| + n;
    assert t[..k] == s[..k];
    assert t[..|head|] == t[..k][..|head|] && s[..|head|] == s[..k][..|head|];
    assert t[|head|] == t[..k][|head|] && s[|head|] == s[..k][|head|];
    assert v[..n + 1] == s[..k][|head|..|head| + n + 1] && w[..n + 1] == t[..k][|head|..|head| + n + 1];
    SameDigits(v, w);
  }

  lemma SameVersion(o: Options, s: bytes, t: bytes)
    requires Parse(o, s).Rejected? && Begins(o, s)
    requires Parse(o, s).col <= |s| && s[..Parse(o, s).col] <= t && PastSpace(s, Parse(o, s).col)
    ensures Parse(o, s).out.version == Parse(o, t).out.version
  {
    hide Run, Dec, PastSpace, EndsInVersion, VersionDigitsOf;
    var k := Parse(o, s).col;
    if exists pri: nat :: ValidPriority(pri) && StartsWithDigit(PriText(Some(pri)), s) {
      var pri: nat :| ValidPriority(pri) && StartsWithDigit(PriText(Some(pri)), s);
      PriPart(s, pri);
      if PriText(Some(pri)) <= t { PriPart(t, pri); }
      SharedDigits(PriText(Some(pri)), s, t, k);
    } else {
      assert s[0..] == s && t[0..] == t;
      SharedDigits([], s, t, k);
    }
    VersionOfParse(o, s);
    VersionOfParse(o, t);
  }

  /** The draft of a stop against that of an accepted run from the same configuration. */
  lemma StopCarried(o: Options, c: Config, out: Draft, t: bytes, col: nat)
    requires HeaderInv(o, c) && Leaves(o, c, out) && PastVersion(c.cs)
    requires Run(o, c, t, col).Accepted?
    ensures var e := Run(o, c, t, col).out; Carried(out.(version := e.version), e)
  {
    hide Run, HeaderInv, Step, ParseTime;
    RunCarries(o, c, t, col);
    if out.timestamp != c.out.timestamp {
      NotOver(o, c, t, col);
      StepOnTime(o, c, 578, t[0]);
      StepKeepsHeader(o, c, t[0]);
      RunCarries(o, Step(o, c, t[0]).c, t[1..], col + 1);
    }
  }

  lemma FieldsCarried(o: Options, s: bytes, t: bytes)
    requires Parse(o, s).Rejected? && Begins(o, s)
    requires Parse(o, s).col <= |s| && s[..Parse(o, s).col] <= t && Parse(o, t).Accepted?
    ensures var e := Parse(o, t).out; Carried(Parse(o, s).out.(version := e.version), e)
  {
    hide Run, Step, HeaderInv, Leaves, AtEof, Begins;
    MinimalOnRejection(o, s);
    var e, c0 := Parse(o, s), Initial(o, s, [], []);
    var k := e.col;
    Rejection(o, c0, s, 0);
    var c := Walk(o, c0, s[..k]).c;
    InitialHeader(o, s);
    WalkKeepsHeader(o, c0, s[..k]);
    if k < |s| { StepKeepsHeader(o, c, s[k]); } else { EofKeepsHeader(o, c, k); }
    LeavesPast(o, c, e.out);
    if k > 0 {
      assert s[0] == s[..k][0] == t[0];
      SameStart(o, s, t);
      assert t == s[..k] + t[k..];
      RunWalk(o, c0, s[..k], t[k..], 0);
      StopCarried(o, c, e.out, t[k..], k);
    }
  }

  /**
   The message of a rejected input has the PRI of every accepted input that shares the
   octets before the error, their VERSION if the error is past its space, and each of its
   TIMESTAMP and header fields, when set, is theirs.
   */
  lemma BestEffortFields(o: Options, s: bytes, t: bytes)
    requires Parse(o, s).Rejected? && Begins(o, s)
    requires Parse(o, s).col <= |s| && s[..Parse(o, s).col] <= t && Parse(o, t).Accepted?
    ensures SameHeader(Parse(o, s).out.Export(), Parse(o, t).out.Export(), PastSpace(s, Parse(o, s).col))
  {
    hide Parse, PastSpace, Begins;
    FieldsCarried(o, s, t);
    CarriedHeader(Parse(o, s).out, Parse(o, t).out);
    if PastSpace(s, Parse(o, s).col) { SameVersion(o, s, t); }
    SameExportVersion(Parse(o, s).out);
    SameExportVersion(Parse(o, t).out);
    hide Carried;
  }

  lemma SameExportVersion(d: Draft)
    ensures d.Export().version == d.version
  {
  }

  lemma LeavesPast(o: Options, c: Config, out: Draft)
    requires Leaves(o, c, out) && out.Minimal(o.optionalPriority)
    ensures PastVersion(c.cs)
  {
  }

  /** What was read before the error is kept: no header field that was set is lost. */
  lemma NothingLost(o: Options, s: bytes, k: nat)
    requires k <= |s| && Walk(o, Initial(o, s, [], []), s[..k]).Go?
    requires PastVersion(Walk(o, Initial(o, s, [], []), s[..k]).c.cs)
    ensures var c := Walk(o, Initial(o, s, [], []), s[..k]).c;
            SameHeader(c.out.Export(), Parse(o, s).out.Export(), Stage(c.cs) >= 2)
  {
    hide Run, Step, HeaderInv;
    var c0 := Initial(o, s, [], []);
    var c := Walk(o, c0, s[..k]).c;
    InitialHeader(o, s);
    WalkKeepsHeader(o, c0, s[..k]);
    assert s == s[..k] + s[k..];
    RunWalk(o, c0, s[..k], s[k..], 0);
    RunCarries(o, c, s[k..], k);
    CarriedHeader(c.out, Parse(o, s).out);
  }
}
