/**
 Which error a rejected input gets, told by its text alone: how far the grammar
 reads it, and what is missing there.
 */
module Diagnosis {
  import opened Bytes
  import opened Utf8
  import opened Functions
  import opened Escaping
  import opened Timestamps
  import opened Messages
  import opened Automaton
  import opened Grammar
  import opened Completeness
  import opened Soundness
  import opened Invariants
  import opened Stability

  // ------------------------------------------------------------------
  // What a text may start with

  ghost predicate StartsPri(s: bytes) {
    exists pri: nat :: pri <= 191 && [LT] + Dec(pri) + [GT] <= s
  }

  ghost predicate StartsVersion(s: bytes) {
    exists version: nat :: 1 <= version <= 999 && Dec(version) + [SP] <= s
  }

  /** At most limit visible octets, and a space. */
  ghost predicate StartsField(s: bytes, limit: nat) {
    exists v: bytes :: 1 <= |v| <= limit && Visible(v) && v + [SP] <= s
  }

  /** 1 to 32 visible octets without `=`, `]` and `"`. */
  predicate IsSdName(v: bytes) {
    1 <= |v| <= 32 && Visible(v) && 61 !in v && 93 !in v && 34 !in v
  }

  predicate NameOctet(b: byte) {
    33 <= b <= 126 && b != 61 && b != 93 && b != 34
  }

  ghost predicate HasId(es: seq<Element>, id: bytes) {
    exists i :: 0 <= i < |es| && es[i].id == id
  }

  /** An identifier that es does not have, before a space or a closing bracket. */
  ghost predicate StartsNewId(s: bytes, es: seq<Element>) {
    exists id: bytes ::
      IsSdName(id) && !HasId(es, id) && id <= s && (First(s[|id|..], SP) || First(s[|id|..], CLOSE))
  }

  /** An identifier of es, as far as the name octets go: at most 32 of them are looked at. */
  ghost predicate StartsOldId(s: bytes, es: seq<Element>) {
    exists id: bytes ::
      IsSdName(id) && HasId(es, id) && id <= s && (|id| == 32 || |s| == |id| || !NameOctet(s[|id|]))
  }

  ghost predicate StartsParamName(s: bytes) {
    exists name: bytes :: IsSdName(name) && name + [EQ, DQ] <= s
  }

  ghost predicate StartsValue(s: bytes) {
    exists w: bytes :: ValidRaw(w) && w + [DQ] <= s
  }

  /** The octet after the last whole unit of the value starts a character that is not completed. */
  ghost predicate BreaksCharacter(s: bytes) {
    exists w: bytes :: BreaksAt(s, w)
  }

  predicate BreaksAt(s: bytes, w: bytes) {
    ValidRaw(w) && w < s && 0xC2 <= s[|w|] <= 0xF4 && CharLen(s[|w|..]) == 0
  }

  predicate Reports(e: End, k: ErrorKind) {
    e.Rejected? && e.kind == k
  }

  // ------------------------------------------------------------------
  // How far the text was read

  predicate PriRead(o: Options, s: bytes, t: Syntax) {
    if t.pri.Some? then t.pri.value <= 191 else o.optionalPriority && !First(s, LT)
  }

  predicate VersionRead(o: Options, s: bytes, t: Syntax) {
    PriRead(o, s, t) && 1 <= t.version <= 999
  }

  predicate TimeRead(o: Options, s: bytes, t: Syntax) {
    VersionRead(o, s, t) && ValidTime(t.time)
  }

  /** The fields before f. */
  predicate FieldsRead(o: Options, s: bytes, t: Syntax, f: Field) {
    && TimeRead(o, s, t)
    && (f != Hostname ==> IsField(Hostname, t.hostname))
    && (f == ProcID || f == MsgID ==> IsField(Appname, t.appname))
    && (f == MsgID ==> IsField(ProcID, t.procID))
  }

  predicate HeaderRead(o: Options, s: bytes, t: Syntax) {
    FieldsRead(o, s, t, MsgID) && IsField(MsgID, t.msgID)
  }

  ghost predicate ElementsRead(o: Options, s: bytes, t: Syntax) {
    HeaderRead(o, s, t) && ValidElements(t.elements)
  }

  ghost predicate ParamsRead(o: Options, s: bytes, t: Syntax, id: bytes, ps: seq<Param>) {
    ElementsRead(o, s, t) && IsName(id) && !HasId(t.elements, id) && ValidParams(ps)
  }

  function UpToVersion(t: Syntax): bytes {
    PriText(t.pri) + (Dec(t.version) + [SP])
  }

  function UpToField(t: Syntax, f: Field): bytes
    requires ValidTime(t.time)
    decreases match f case Hostname => 0 case Appname => 1 case ProcID => 2 case MsgID => 3
  {
    match f
    case Hostname => UpToVersion(t) + (TimestampText(t.time) + [SP])
    case Appname => UpToField(t, Hostname) + (t.hostname + [SP])
    case ProcID => UpToField(t, Appname) + (t.appname + [SP])
    case MsgID => UpToField(t, ProcID) + (t.procID + [SP])
  }

  function UpToHeader(t: Syntax): bytes
    requires ValidTime(t.time)
  {
    UpToField(t, MsgID) + (t.msgID + [SP])
  }

  function UpToElements(t: Syntax): bytes
    requires ValidTime(t.time)
  {
    UpToHeader(t) + ElementsText(t.elements)
  }

  function UpToParams(t: Syntax, id: bytes, ps: seq<Param>): bytes
    requires ValidTime(t.time)
  {
    UpToElements(t) + ([OPEN] + id + ParamsText(ps))
  }

  datatype Place =
    | AtPri
    | AtVersion
    | AtTime
    | AfterDash
    | AfterStamp(st: Stamp)
    | AtField(f: Field)
    | AtSd
    | AfterNilSd
    | AtId
    | AtName(id: bytes, params: seq<Param>)
    | AtValue(id: bytes, params: seq<Param>, name: bytes)
    | AfterParam(id: bytes, params: seq<Param>)
    | AfterElement
    | AtMsg

  /**
   s is the text of t up to the place and the rest, and at the place the rest does
   not go on as the grammar asks; k is the error for that.
   */
  ghost predicate Fails(o: Options, s: bytes, t: Syntax, p: Place, rest: bytes, k: ErrorKind) {
    match p
    case AtPri =>
      && s == rest && !StartsPri(rest)
      && (o.optionalPriority ==> First(rest, LT))
      && k == (if First(rest, LT) then ErrPrival else ErrPri)
    case AtVersion =>
      && PriRead(o, s, t) && s == PriText(t.pri) + rest && !StartsVersion(rest)
      && k == (if rest != [] && 49 <= rest[0] <= 57 && (|rest| == 1 || !IsDigit(rest[1])) then ErrParse else ErrVersion)
    case AtTime =>
      && VersionRead(o, s, t) && s == UpToVersion(t) + rest
      && !First(rest, DASH) && (forall st: Stamp :: st.WellFormed() ==> !(StampText(st) <= rest))
      && k == ErrTimestamp
    case AfterDash =>
      && VersionRead(o, s, t) && s == UpToVersion(t) + [DASH] + rest && !First(rest, SP)
      && k == ErrParse
    case AfterStamp(st) =>
      && VersionRead(o, s, t) && st.WellFormed() && s == UpToVersion(t) + StampText(st) + rest
      && (if st.day > DaysIn(st.year, st.month) then k == ErrTime else !First(rest, SP) && k == ErrParse)
    case AtField(f) =>
      && FieldsRead(o, s, t, f) && s == UpToField(t, f) + rest
      && (match f
          case Hostname => !StartsField(rest, 255) && k == ErrHostname
          case Appname => !StartsField(rest, 48) && k == ErrAppname
          case ProcID => !StartsField(rest, 128) && k == ErrProcID
          case MsgID => !StartsField(rest, 32) && k == ErrMsgID)
    case AtSd =>
      && HeaderRead(o, s, t) && s == UpToHeader(t) + rest && !First(rest, DASH) && !First(rest, OPEN)
      && k == ErrStructuredData
    case AfterNilSd =>
      && HeaderRead(o, s, t) && s == UpToHeader(t) + [DASH] + rest && rest != [] && rest[0] != SP
      && k == ErrParse
    case AtId =>
      && ElementsRead(o, s, t) && s == UpToElements(t) + [OPEN] + rest && !StartsNewId(rest, t.elements)
      && k == (if StartsOldId(rest, t.elements) then ErrSdIDDuplicated else ErrSdID)
    case AtName(id, ps) =>
      && ParamsRead(o, s, t, id, ps) && s == UpToParams(t, id, ps) + [SP] + rest && !StartsParamName(rest)
      && k == ErrSdParam
    case AtValue(id, ps, name) =>
      && ParamsRead(o, s, t, id, ps) && IsName(name) && s == UpToParams(t, id, ps) + ([SP] + name + [EQ, DQ]) + rest
      && !StartsValue(rest)
      && k == (if BreaksCharacter(rest) then ErrSdParam else ErrEscape)
    case AfterParam(id, ps) =>
      && ParamsRead(o, s, t, id, ps) && ps != [] && s == UpToParams(t, id, ps) + rest
      && !First(rest, SP) && !First(rest, CLOSE)
      && k == ErrSdParam
    case AfterElement =>
      && ElementsRead(o, s, t) && t.elements != [] && s == UpToElements(t) + rest
      && rest != [] && rest[0] != SP && rest[0] != OPEN
      && k == ErrStructuredData
    case AtMsg =>
      && ElementsRead(o, s, t) && s == UpToHeader(t) + SdText(t.elements) + [SP] + rest
      && o.compliantMsg && !IsCompliant(rest)
      && k == ErrMsgNotCompliant
  }

  // ------------------------------------------------------------------
  // From a place: the part is there, or the run ends with the error

  lemma {:induction false} PriRestOrError(o: Options, c: Config, s: bytes, col: nat) returns (v: bytes)
    requires IsPri(c.cs)
    ensures Reports(Run(o, c, s, col), ErrPrival) || (v + [GT] <= s && PriPath(c.cs, v) && AllDigits(v))
    decreases |s|
  {
    hide Run, Step, Num;
    v := [];
    RunOne(o, c, s, col);
    if s != [] {
      StepOnPri(o, c, s[0]);
      if StepPri(c, s[0]).Go? && s[0] != GT {
        v := PriRestOrError(o, StepPri(c, s[0]).c, s[1..], col + 1);
        v := [s[0]] + v;
      }
    }
  }

  lemma PriOrError(o: Options, c: Config, s: bytes, col: nat)
    requires c.cs == Start
    ensures Reports(Run(o, c, s, col), if First(s, LT) then ErrPrival else ErrPri) || StartsPri(s)
  {
    hide Run, Step, Dec, Num, PriPath;
    RunOne(o, c, s, col);
    if s != [] {
      StepOnStart(o, c, s[0]);
      if s[0] == LT {
        PrivalOrError(o, c.(cs := PriFirst), s[1..], col + 1);
        if pri: nat :| pri <= 191 && Dec(pri) + [GT] <= s[1..] {
          assert [LT] + Dec(pri) + [GT] <= s;
        }
      }
    }
  }

  lemma PrivalOrError(o: Options, c: Config, s: bytes, col: nat)
    requires c.cs == PriFirst
    ensures Reports(Run(o, c, s, col), ErrPrival) || exists pri: nat :: pri <= 191 && Dec(pri) + [GT] <= s
  {
    hide Run, Step, Dec, Num, PriPath;
    RunOne(o, c, s, col);
    if s != [] {
      StepOnPriFirst(o, c, s[0]);
      if IsDigit(s[0]) {
        var v := PriRestOrError(o, Step(o, c, s[0]).c, s[1..], col + 1);
        if v + [GT] <= s[1..] && PriPath(PriEntry(s[0]), v) && AllDigits(v) {
          PriNumeral(s[0], v);
          assert Dec(Num([s[0]] + v)) + [GT] <= s;
        }
      }
    }
  }

  lemma {:induction false} VersionRestOrError(o: Options, c: Config, n: nat, s: bytes, col: nat) returns (v: bytes)
    requires c.cs == Version(n) && 1 <= n <= 3
    ensures Reports(Run(o, c, s, col), if n == 1 && (s == [] || !IsDigit(s[0])) then ErrParse else ErrVersion)
         || (v + [SP] <= s && AllDigits(v) && n + |v| <= 3)
    decreases |s|
  {
    hide Run, Step, Num;
    v := [];
    RunOne(o, c, s, col);
    if s != [] {
      StepOnVersion(o, c, n, s[0]);
      if StepVersion(c, n, s[0]).Go? && s[0] != SP {
        v := VersionRestOrError(o, StepVersion(c, n, s[0]).c, n + 1, s[1..], col + 1);
        v := [s[0]] + v;
      }
    }
  }

  lemma VersionOrError(o: Options, c: Config, s: bytes, col: nat)
    requires c.cs == Body
    ensures StartsVersion(s)
         || Reports(Run(o, c, s, col),
                    if s != [] && 49 <= s[0] <= 57 && (|s| == 1 || !IsDigit(s[1])) then ErrParse else ErrVersion)
  {
    hide Run, Step, Dec, Num;
    RunOne(o, c, s, col);
    if s != [] {
      StepOnBody(o, c, s[0]);
      if 49 <= s[0] <= 57 {
        var v := VersionRestOrError(o, Step(o, c, s[0]).c, 1, s[1..], col + 1);
        if v + [SP] <= s[1..] && AllDigits(v) && 1 + |v| <= 3 {
          var d := [s[0]] + v;
          DecNum(d);
          NumSmall(d);
          assert Dec(Num(d)) + [SP] <= s;
        }
      }
    }
  }

  lemma {:induction false} StampOrError(o: Options, c: Config, n: int, s: bytes, col: nat) returns (v: bytes)
    requires c.cs == Time(n)
    ensures Reports(Run(o, c, s, col), ErrTimestamp) || (v <= s && ParserRun(n, v) == 578)
    decreases |s|
  {
    hide Run, Step, ParserNext, ParseTime;
    v := [];
    if n != 578 {
      RunOne(o, c, s, col);
      if s != [] {
        StepOnTime(o, c, n, s[0]);
        var m := ParserNext(n, s[0]);
        if m != 0 {
          v := StampOrError(o, c.(cs := Time(m), token := c.token + [s[0]]), m, s[1..], col + 1);
          assert ([s[0]] + v)[1..] == v;
          v := [s[0]] + v;
        }
      }
    }
  }

  lemma TimeOrError(o: Options, c: Config, s: bytes, col: nat)
    requires c.cs == TimeFirst && !First(s, DASH)
    ensures Reports(Run(o, c, s, col), ErrTimestamp) || exists st: Stamp :: st.WellFormed() && StampText(st) <= s
  {
    hide Run, Step, ParserNext, StampText;
    RunOne(o, c, s, col);
    if s != [] {
      StepOnTimeFirst(o, c, s[0]);
      if IsDigit(s[0]) {
        var v := StampOrError(o, Step(o, c, s[0]).c, 554, s[1..], col + 1);
        var text := [s[0]] + v;
        assert text[1..] == v;
        if v <= s[1..] && ParserRun(554, v) == 578 {
          FirstDigit(text);
          var st := StampBack(text);
          assert text <= s;
        }
      }
    }
  }

  /** After the digits, dashes and colons of a timestamp. */
  lemma AfterStampError(o: Options, c: Config, st: Stamp, s: bytes, col: nat)
    requires c.cs == TimeFirst && st.WellFormed()
    ensures st.day > DaysIn(st.year, st.month) ==> Reports(Run(o, c, StampText(st) + s, col), ErrTime)
    ensures st.day <= DaysIn(st.year, st.month) && !First(s, SP) ==>
              Reports(Run(o, c, StampText(st) + s, col), ErrParse)
  {
    hide Run, Step, ParserNext, ParseTime, StampText;
    var v := StampText(st);
    StampForward(st);
    ParseStamp(st);
    StampFirst(v);
    assert v + s == [v[0]] + (v[1..] + s);
    RunHead(o, c, v[0], v[1..] + s, col);
    StepOnTimeFirst(o, c, v[0]);
    var c1 := c.(cs := Time(554), token := [v[0]]);
    ReadTimeRest(o, c1, 554, v[1..], s, col + 1);
    assert [v[0]] + v[1..] == v;
    var c2 := c1.(cs := Time(578), token := v);
    RunOne(o, c2, s, col + |v|);
    if s != [] { StepOnTime(o, c2, 578, s[0]); }
  }

  lemma {:induction false} FieldRestOrError(o: Options, c: Config, f: Field, n: nat, s: bytes, col: nat)
    returns (v: bytes)
    requires c.cs == FieldRest(f, n) && n <= MaxLength(f)
    ensures Reports(Run(o, c, s, col), FieldError(f)) || (v + [SP] <= s && Visible(v) && n + |v| <= MaxLength(f))
    decreases |s|
  {
    hide Run, Step, MaxLength, FieldError;
    v := [];
    RunOne(o, c, s, col);
    if s != [] {
      StepOnField(o, c, f, n, s[0]);
      if StepFieldRest(c, f, n, s[0]).Go? && s[0] != SP {
        v := FieldRestOrError(o, StepFieldRest(c, f, n, s[0]).c, f, n + 1, s[1..], col + 1);
        v := [s[0]] + v;
      }
    }
  }

  lemma FieldStarts(b: byte, v: bytes, s: bytes, limit: nat)
    requires IsGraph(b) && Visible(v) && 1 + |v| <= limit
    requires s != [] && s[0] == b && v + [SP] <= s[1..]
    ensures StartsField(s, limit)
  {
    var w := [b] + v;
    assert w + [SP] == [b] + (v + [SP]);
    assert w + [SP] <= s;
  }

  lemma FieldOrError(o: Options, c: Config, f: Field, s: bytes, col: nat)
    requires c.cs == FieldFirst(f)
    ensures Reports(Run(o, c, s, col), FieldError(f)) || StartsField(s, MaxLength(f))
  {
    hide Run, Step, MaxLength, FieldError, StartsField, Visible, AtEof;
    if s == [] {
      EofOfField(o, c, f, s, col);
    } else {
      RunOne(o, c, s, col);
      StepOnFieldFirst(o, c, f, s[0]);
      if IsGraph(s[0]) {
        var v := FieldRestOrError(o, Step(o, c, s[0]).c, f, 1, s[1..], col + 1);
        if v + [SP] <= s[1..] && Visible(v) && 1 + |v| <= MaxLength(f) { FieldStarts(s[0], v, s, MaxLength(f)); }
      }
    }
  }

  lemma EofOfField(o: Options, c: Config, f: Field, s: bytes, col: nat)
    requires s == [] && c.cs == FieldFirst(f)
    ensures Reports(Run(o, c, s, col), FieldError(f))
  {
    hide FieldError;
  }

  // ------------------------------------------------------------------
  // STRUCTURED-DATA

  /** The name octets s starts with; no more than limit of them are looked at. */
  predicate IsNameRun(v: bytes, s: bytes, limit: nat) {
    v <= s && AllNameChars(v) && |v| <= limit && (|v| == limit || |v| == |s| || !IsNameChar(s[|v|]))
  }

  lemma {:induction false} IdRestOrError(o: Options, c: Config, n: nat, s: bytes, col: nat) returns (v: bytes)
    requires c.cs == IdRest(n) && n <= 32
    ensures IsNameRun(v, s, 32 - n)
    ensures c.token + v in c.out.structuredData ==> Reports(Run(o, c, s, col), ErrSdIDDuplicated)
    ensures c.token + v !in c.out.structuredData && !First(s[|v|..], SP) && !First(s[|v|..], CLOSE) ==>
              Reports(Run(o, c, s, col), ErrSdID)
    decreases |s|
  {
    hide Run, Step, NewElement, DropElement;
    v := [];
    assert c.token + v == c.token;
    RunOne(o, c, s, col);
    if s != [] {
      StepOnId(o, c, n, s[0]);
      if n < 32 && IsNameChar(s[0]) {
        var w := IdRestOrError(o, StepIdRest(c, n, s[0]).c, n + 1, s[1..], col + 1);
        v := [s[0]] + w;
        assert c.token + [s[0]] + w == c.token + v;
        assert s[|v|..] == s[1..][|w|..];
      }
    }
  }

  lemma NameRunUnique(v: bytes, w: bytes, s: bytes, limit: nat)
    requires IsNameRun(v, s, limit) && IsNameRun(w, s, limit)
    ensures v == w
  {
    assert v == s[..|v|] && w == s[..|w|];
  }

  ghost predicate HasIds(sd: StructuredData, es: seq<Element>) {
    forall id: bytes :: id in sd <==> HasId(es, id)
  }

  lemma IdOrError(o: Options, c: Config, es: seq<Element>, s: bytes, col: nat)
    requires c.cs == IdFirst && HasIds(c.out.structuredData, es)
    ensures Reports(Run(o, c, s, col), if StartsOldId(s, es) then ErrSdIDDuplicated else ErrSdID) || StartsNewId(s, es)
  {
    hide Run, Step, NewElement, DropElement, HasId;
    RunOne(o, c, s, col);
    if s != [] {
      StepOnIdFirst(o, c, s[0]);
      if IsNameChar(s[0]) {
        var w := IdRestOrError(o, Step(o, c, s[0]).c, 1, s[1..], col + 1);
        var v := [s[0]] + w;
        IdRun(s, es, v);
      }
    }
  }

  lemma IdRun(s: bytes, es: seq<Element>, v: bytes)
    requires v != [] && IsNameRun(v, s, 32)
    ensures IsSdName(v)
    ensures StartsOldId(s, es) <==> HasId(es, v)
    ensures !HasId(es, v) && (First(s[|v|..], SP) || First(s[|v|..], CLOSE)) ==> StartsNewId(s, es)
  {
    hide HasId;
    if id: bytes :| IsSdName(id) && HasId(es, id) && id <= s && (|id| == 32 || |s| == |id| || !NameOctet(s[|id|])) {
      NameRunUnique(v, id, s, 32);
    }
  }

  lemma {:induction false} NameRestOrError(o: Options, c: Config, n: nat, s: bytes, col: nat) returns (v: bytes)
    requires c.cs == NameRest(n) && n <= 32
    ensures Reports(Run(o, c, s, col), ErrSdParam) || (v + [EQ, DQ] <= s && AllNameChars(v) && n + |v| <= 32)
    decreases |s|
  {
    hide Run, Step;
    v := [];
    RunOne(o, c, s, col);
    if s != [] {
      StepOnName(o, c, n, s[0]);
      if s[0] == EQ {
        var d := StepNameRest(c, n, s[0]).c;
        RunOne(o, d, s[1..], col + 1);
        if |s| > 1 { StepOnNameEnd(o, d, s[1]); }
      } else if StepNameRest(c, n, s[0]).Go? {
        v := NameRestOrError(o, StepNameRest(c, n, s[0]).c, n + 1, s[1..], col + 1);
        v := [s[0]] + v;
      }
    }
  }

  lemma NameOrError(o: Options, c: Config, s: bytes, col: nat)
    requires c.cs == NameFirst
    ensures Reports(Run(o, c, s, col), ErrSdParam) || StartsParamName(s)
  {
    hide Run, Step;
    RunOne(o, c, s, col);
    if s != [] {
      StepOnNameFirst(o, c, s[0]);
      if IsNameChar(s[0]) {
        var v := NameRestOrError(o, Step(o, c, s[0]).c, 1, s[1..], col + 1);
        if v + [EQ, DQ] <= s[1..] && AllNameChars(v) && 1 + |v| <= 32 {
          var name := [s[0]] + v;
          assert name + [EQ, DQ] <= s;
          assert IsSdName(name);
        }
      }
    }
  }

  lemma {:induction false} TailOrError(o: Options, c: Config, u: Utf8State, s: bytes, col: nat) returns (t: bytes)
    requires u != Bad && c.cs == (if u == Ready then Value else ValueTail(u))
    ensures Reports(Run(o, c, s, col), ErrSdParam) || (CharTail(u, t) && t <= s)
    decreases |s|
  {
    hide Run, Step;
    t := [];
    if u != Ready {
      RunOne(o, c, s, col);
      if s != [] {
        StepOnValueTail(o, c, u, s[0]);
        var v := TailOctet(u, s[0]);
        if v != Bad {
          t := TailOrError(o, StepValueTail(c, u, s[0]).c, v, s[1..], col + 1);
          assert ([s[0]] + t)[1..] == t;
          t := [s[0]] + t;
        }
      }
    }
  }

  /** A value that goes on with a whole unit breaks a character where what follows the unit does. */
  lemma BreaksLater(s: bytes)
    requires UnitLen(s) > 0
    ensures BreaksCharacter(s) <==> BreaksCharacter(s[UnitLen(s)..])
  {
    hide UnitLen, ValidRaw, CharLen;
    var n := UnitLen(s);
    var u, rest := s[..n], s[n..];
    UnitAlone(s);
    if w: bytes :| BreaksAt(rest, w) {
      PrependUnit(u, w);
      assert s[|u + w|..] == rest[|w|..];
      assert u + w < s;
      assert BreaksAt(s, u + w);
    }
    if w: bytes :| BreaksAt(s, w) {
      UnitOfPrefix(w, s);
      assert rest[|w[n..]|..] == s[|w|..];
      assert BreaksAt(rest, w[n..]);
    }
  }

  lemma StartsLater(s: bytes)
    requires UnitLen(s) > 0 && StartsValue(s[UnitLen(s)..])
    ensures StartsValue(s)
  {
    hide UnitLen, ValidRaw, CharLen;
    var u, rest := s[..UnitLen(s)], s[UnitLen(s)..];
    UnitAlone(s);
    var w: bytes :| ValidRaw(w) && w + [DQ] <= rest;
    PrependUnit(u, w);
    assert u + w + [DQ] <= s;
  }

  lemma UnitOfPrefix(w: bytes, s: bytes)
    requires ValidRaw(w) && w <= s && UnitLen(s) > 0
    ensures w == [] ==> !(0xC2 <= s[0] <= 0xF4 && CharLen(s) == 0)
    ensures w != [] ==> UnitLen(s) == UnitLen(w) > 0 && ValidRaw(w[UnitLen(w)..])
  {
    if w != [] {
      assert s == w + s[|w|..];
      if w[0] != SLASH { CharLenLocal(w, s[|w|..]); }
    }
  }

  /** Where no unit starts. */
  lemma UnitOrError(o: Options, c: Config, s: bytes, col: nat)
    requires c.cs == Value && UnitLen(s) == 0 && !First(s, DQ)
    ensures Reports(Run(o, c, s, col), if BreaksCharacter(s) then ErrSdParam else ErrEscape)
  {
    hide Run, Step, ValidRaw, CharLen;
    BreaksNow(s);
    RunOne(o, c, s, col);
    if s != [] {
      StepOnValue(o, c, s[0]);
      if s[0] == SLASH {
        var d := StepValue(c, s[0]).c;
        RunOne(o, d, s[1..], col + 1);
        if |s| > 1 { StepOnValueEscape(o, d, s[1]); }
      } else if s[0] != CLOSE && LeadOctet(s[0]) != Bad {
        assert s[0] >= 128 by { NotAscii(s); }
        var t := TailOrError(o, StepValue(c, s[0]).c, LeadOctet(s[0]), s[1..], col + 1);
        if CharTail(LeadOctet(s[0]), t) && t <= s[1..] {
          CharTailIsChar(s[0], t);
          WholeChar([s[0]] + t, s);
        }
      }
    }
  }

  lemma WholeChar(ch: bytes, s: bytes)
    requires CharLen(ch) > 0 && ch <= s
    ensures CharLen(s) > 0
  {
    assert s == ch + s[|ch|..];
    CharLenLocal(ch, s[|ch|..]);
  }

  lemma NotAscii(s: bytes)
    requires s != [] && CharLen(s) == 0
    ensures s[0] >= 128
  {
  }

  lemma BreaksNow(s: bytes)
    requires UnitLen(s) == 0
    ensures BreaksCharacter(s) <==> s != [] && 0xC2 <= s[0] <= 0xF4
  {
    if s != [] && 0xC2 <= s[0] <= 0xF4 {
      assert s[0..] == s;
      assert BreaksAt(s, []);
    }
    if w: bytes :| BreaksAt(s, w) {
      if w != [] {
        assert s == w + s[|w|..];
        if w[0] != SLASH { CharLenLocal(w, s[|w|..]); }
      }
    }
  }

  lemma {:induction false} ValueOrError(o: Options, c: Config, s: bytes, col: nat)
    requires c.cs == Value
    ensures Reports(Run(o, c, s, col), if BreaksCharacter(s) then ErrSdParam else ErrEscape) || StartsValue(s)
    decreases |s|
  {
    hide Run, UnitLen, BreaksCharacter;
    var n := UnitLen(s);
    if n == 0 {
      if First(s, DQ) {
        assert ValidRaw([]) && [] + [DQ] <= s;
      } else {
        UnitOrError(o, c, s, col);
      }
    } else {
      hide ValidRaw;
      var u, rest := s[..n], s[n..];
      UnitAlone(s);
      assert s == u + rest;
      ReadUnit(o, c, u, rest, col);
      var c1 := c.(token := c.token + u, backslashes := c.backslashes + if u[0] == SLASH then [|c.token|] else []);
      ValueOrError(o, c1, rest, col + n);
      BreaksLater(s);
      if StartsValue(rest) { StartsLater(s); }
    }
  }

  // ------------------------------------------------------------------
  // MSG

  lemma {:induction false} MessageError(o: Options, c: Config, s: bytes, col: nat)
    requires InMessage(c.cs) && Run(o, c, s, col).Rejected?
    ensures Run(o, c, s, col).kind == if o.compliantMsg then ErrMsgNotCompliant else ErrMsg
    decreases |s|
  {
    hide Run, LeadOctet, TailOctet;
    RunOne(o, c, s, col);
    if s != [] && Step(o, c, s[0]).Go? {
      MessageError(o, Step(o, c, s[0]).c, s[1..], col + 1);
    }
  }

  lemma MsgOrError(o: Options, c: Config, s: bytes, col: nat)
    requires c.cs == MsgFirst && o.compliantMsg
    ensures Reports(Run(o, c, s, col), ErrMsgNotCompliant) || IsCompliant(s)
  {
    hide Run, Step;
    if Run(o, c, s, col).Accepted? {
      MsgBack(o, c, s, col);
    } else {
      RunOne(o, c, s, col);
      if s != [] {
        StepOnMsgFirst(o, c, s[0]);
        MessageError(o, Step(o, c, s[0]).c, s[1..], col + 1);
      }
    }
  }

  // ------------------------------------------------------------------
  // Up to a place

  ghost predicate Reaches(o: Options, s: bytes, c: Config, rest: bytes) {
    |rest| <= |s| && Parse(o, s) == Run(o, c, rest, |s| - |rest|)
  }

  predicate NothingStored(c: Config) {
    c.out.structuredData == map[] && !c.out.hasElements && c.out.message == [] && c.token == []
  }

  lemma BodyReached(o: Options, s: bytes, t: Syntax, rest: bytes) returns (c: Config)
    requires PriRead(o, s, t) && s == PriText(t.pri) + rest
    ensures c.cs == Body && NothingStored(c) && c.out.timestamp == None && Reaches(o, s, c, rest)
  {
    hide Run, Step, Dec;
    c := Initial(o, s, [], []);
    if t.pri.Some? {
      assert s[0] == LT;
      ReadPri(o, c, t.pri.value, rest, 0);
      c := c.(cs := Body, out := c.out.(priority := t.pri.value, prioritySet := true));
    } else {
      assert s == rest;
    }
  }

  lemma TimeReached(o: Options, s: bytes, t: Syntax, rest: bytes) returns (c: Config)
    requires VersionRead(o, s, t) && s == UpToVersion(t) + rest
    ensures c.cs == TimeFirst && NothingStored(c) && c.out.timestamp == None && Reaches(o, s, c, rest)
  {
    hide Run, Step, Dec, PriText, Parse;
    var part := Dec(t.version) + [SP];
    assert s == PriText(t.pri) + (part + rest);
    c := BodyReached(o, s, t, part + rest);
    ReadVersion(o, c, t.version, rest, |s| - |part + rest|);
    c := c.(cs := TimeFirst, out := c.out.(version := t.version));
  }

  lemma HostnameReached(o: Options, s: bytes, t: Syntax, rest: bytes) returns (c: Config)
    requires TimeRead(o, s, t) && s == UpToField(t, Hostname) + rest
    ensures c.cs == FieldFirst(Hostname) && NothingStored(c) && Reaches(o, s, c, rest)
  {
    hide Run, Step, TimestampText, UpToVersion, Parse;
    var part := TimestampText(t.time) + [SP];
    assert s == UpToVersion(t) + (part + rest);
    c := TimeReached(o, s, t, part + rest);
    ReadTime(o, c, t.time, rest, |s| - |part + rest|);
    c := c.(cs := FieldFirst(Hostname),
            out := c.out.(timestamp := if t.time.Some? then Some(t.time.value.Value()) else None));
  }

  /** From one field to what follows it. */
  lemma PastField(o: Options, s: bytes, c: Config, f: Field, v: bytes, rest: bytes) returns (d: Config)
    requires c.cs == FieldFirst(f) && NothingStored(c) && Reaches(o, s, c, v + [SP] + rest) && IsField(f, v)
    ensures d.cs == AfterField(f) && NothingStored(d) && Reaches(o, s, d, rest)
  {
    hide Run, Step, IsField, Parse;
    ReadField(o, c, f, v, rest, |s| - |v + [SP] + rest|);
    d := c.(cs := AfterField(f), out := SetField(c.out, f, v));
  }

  lemma FieldReached(o: Options, s: bytes, t: Syntax, f: Field, rest: bytes) returns (c: Config)
    requires ValidTime(t.time) && FieldsRead(o, s, t, f) && s == UpToField(t, f) + rest
    ensures c.cs == FieldFirst(f) && NothingStored(c) && Reaches(o, s, c, rest)
    decreases match f case Hostname => 0 case Appname => 1 case ProcID => 2 case MsgID => 3
  {
    hide Reaches, IsField, TimeRead;
    match f
    case Hostname =>
      c := HostnameReached(o, s, t, rest);
    case Appname =>
      assert s == UpToField(t, Hostname) + (t.hostname + [SP] + rest);
      c := FieldReached(o, s, t, Hostname, t.hostname + [SP] + rest);
      c := PastField(o, s, c, Hostname, t.hostname, rest);
    case ProcID =>
      assert s == UpToField(t, Appname) + (t.appname + [SP] + rest);
      c := FieldReached(o, s, t, Appname, t.appname + [SP] + rest);
      c := PastField(o, s, c, Appname, t.appname, rest);
    case MsgID =>
      assert s == UpToField(t, ProcID) + (t.procID + [SP] + rest);
      c := FieldReached(o, s, t, ProcID, t.procID + [SP] + rest);
      c := PastField(o, s, c, ProcID, t.procID, rest);
  }

  lemma SdReached(o: Options, s: bytes, t: Syntax, rest: bytes) returns (c: Config)
    requires ValidTime(t.time) && HeaderRead(o, s, t) && s == UpToHeader(t) + rest
    ensures c.cs == SdFirst && NothingStored(c) && Reaches(o, s, c, rest)
  {
    hide Reaches, IsField, FieldsRead, UpToField;
    assert s == UpToField(t, MsgID) + (t.msgID + [SP] + rest);
    c := FieldReached(o, s, t, MsgID, t.msgID + [SP] + rest);
    c := PastField(o, s, c, MsgID, t.msgID, rest);
  }

  /** After the SD part. */
  lemma SdPassed(o: Options, s: bytes, t: Syntax, rest: bytes) returns (c: Config)
    requires ValidTime(t.time) && ElementsRead(o, s, t) && s == UpToHeader(t) + SdText(t.elements) + rest
    ensures c.cs == (if t.elements == [] then SdNil else ElementEnd) && c.token == [] && c.out.message == []
    ensures c.out.structuredData == AddElements(map[], t.elements) && Reaches(o, s, c, rest)
  {
    hide Run, Step, HeaderRead, UpToHeader, SdText, Parse, AddElements;
    Regroup(UpToHeader(t), SdText(t.elements), rest);
    c := SdReached(o, s, t, SdText(t.elements) + rest);
    c := ReadSd(o, c, t.elements, rest, |s| - |SdText(t.elements) + rest|);
  }

  lemma {:induction false} AddedIds(m: StructuredData, es: seq<Element>)
    requires forall i :: 0 <= i < |es| ==> ValidParams(es[i].params)
    ensures forall id: bytes :: id in AddElements(m, es) <==> id in m || HasId(es, id)
    decreases |es|
  {
    hide AddParams, ValidParams;
    if es != [] {
      AddedIds(m[es[0].id := AddParams(map[], es[0].params)], es[1..]);
      forall id: bytes ensures HasId(es, id) <==> es[0].id == id || HasId(es[1..], id) {
        if i :| 0 <= i < |es| && es[i].id == id {
          if i > 0 { assert es[1..][i - 1].id == id; }
        }
        if i :| 0 <= i < |es[1..]| && es[1..][i].id == id { assert es[i + 1].id == id; }
        if es[0].id == id { assert HasId(es, id); }
      }
    }
  }

  /** After the bracket that opens an element. */
  lemma IdReached(o: Options, s: bytes, t: Syntax, rest: bytes) returns (c: Config)
    requires ValidTime(t.time) && ElementsRead(o, s, t) && s == UpToElements(t) + [OPEN] + rest
    ensures c.cs == IdFirst && c.token == [] && HasIds(c.out.structuredData, t.elements) && Reaches(o, s, c, rest)
  {
    hide Run, Step, HeaderRead, UpToHeader, Parse, ValidParams, AddElements, HasId;
    AddedIds(map[], t.elements);
    assert s == UpToElements(t) + ([OPEN] + rest);
    if t.elements == [] {
      hide ElementsText;
      assert ElementsText([]) == [] by { NoElements(); }
      assert s == UpToHeader(t) + ([OPEN] + rest);
      c := SdReached(o, s, t, [OPEN] + rest);
      NoneAdded(t.elements);
    } else {
      c := SdPassed(o, s, t, [OPEN] + rest);
    }
    RunHead(o, c, OPEN, rest, |s| - |[OPEN] + rest|);
    if t.elements == [] { StepOnSdFirst(o, c, OPEN); } else { StepOnElementEnd(o, c, OPEN); }
    c := c.(cs := IdFirst, out := c.out.(structuredData := AddElements(map[], t.elements)));
  }

  lemma NoElements()
    ensures ElementsText([]) == []
  {
  }

  lemma NoneAdded(es: seq<Element>)
    requires es == []
    ensures AddElements(map[], es) == map[]
  {
  }

  lemma Regroup(a: bytes, b: bytes, c: bytes)
    ensures a + b + c == a + (b + c)
  {
  }

  lemma ParamsFirst(ps: seq<Param>, rest: bytes)
    requires ps != [] || First(rest, SP) || First(rest, CLOSE)
    ensures var s := ParamsText(ps) + rest; s != [] && (s[0] == SP || s[0] == CLOSE)
  {
    if ps != [] { assert ParamsText(ps)[0] == SP; } else { assert ParamsText(ps) + rest == rest; }
  }

  /** After the identifier of an element. */
  lemma IdPassed(o: Options, s: bytes, t: Syntax, id: bytes, part: bytes) returns (c: Config)
    requires ValidTime(t.time) && ElementsRead(o, s, t) && IsName(id) && !HasId(t.elements, id)
    requires s == UpToElements(t) + [OPEN] + (id + part) && (First(part, SP) || First(part, CLOSE))
    ensures c.cs == ValueEnd && c.token == [] && c.elem in c.out.structuredData && Reaches(o, s, c, part)
  {
    hide Run, Step, ElementsRead, UpToElements, Parse, IsName, HasId, NewElement;
    c := IdReached(o, s, t, id + part);
    NewThenParams(c.out, id, map[]);
    assert id !in c.out.structuredData;
    c := ReadId(o, c, id, part, |s| - |id + part|);
  }

  /** After the identifier of an element and its parameters so far. */
  lemma ParamsReached(o: Options, s: bytes, t: Syntax, id: bytes, ps: seq<Param>, rest: bytes) returns (c: Config)
    requires ValidTime(t.time) && ParamsRead(o, s, t, id, ps) && s == UpToParams(t, id, ps) + rest
    requires ps != [] || First(rest, SP) || First(rest, CLOSE)
    ensures c.cs == ValueEnd && c.token == [] && Reaches(o, s, c, rest)
  {
    hide Run, Step, ElementsRead, UpToElements, Parse, ValidParams, IsName, HasId, ParamsText, AddParams;
    var part := ParamsText(ps) + rest;
    ParamsFirst(ps, rest);
    Regroup(UpToElements(t) + [OPEN], id + ParamsText(ps), rest);
    Regroup(id, ParamsText(ps), rest);
    assert UpToParams(t, id, ps) == UpToElements(t) + [OPEN] + (id + ParamsText(ps));
    c := IdPassed(o, s, t, id, part);
    c := ReadParams(o, c, ps, rest, |s| - |part|);
  }

  // ------------------------------------------------------------------
  // What is missing at a place is reported

  lemma HeaderReported(o: Options, s: bytes, t: Syntax, p: Place, rest: bytes, k: ErrorKind)
    requires Fails(o, s, t, p, rest, k) && (p.AtPri? || p.AtVersion? || p.AtTime? || p.AfterDash? || p.AfterStamp?)
    ensures Reports(Parse(o, s), k)
  {
    hide Run, Step, StartsPri, StartsVersion, Dec, StampText, PriText;
    match p
    case AtPri =>
      PriOrError(o, Initial(o, s, [], []), s, 0);
    case AtVersion =>
      var c := BodyReached(o, s, t, rest);
      VersionOrError(o, c, rest, |s| - |rest|);
    case AtTime =>
      var c := TimeReached(o, s, t, rest);
      TimeOrError(o, c, rest, |s| - |rest|);
    case AfterDash =>
      Regroup(UpToVersion(t), [DASH], rest);
      var c := TimeReached(o, s, t, [DASH] + rest);
      AfterDashError(o, c, rest, |s| - |[DASH] + rest|);
    case AfterStamp(st) =>
      Regroup(UpToVersion(t), StampText(st), rest);
      var c := TimeReached(o, s, t, StampText(st) + rest);
      AfterStampError(o, c, st, rest, |s| - |StampText(st) + rest|);
  }

  lemma AfterDashError(o: Options, c: Config, s: bytes, col: nat)
    requires c.cs == TimeFirst && !First(s, SP)
    ensures Reports(Run(o, c, [DASH] + s, col), ErrParse)
  {
    hide Run, Step;
    RunHead(o, c, DASH, s, col);
    StepOnTimeFirst(o, c, DASH);
    var d := c.(cs := TimeNil);
    RunOne(o, d, s, col + 1);
    if s != [] { StepOnTimeNil(o, d, s[0]); }
  }

  lemma FieldReported(o: Options, s: bytes, t: Syntax, f: Field, rest: bytes, k: ErrorKind)
    requires Fails(o, s, t, AtField(f), rest, k)
    ensures Reports(Parse(o, s), k)
  {
    hide Run, Step, StartsField, UpToField;
    var c := FieldReached(o, s, t, f, rest);
    FieldOrError(o, c, f, rest, |s| - |rest|);
  }

  lemma SdReported(o: Options, s: bytes, t: Syntax, rest: bytes, k: ErrorKind)
    requires Fails(o, s, t, AtSd, rest, k)
    ensures Reports(Parse(o, s), k)
  {
    hide Run, Step, UpToHeader, IsField;
    var c := SdReached(o, s, t, rest);
    RunOne(o, c, rest, |s| - |rest|);
    if rest != [] { StepOnSdFirst(o, c, rest[0]); }
  }

  lemma NilSdReported(o: Options, s: bytes, t: Syntax, rest: bytes, k: ErrorKind)
    requires Fails(o, s, t, AfterNilSd, rest, k)
    ensures Reports(Parse(o, s), k)
  {
    hide Run, Step, UpToHeader, IsField;
    Regroup(UpToHeader(t), [DASH], rest);
    var c := SdReached(o, s, t, [DASH] + rest);
    RunHead(o, c, DASH, rest, |s| - |[DASH] + rest|);
    StepOnSdFirst(o, c, DASH);
    RunOne(o, c.(cs := SdNil), rest, |s| - |rest|);
    StepOnSdNil(o, c.(cs := SdNil), rest[0]);
  }

  lemma ElementEndReported(o: Options, s: bytes, t: Syntax, rest: bytes, k: ErrorKind)
    requires Fails(o, s, t, AfterElement, rest, k)
    ensures Reports(Parse(o, s), k)
  {
    hide Run, Step, UpToHeader, IsField, ValidElements;
    var c := SdPassed(o, s, t, rest);
    RunOne(o, c, rest, |s| - |rest|);
    StepOnElementEnd(o, c, rest[0]);
  }

  lemma MsgReported(o: Options, s: bytes, t: Syntax, rest: bytes, k: ErrorKind)
    requires Fails(o, s, t, AtMsg, rest, k)
    ensures Reports(Parse(o, s), k)
  {
    hide Run, Step, UpToHeader, SdText, IsField, IsCompliant, ValidElements;
    Regroup(UpToHeader(t) + SdText(t.elements), [SP], rest);
    var c := SdPassed(o, s, t, [SP] + rest);
    RunHead(o, c, SP, rest, |s| - |[SP] + rest|);
    if t.elements == [] { StepOnSdNil(o, c, SP); } else { StepOnElementEnd(o, c, SP); }
    MsgOrError(o, c.(cs := MsgFirst), rest, |s| - |rest|);
  }

  lemma IdReported(o: Options, s: bytes, t: Syntax, rest: bytes, k: ErrorKind)
    requires Fails(o, s, t, AtId, rest, k)
    ensures Reports(Parse(o, s), k)
  {
    hide Run, Step, UpToElements, StartsNewId, StartsOldId;
    var c := IdReached(o, s, t, rest);
    IdOrError(o, c, t.elements, rest, |s| - |rest|);
  }

  lemma NameReported(o: Options, s: bytes, t: Syntax, id: bytes, ps: seq<Param>, rest: bytes, k: ErrorKind)
    requires Fails(o, s, t, AtName(id, ps), rest, k)
    ensures Reports(Parse(o, s), k)
  {
    hide Run, Step, UpToParams, ElementsRead, StartsParamName;
    TimeIsValid(o, s, t);
    var c := NameReached(o, s, t, id, ps, rest);
    NameOrError(o, c, rest, |s| - |rest|);
  }

  lemma ValueReported(
      o: Options, s: bytes, t: Syntax, id: bytes, ps: seq<Param>, name: bytes, rest: bytes, k: ErrorKind)
    requires Fails(o, s, t, AtValue(id, ps, name), rest, k)
    ensures Reports(Parse(o, s), k)
  {
    hide Run, Step, UpToParams, ElementsRead, StartsValue, BreaksCharacter;
    TimeIsValid(o, s, t);
    var c := ValueReached(o, s, t, id, ps, name, rest);
    ValueOrError(o, c, rest, |s| - |rest|);
  }

  lemma ParamEndReported(o: Options, s: bytes, t: Syntax, id: bytes, ps: seq<Param>, rest: bytes, k: ErrorKind)
    requires Fails(o, s, t, AfterParam(id, ps), rest, k)
    ensures Reports(Parse(o, s), k)
  {
    hide Run, Step, UpToParams, ElementsRead;
    TimeIsValid(o, s, t);
    var c := ParamsReached(o, s, t, id, ps, rest);
    RunOne(o, c, rest, |s| - |rest|);
    if rest != [] { StepOnValueEnd(o, c, rest[0]); }
  }

  lemma TimeIsValid(o: Options, s: bytes, t: Syntax)
    requires ElementsRead(o, s, t)
    ensures ValidTime(t.time)
  {
  }

  lemma NameReached(o: Options, s: bytes, t: Syntax, id: bytes, ps: seq<Param>, rest: bytes) returns (c: Config)
    requires ValidTime(t.time) && ParamsRead(o, s, t, id, ps) && s == UpToParams(t, id, ps) + [SP] + rest
    ensures c.cs == NameFirst && Reaches(o, s, c, rest)
  {
    hide Run, Step, ParamsRead, UpToParams, Parse;
    Regroup(UpToParams(t, id, ps), [SP], rest);
    c := ParamsReached(o, s, t, id, ps, [SP] + rest);
    RunHead(o, c, SP, rest, |s| - |[SP] + rest|);
    StepOnValueEnd(o, c, SP);
    c := c.(cs := NameFirst);
  }

  lemma ValueReached(o: Options, s: bytes, t: Syntax, id: bytes, ps: seq<Param>, name: bytes, rest: bytes)
    returns (c: Config)
    requires ValidTime(t.time) && ParamsRead(o, s, t, id, ps) && IsName(name)
    requires s == UpToParams(t, id, ps) + ([SP] + name + [EQ, DQ]) + rest
    ensures c.cs == Value
    ensures Reports(Run(o, c, rest, |s| - |rest|), ErrSdParam) ==> Reports(Parse(o, s), ErrSdParam)
    ensures Reports(Run(o, c, rest, |s| - |rest|), ErrEscape) ==> Reports(Parse(o, s), ErrEscape)
  {
    hide Run, Step, ParamsRead, UpToParams, Parse, IsName;
    var tail := name + ([EQ, DQ] + rest);
    assert s == UpToParams(t, id, ps) + [SP] + tail;
    c := NameReached(o, s, t, id, ps, tail);
    ReadName(o, c, name, rest, |s| - |tail|);
    c := c.(cs := ValueFirst, token := [], backslashes := [], param := name);
    RunOne(o, c, rest, |s| - |rest|);
    if rest != [] { ValueFirstIsValue(o, c, rest, |s| - |rest|); }
    c := c.(cs := Value);
    RunOne(o, c, rest, |s| - |rest|);
  }

  lemma FailureReported(o: Options, s: bytes, t: Syntax, p: Place, rest: bytes, k: ErrorKind)
    requires Fails(o, s, t, p, rest, k)
    ensures Reports(Parse(o, s), k)
  {
    hide Parse, Fails;
    match p
    case AtPri => HeaderReported(o, s, t, p, rest, k);
    case AtVersion => HeaderReported(o, s, t, p, rest, k);
    case AtTime => HeaderReported(o, s, t, p, rest, k);
    case AfterDash => HeaderReported(o, s, t, p, rest, k);
    case AfterStamp(_) => HeaderReported(o, s, t, p, rest, k);
    case AtField(f) => FieldReported(o, s, t, f, rest, k);
    case AtSd => SdReported(o, s, t, rest, k);
    case AfterNilSd => NilSdReported(o, s, t, rest, k);
    case AtId => IdReported(o, s, t, rest, k);
    case AtName(id, ps) => NameReported(o, s, t, id, ps, rest, k);
    case AtValue(id, ps, name) => ValueReported(o, s, t, id, ps, name, rest, k);
    case AfterParam(id, ps) => ParamEndReported(o, s, t, id, ps, rest, k);
    case AfterElement => ElementEndReported(o, s, t, rest, k);
    case AtMsg => MsgReported(o, s, t, rest, k);
  }

  // ------------------------------------------------------------------
  // A text without such a place is that of a tree

  lemma {:induction false} MoreParams(ps: seq<Param>, p: Param)
    ensures ParamsText(ps + [p]) == ParamsText(ps) + ParamText(p)
    decreases |ps|
  {
    hide ParamText;
    if ps == [] {
      assert ps + [p] == [p] && [p][1..] == [];
    } else {
      MoreParams(ps[1..], p);
      assert (ps + [p])[1..] == ps[1..] + [p];
    }
  }

  lemma {:induction false} MoreElements(es: seq<Element>, e: Element)
    ensures ElementsText(es + [e]) == ElementsText(es) + ElementText(e)
    decreases |es|
  {
    hide ElementText;
    if es == [] {
      assert es + [e] == [e] && [e][1..] == [];
    } else {
      MoreElements(es[1..], e);
      assert (es + [e])[1..] == es[1..] + [e];
    }
  }

  lemma TextOfTree(o: Options, t: Syntax)
    requires ValidSyntax(o, t)
    ensures SyntaxText(o, t) == UpToHeader(t) + SdText(t.elements) + MsgText(t.msg)
  {
    hide Dec, TimestampText, SdText, MsgText, PriText, ValidElements;
  }

  /** The header says nothing of what follows it. */
  lemma SameHeader(t: Syntax, u: Syntax)
    requires ValidTime(t.time) && u == t.(elements := u.elements, msg := u.msg)
    ensures UpToHeader(u) == UpToHeader(t)
  {
  }

  lemma FindInMsg(o: Options, s: bytes, t: Syntax, rest: bytes) returns (k: ErrorKind)
    requires ValidTime(t.time) && ElementsRead(o, s, t) && s == UpToHeader(t) + SdText(t.elements) + [SP] + rest
    requires Parse(o, s).Rejected?
    ensures Fails(o, s, t, AtMsg, rest, k)
  {
    hide Parse, SdText, UpToHeader, IsCompliant, ValidElements, IsField;
    k := ErrMsgNotCompliant;
    if !o.compliantMsg || IsCompliant(rest) {
      NoMoreText(o, s, t, Some(rest));
    }
  }

  lemma NoMoreText(o: Options, s: bytes, t: Syntax, m: Option<bytes>)
    requires ValidTime(t.time) && ElementsRead(o, s, t)
    requires s == UpToHeader(t) + SdText(t.elements) + MsgText(m)
    requires m.Some? && o.compliantMsg ==> IsCompliant(m.value)
    ensures Parse(o, s).Accepted?
  {
    hide Parse, SdText, UpToHeader, IsCompliant, ValidElements, IsField;
    var u := t.(msg := m);
    SameHeader(t, u);
    TextOfTree(o, u);
    ParseText(o, u);
  }

  lemma ReadOn(o: Options, s: bytes, t: Syntax, e: Element)
    requires ValidTime(t.time) && ParamsRead(o, s, t, e.id, e.params)
    ensures var u := t.(elements := t.elements + [e]);
            ElementsRead(o, s, u) && UpToElements(u) == UpToParams(t, e.id, e.params) + [CLOSE]
  {
    hide ElementText, UpToHeader, IsField;
    var u := t.(elements := t.elements + [e]);
    SameHeader(t, u);
    MoreElements(t.elements, e);
    ElementGrouped(UpToHeader(t), ElementsText(t.elements), e);
    forall i, j | 0 <= i < j < |u.elements| ensures u.elements[i].id != u.elements[j].id {
      if j == |t.elements| { assert t.elements[i].id != e.id; }
    }
  }

  lemma ElementGrouped(a: bytes, b: bytes, e: Element)
    ensures a + (b + ElementText(e)) == a + b + ([OPEN] + e.id + ParamsText(e.params)) + [CLOSE]
  {
  }

  /** Where the text goes wrong from a place inside an element on. */
  lemma {:induction false} FindInParams(o: Options, s: bytes, t: Syntax, id: bytes, ps: seq<Param>, rest: bytes)
    returns (u: Syntax, p: Place, rest': bytes, k: ErrorKind)
    requires ValidTime(t.time) && ParamsRead(o, s, t, id, ps) && s == UpToParams(t, id, ps) + rest
    requires ps != [] || First(rest, SP) || First(rest, CLOSE)
    requires Parse(o, s).Rejected?
    ensures Fails(o, s, u, p, rest', k)
    decreases |rest|
  {
    hide Parse, ParamsRead, UpToParams, UpToElements, StartsParamName, StartsValue, BreaksCharacter, IsField, ValidElements;
    u := t;
    if First(rest, CLOSE) {
      ReadOn(o, s, t, Element(id, ps));
      var v := t.(elements := t.elements + [Element(id, ps)]);
      assert rest == [CLOSE] + rest[1..];
      Regroup(UpToParams(t, id, ps), [CLOSE], rest[1..]);
      u, p, rest', k := FindInElements(o, s, v, rest[1..]);
    } else if !First(rest, SP) {
      p, rest', k := AfterParam(id, ps), rest, ErrSdParam;
    } else {
      assert rest == [SP] + rest[1..];
      Regroup(UpToParams(t, id, ps), [SP], rest[1..]);
      if !StartsParamName(rest[1..]) {
        p, rest', k := AtName(id, ps), rest[1..], ErrSdParam;
      } else {
        var name, tail := TakeName(rest[1..]);
        NameGrouped(UpToParams(t, id, ps), name, tail);
        if !StartsValue(tail) {
          p, rest', k := AtValue(id, ps, name), tail, if BreaksCharacter(tail) then ErrSdParam else ErrEscape;
        } else {
          var raw, more := TakeValue(tail);
          ParamGrouped(o, s, t, id, ps, Param(name, raw), more);
          u, p, rest', k := FindInParams(o, s, t, id, ps + [Param(name, raw)], more);
        }
      }
    }
  }

  lemma TakeName(s: bytes) returns (name: bytes, rest: bytes)
    requires StartsParamName(s)
    ensures IsName(name) && s == name + [EQ, DQ] + rest
  {
    name :| IsSdName(name) && name + [EQ, DQ] <= s;
    rest := s[|name| + 2..];
  }

  lemma TakeValue(s: bytes) returns (w: bytes, rest: bytes)
    requires StartsValue(s)
    ensures ValidRaw(w) && s == w + [DQ] + rest
  {
    w :| ValidRaw(w) && w + [DQ] <= s;
    rest := s[|w| + 1..];
  }

  lemma NameGrouped(a: bytes, name: bytes, rest: bytes)
    ensures a + ([SP] + (name + [EQ, DQ] + rest)) == a + ([SP] + name + [EQ, DQ]) + rest
  {
  }

  lemma ParamGrouped(o: Options, s: bytes, t: Syntax, id: bytes, ps: seq<Param>, p: Param, rest: bytes)
    requires ValidTime(t.time) && ParamsRead(o, s, t, id, ps) && IsName(p.name) && ValidRaw(p.raw)
    requires s == UpToParams(t, id, ps) + ([SP] + p.name + [EQ, DQ]) + (p.raw + [DQ] + rest)
    ensures ParamsRead(o, s, t, id, ps + [p]) && s == UpToParams(t, id, ps + [p]) + rest
  {
    hide UpToElements, ElementsRead, IsName, HasId, ValidRaw;
    MoreParams(ps, p);
    Appended(UpToElements(t), [OPEN] + id, ParamsText(ps), ParamText(p));
    Tail(UpToParams(t, id, ps), p, rest);
  }

  lemma Appended(a: bytes, b: bytes, c: bytes, d: bytes)
    ensures a + (b + (c + d)) == a + (b + c) + d
  {
  }

  lemma Tail(a: bytes, p: Param, rest: bytes)
    ensures a + ([SP] + p.name + [EQ, DQ]) + (p.raw + [DQ] + rest) == a + ParamText(p) + rest
  {
  }

  /** Where the text goes wrong after whole elements, or at the first of them. */
  lemma {:induction false} FindInElements(o: Options, s: bytes, t: Syntax, rest: bytes)
    returns (u: Syntax, p: Place, rest': bytes, k: ErrorKind)
    requires ValidTime(t.time) && ElementsRead(o, s, t) && s == UpToElements(t) + rest
    requires t.elements != [] || First(rest, OPEN)
    requires Parse(o, s).Rejected?
    ensures Fails(o, s, u, p, rest', k)
    decreases |rest|
  {
    hide Parse, UpToHeader, ElementsText, StartsNewId, StartsOldId, IsField, ValidElements, IsCompliant;
    u := t;
    if rest == [] {
      assert MsgText(None) == [];
      NoMoreText(o, s, t, None);
      assert false;
    } else if rest[0] == OPEN {
      assert rest == [OPEN] + rest[1..];
      Regroup(UpToElements(t), [OPEN], rest[1..]);
      if !StartsNewId(rest[1..], t.elements) {
        p, rest', k := AtId, rest[1..], if StartsOldId(rest[1..], t.elements) then ErrSdIDDuplicated else ErrSdID;
      } else {
        var id, tail := TakeId(rest[1..], t.elements);
        IdGrouped(t, id, tail);
        u, p, rest', k := FindInParams(o, s, t, id, [], tail);
      }
    } else if rest[0] == SP {
      assert rest == [SP] + rest[1..];
      Regroup(UpToElements(t), [SP], rest[1..]);
      p, rest' := AtMsg, rest[1..];
      k := FindInMsg(o, s, t, rest');
    } else {
      p, rest', k := AfterElement, rest, ErrStructuredData;
    }
  }

  lemma TakeId(s: bytes, es: seq<Element>) returns (id: bytes, rest: bytes)
    requires StartsNewId(s, es)
    ensures IsName(id) && !HasId(es, id) && s == id + rest && (First(rest, SP) || First(rest, CLOSE))
  {
    hide HasId;
    id :| IsSdName(id) && !HasId(es, id) && id <= s && (First(s[|id|..], SP) || First(s[|id|..], CLOSE));
    rest := s[|id|..];
  }

  lemma IdGrouped(t: Syntax, id: bytes, rest: bytes)
    requires ValidTime(t.time)
    ensures UpToElements(t) + ([OPEN] + (id + rest)) == UpToParams(t, id, []) + rest
  {
    hide UpToElements;
    assert ParamsText([]) == [];
  }

  lemma FindInSd(o: Options, s: bytes, t: Syntax, rest: bytes)
    returns (u: Syntax, p: Place, rest': bytes, k: ErrorKind)
    requires ValidTime(t.time) && HeaderRead(o, s, t) && s == UpToHeader(t) + rest
    requires t.elements == []
    requires Parse(o, s).Rejected?
    ensures Fails(o, s, u, p, rest', k)
  {
    hide Parse, UpToHeader, IsField, IsCompliant;
    u := t;
    if First(rest, OPEN) {
      assert ElementsText([]) == [];
      u, p, rest', k := FindInElements(o, s, t, rest);
    } else if First(rest, DASH) {
      rest' := rest[1..];
      assert rest == [DASH] + rest';
      Regroup(UpToHeader(t), [DASH], rest');
      if rest' == [] {
        assert MsgText(None) == [];
        NoMoreText(o, s, t, None);
        assert false;
      } else if rest'[0] == SP {
        assert rest' == [SP] + rest'[1..];
        Regroup(UpToHeader(t) + [DASH], [SP], rest'[1..]);
        k := FindInMsg(o, s, t, rest'[1..]);
        p, rest' := AtMsg, rest'[1..];
      } else {
        p, k := AfterNilSd, ErrParse;
      }
    } else {
      p, rest', k := AtSd, rest, ErrStructuredData;
    }
  }

  function WithField(t: Syntax, f: Field, v: bytes): Syntax {
    match f
    case Hostname => t.(hostname := v)
    case Appname => t.(appname := v)
    case ProcID => t.(procID := v)
    case MsgID => t.(msgID := v)
  }

  lemma FieldRead(o: Options, s: bytes, t: Syntax, f: Field, v: bytes)
    requires ValidTime(t.time) && FieldsRead(o, s, t, f) && IsField(f, v)
    ensures var u := WithField(t, f, v);
            match f
            case Hostname => FieldsRead(o, s, u, Appname) && UpToField(u, Appname) == UpToField(t, f) + (v + [SP])
            case Appname => FieldsRead(o, s, u, ProcID) && UpToField(u, ProcID) == UpToField(t, f) + (v + [SP])
            case ProcID => FieldsRead(o, s, u, MsgID) && UpToField(u, MsgID) == UpToField(t, f) + (v + [SP])
            case MsgID => HeaderRead(o, s, u) && UpToHeader(u) == UpToField(t, f) + (v + [SP])
  {
    hide TimestampText, IsField;
  }

  lemma FieldKind(s: bytes, f: Field) returns (k: ErrorKind)
    requires !StartsField(s, MaxLength(f))
    ensures match f
            case Hostname => !StartsField(s, 255) && k == ErrHostname
            case Appname => !StartsField(s, 48) && k == ErrAppname
            case ProcID => !StartsField(s, 128) && k == ErrProcID
            case MsgID => !StartsField(s, 32) && k == ErrMsgID
  {
    k := FieldError(f);
  }

  lemma TakeField(s: bytes, f: Field) returns (v: bytes, rest: bytes)
    requires StartsField(s, MaxLength(f))
    ensures IsField(f, v) && s == (v + [SP]) + rest
  {
    v :| 1 <= |v| <= MaxLength(f) && Visible(v) && v + [SP] <= s;
    rest := s[|v| + 1..];
  }

  lemma FindInFields(o: Options, s: bytes, t: Syntax, f: Field, rest: bytes)
    returns (u: Syntax, p: Place, rest': bytes, k: ErrorKind)
    requires ValidTime(t.time) && FieldsRead(o, s, t, f) && s == UpToField(t, f) + rest
    requires t.elements == []
    requires Parse(o, s).Rejected?
    ensures Fails(o, s, u, p, rest', k)
    decreases match f case Hostname => 3 case Appname => 2 case ProcID => 1 case MsgID => 0
  {
    hide Parse, UpToField, FieldsRead, IsField, StartsField, MaxLength;
    if !StartsField(rest, MaxLength(f)) {
      k := FieldKind(rest, f);
      u, p, rest' := t, AtField(f), rest;
    } else {
      var v, tail := TakeField(rest, f);
      FieldRead(o, s, t, f, v);
      Regroup(UpToField(t, f), v + [SP], tail);
      match f
      case Hostname => u, p, rest', k := FindInFields(o, s, WithField(t, f, v), Appname, tail);
      case Appname => u, p, rest', k := FindInFields(o, s, WithField(t, f, v), ProcID, tail);
      case ProcID => u, p, rest', k := FindInFields(o, s, WithField(t, f, v), MsgID, tail);
      case MsgID => u, p, rest', k := FindInSd(o, s, WithField(t, f, v), tail);
    }
  }

  lemma FindInTime(o: Options, s: bytes, t: Syntax, rest: bytes)
    returns (u: Syntax, p: Place, rest': bytes, k: ErrorKind)
    requires VersionRead(o, s, t) && s == UpToVersion(t) + rest
    requires t.elements == []
    requires Parse(o, s).Rejected?
    ensures Fails(o, s, u, p, rest', k)
  {
    hide Parse, VersionRead, UpToVersion, StampText;
    u := t;
    if First(rest, DASH) {
      rest' := rest[1..];
      assert rest == [DASH] + rest';
      Regroup(UpToVersion(t), [DASH], rest');
      if First(rest', SP) {
        TimeGrouped(o, s, t, None, rest');
        u, p, rest', k := FindInFields(o, s, t.(time := None), Hostname, rest'[1..]);
      } else {
        p, k := AfterDash, ErrParse;
      }
    } else if st: Stamp :| st.WellFormed() && StampText(st) <= rest {
      rest' := rest[|StampText(st)|..];
      assert rest == StampText(st) + rest';
      Regroup(UpToVersion(t), StampText(st), rest');
      if st.day > DaysIn(st.year, st.month) {
        p, k := AfterStamp(st), ErrTime;
      } else if First(rest', SP) {
        TimeGrouped(o, s, t, Some(st), rest');
        u, p, rest', k := FindInFields(o, s, t.(time := Some(st)), Hostname, rest'[1..]);
      } else {
        p, k := AfterStamp(st), ErrParse;
      }
    } else {
      p, rest', k := AtTime, rest, ErrTimestamp;
    }
  }

  lemma TimeGrouped(o: Options, s: bytes, t: Syntax, time: Option<Stamp>, rest: bytes)
    requires VersionRead(o, s, t) && ValidTime(time) && First(rest, SP)
    requires s == UpToVersion(t) + TimestampText(time) + rest
    ensures FieldsRead(o, s, t.(time := time), Hostname)
    ensures s == UpToField(t.(time := time), Hostname) + rest[1..]
  {
    hide StampText, UpToVersion;
    assert rest == [SP] + rest[1..];
    var part := TimestampText(time);
    hide TimestampText;
    Four(UpToVersion(t), part, rest[1..]);
    SameUpToVersion(t, time);
  }

  lemma Four(a: bytes, b: bytes, rest: bytes)
    ensures a + b + ([SP] + rest) == a + (b + [SP]) + rest
  {
  }

  lemma SameUpToVersion(t: Syntax, time: Option<Stamp>)
    ensures UpToVersion(t.(time := time)) == UpToVersion(t)
  {
  }

  lemma FindInVersion(o: Options, s: bytes, t: Syntax, rest: bytes)
    returns (u: Syntax, p: Place, rest': bytes, k: ErrorKind)
    requires PriRead(o, s, t) && s == PriText(t.pri) + rest && t.elements == []
    requires Parse(o, s).Rejected?
    ensures Fails(o, s, u, p, rest', k)
  {
    hide Parse, PriText, Dec;
    if version: nat :| 1 <= version <= 999 && Dec(version) + [SP] <= rest {
      var tail := rest[|Dec(version)| + 1..];
      assert rest == (Dec(version) + [SP]) + tail;
      Regroup(PriText(t.pri), Dec(version) + [SP], tail);
      u, p, rest', k := FindInTime(o, s, t.(version := version), tail);
    } else {
      u, p, rest' := t, AtVersion, rest;
      k := if rest != [] && 49 <= rest[0] <= 57 && (|rest| == 1 || !IsDigit(rest[1])) then ErrParse else ErrVersion;
    }
  }

  lemma FindFailure(o: Options, s: bytes) returns (u: Syntax, p: Place, rest: bytes, k: ErrorKind)
    requires Parse(o, s).Rejected?
    ensures Fails(o, s, u, p, rest, k)
  {
    hide Parse, Dec;
    u := Syntax(None, 0, None, [], [], [], [], [], None);
    if pri: nat :| pri <= 191 && [LT] + Dec(pri) + [GT] <= s {
      var tail := s[|[LT] + Dec(pri) + [GT]|..];
      assert s == PriText(Some(pri)) + tail;
      u, p, rest, k := FindInVersion(o, s, u.(pri := Some(pri)), tail);
    } else if o.optionalPriority && !First(s, LT) {
      assert s == PriText(None) + s;
      u, p, rest, k := FindInVersion(o, s, u, s);
    } else {
      p, rest, k := AtPri, s, if First(s, LT) then ErrPrival else ErrPri;
    }
  }

  /** A rejected input gets the error of the place where its text goes wrong, and no other. */
  lemma ErrorKindOf(o: Options, s: bytes, k: ErrorKind)
    ensures Reports(Parse(o, s), k)
       <==> exists t: Syntax, p: Place, rest: bytes :: Fails(o, s, t, p, rest, k)
  {
    hide Parse, Fails;
    if Reports(Parse(o, s), k) {
      var t, p, rest, k' := FindFailure(o, s);
      FailureReported(o, s, t, p, rest, k');
    }
    if t: Syntax, p: Place, rest: bytes :| Fails(o, s, t, p, rest, k) {
      FailureReported(o, s, t, p, rest, k);
    }
  }

  /** Everything before the field is read, and no field with its space follows. */
  ghost predicate FieldMissing(o: Options, s: bytes, f: Field, limit: nat) {
    exists t: Syntax, rest: bytes ::
      FieldsRead(o, s, t, f) && s == UpToField(t, f) + rest && !StartsField(rest, limit)
  }

  lemma FieldMissingFails(o: Options, s: bytes, f: Field, limit: nat, k: ErrorKind)
    requires limit == MaxLength(f) && k == FieldError(f)
    ensures FieldMissing(o, s, f, limit) <==> exists t: Syntax, p: Place, rest: bytes :: Fails(o, s, t, p, rest, k)
  {
    hide UpToField, StartsField, IsField;
    if t: Syntax, p: Place, rest: bytes :| Fails(o, s, t, p, rest, k) {
      OnlyAtField(o, s, t, p, rest, f);
    }
    if t: Syntax, rest: bytes :| FieldsRead(o, s, t, f) && s == UpToField(t, f) + rest && !StartsField(rest, limit) {
      assert Fails(o, s, t, AtField(f), rest, k);
    }
  }

  lemma OnlyAtField(o: Options, s: bytes, t: Syntax, p: Place, rest: bytes, f: Field)
    requires Fails(o, s, t, p, rest, FieldError(f))
    ensures p == AtField(f)
  {
  }

  /** The four header fields: each has its error, exactly when it is the first part that is missing. */
  lemma FieldErrors(o: Options, s: bytes)
    ensures Reports(Parse(o, s), ErrHostname) <==> FieldMissing(o, s, Hostname, 255)
    ensures Reports(Parse(o, s), ErrAppname) <==> FieldMissing(o, s, Appname, 48)
    ensures Reports(Parse(o, s), ErrProcID) <==> FieldMissing(o, s, ProcID, 128)
    ensures Reports(Parse(o, s), ErrMsgID) <==> FieldMissing(o, s, MsgID, 32)
  {
    hide Parse, Fails, FieldMissing;
    ErrorKindOf(o, s, ErrHostname);
    ErrorKindOf(o, s, ErrAppname);
    ErrorKindOf(o, s, ErrProcID);
    ErrorKindOf(o, s, ErrMsgID);
    FieldMissingFails(o, s, Hostname, 255, ErrHostname);
    FieldMissingFails(o, s, Appname, 48, ErrAppname);
    FieldMissingFails(o, s, ProcID, 128, ErrProcID);
    FieldMissingFails(o, s, MsgID, 32, ErrMsgID);
  }

  /** The error of the general MSG is never reported: no octet stops it. */
  lemma NoMsgError(o: Options, s: bytes)
    ensures !Reports(Parse(o, s), ErrMsg)
  {
    hide Parse;
    ErrorKindOf(o, s, ErrMsg);
  }

  /** `<1>1 - ` ends where the host name is due. */
  lemma HostnameDue(o: Options)
    ensures Reports(Parse(o, [60, 49, 62, 49, 32, 45, 32]), ErrHostname)
    ensures Parse(o, [60, 49, 62, 49, 32, 45, 32]).col == 7
  {
    hide Parse, Step, Run;
    var s: bytes := [60, 49, 62, 49, 32, 45, 32];
    var t := Syntax(Some(1), 1, None, [], [], [], [], [], None);
    assert Dec(1) == [49];
    assert UpToField(t, Hostname) == s;
    var c := FieldReached(o, s, t, Hostname, []);
    RunOne(o, c, [], 7);
  }
}
