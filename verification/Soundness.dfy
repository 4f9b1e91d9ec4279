/** The automaton accepts nothing but the texts of syntax trees. */
module Soundness {
  import opened Bytes
  import opened Utf8
  import opened Functions
  import opened Escaping
  import opened Timestamps
  import opened Messages
  import opened Automaton
  import opened Grammar
  import opened Completeness

  // ------------------------------------------------------------------
  // PRI and VERSION

  /** The run was accepted, or rejected after the first digit of the VERSION. */
  predicate ReachesVersion(e: End) {
    e.Accepted? || e.out.version != 0
  }

  /** Before the VERSION such a run goes on. */
  lemma NotOverYet(o: Options, c: Config, s: bytes, col: nat)
    requires c.cs in {Start, PriFirst, Body} || IsPri(c.cs)
    requires c.out.version == 0 && ReachesVersion(Run(o, c, s, col))
    ensures s != [] && s == [s[0]] + s[1..]
    ensures Step(o, c, s[0]).Go?
    ensures Run(o, c, s, col) == Run(o, Step(o, c, s[0]).c, s[1..], col + 1)
  {
    hide Num, StepVersion, StepTime, StepFieldRest, StepIdRest, StepNameRest, StepValue, StepValueTail, StepText;
  }

  lemma {:induction false} PriBack(o: Options, c: Config, s: bytes, col: nat)
    returns (v: bytes, rest: bytes, d: Config)
    requires IsPri(c.cs) && c.out.version == 0 && ReachesVersion(Run(o, c, s, col))
    ensures s == v + [GT] + rest && PriPath(c.cs, v) && AllDigits(v)
    ensures d.cs == Body && d.out.version == 0 && Run(o, c, s, col) == Run(o, d, rest, col + |v| + 1)
    decreases |s|
  {
    hide Run, Step;
    NotOverYet(o, c, s, col);
    StepOnPri(o, c, s[0]);
    if s[0] == GT {
      v, rest, d := [], s[1..], StepPri(c, s[0]).c;
    } else {
      v, rest, d := PriBack(o, StepPri(c, s[0]).c, s[1..], col + 1);
      v := [s[0]] + v;
    }
  }

  lemma {:induction false} PriPathShort(cs: State, v: bytes)
    requires IsPri(cs) && PriPath(cs, v)
    ensures |v| <= 2
    ensures cs == PriLast ==> v == []
    ensures cs == PriTwo ==> |v| <= 1
    ensures cs == PriNineteen ==> |v| <= 1 && (v != [] ==> v[0] <= 49)
    ensures cs == PriOne && |v| == 2 ==> v[0] <= 56 || v[1] <= 49
    decreases |v|
  {
    if v != [] { PriPathShort(PriNext(cs, v[0]).value, v[1..]); }
  }

  /** What the states of the PRIVAL let pass is the numeral of one of 0..191. */
  lemma PriNumeral(b: byte, v: bytes)
    requires IsDigit(b) && AllDigits(v) && PriPath(PriEntry(b), v)
    ensures ValidPriority(Num([b] + v)) && Dec(Num([b] + v)) == [b] + v
  {
    PriPathShort(PriEntry(b), v);
    var d := [b] + v;
    DecNum(d);
    NumSmall(d);
  }

  lemma NumSmall(d: bytes)
    requires 1 <= |d| <= 3 && AllDigits(d)
    ensures |d| == 1 ==> Num(d) == d[0] as int - 48
    ensures |d| == 2 ==> Num(d) == (d[0] as int - 48) * 10 + (d[1] as int - 48)
    ensures |d| == 3 ==> Num(d) == (d[0] as int - 48) * 100 + (d[1] as int - 48) * 10 + (d[2] as int - 48)
  {
    var e := d[..|d| - 1];
    if |d| >= 2 {
      var f := e[..|e| - 1];
      if |d| == 3 { assert f[..0] == []; }
    }
  }

  lemma PrivalBack(o: Options, c: Config, s: bytes, col: nat) returns (pri: nat, rest: bytes, d: Config)
    requires c.cs == PriFirst && c.out.version == 0 && ReachesVersion(Run(o, c, s, col))
    ensures ValidPriority(pri) && s == Dec(pri) + [GT] + rest
    ensures d.cs == Body && d.out.version == 0 && ReachesVersion(Run(o, d, rest, col + |Dec(pri)| + 1))
  {
    hide Run, Step, Dec, Num, ReachesVersion;
    NotOverYet(o, c, s, col);
    StepOnPriFirst(o, c, s[0]);
    var v;
    v, rest, d := PriBack(o, Step(o, c, s[0]).c, s[1..], col + 1);
    PriNumeral(s[0], v);
    pri := Num([s[0]] + v);
  }

  lemma {:induction false} VersionRestBack(o: Options, c: Config, n: nat, s: bytes, col: nat) returns (v: bytes, rest: bytes)
    requires c.cs == Version(n) && Run(o, c, s, col).Accepted?
    ensures s == v + [SP] + rest && AllDigits(v) && (v == [] || n + |v| <= 3)
    decreases |s|
  {
    hide Run, Step;
    NotOver(o, c, s, col);
    StepOnVersion(o, c, n, s[0]);
    if s[0] == SP {
      v, rest := [], s[1..];
    } else {
      v, rest := VersionRestBack(o, StepVersion(c, n, s[0]).c, n + 1, s[1..], col + 1);
      v := [s[0]] + v;
    }
  }

  lemma VersionBack(o: Options, c: Config, s: bytes, col: nat) returns (version: nat, rest: bytes)
    requires c.cs == Body && Run(o, c, s, col).Accepted?
    ensures ValidVersion(version) && s == (Dec(version) + [SP]) + rest
  {
    hide Run, Step, Dec, Num;
    NotOver(o, c, s, col);
    StepOnBody(o, c, s[0]);
    var v;
    v, rest := VersionRestBack(o, Step(o, c, s[0]).c, 1, s[1..], col + 1);
    var d := [s[0]] + v;
    DecNum(d);
    NumSmall(d);
    version := Num(d);
  }

  // ------------------------------------------------------------------
  // TIMESTAMP

  lemma {:induction false} TimeRestBack(o: Options, c: Config, n: int, s: bytes, col: nat) returns (v: bytes, rest: bytes)
    requires c.cs == Time(n) && n != 0 && Run(o, c, s, col).Accepted?
    ensures s == v + ([SP] + rest) && ParserRun(n, v) == 578
    ensures ParseTime(c.token + v).Some?
    decreases |s|
  {
    hide Run, Step, ParserNext, ParseTime;
    NotOver(o, c, s, col);
    StepOnTime(o, c, n, s[0]);
    if n == 578 {
      v, rest := [], s[1..];
      assert c.token + v == c.token;
    } else {
      var m := ParserNext(n, s[0]);
      var c1 := c.(cs := Time(m), token := c.token + [s[0]]);
      v, rest := TimeRestBack(o, c1, m, s[1..], col + 1);
      assert c1.token + v == c.token + ([s[0]] + v);
      assert ([s[0]] + v)[1..] == v;
      v := [s[0]] + v;
    }
  }

  lemma TimeBack(o: Options, c: Config, s: bytes, col: nat) returns (t: Option<Stamp>, rest: bytes)
    requires c.cs == TimeFirst && Run(o, c, s, col).Accepted?
    ensures ValidTime(t) && s == TimestampText(t) + [SP] + rest
  {
    hide Run, Step, ParseTime, StampText, ParserNext;
    NotOver(o, c, s, col);
    StepOnTimeFirst(o, c, s[0]);
    var c1 := Step(o, c, s[0]).c;
    if s[0] == DASH {
      NotOver(o, c1, s[1..], col + 1);
      StepOnTimeNil(o, c1, s[1]);
      t, rest := None, s[2..];
    } else {
      var v;
      v, rest := TimeRestBack(o, c1, 554, s[1..], col + 1);
      var text := [s[0]] + v;
      FirstDigit(text);
      assert text[1..] == v;
      var st := StampBack(text);
      ParseStamp(st);
      t := Some(st);
    }
  }

  lemma FirstDigit(text: bytes)
    requires text != [] && IsDigit(text[0]) && ParserRun(554, text[1..]) == 578
    ensures ParserRun(6, text) == 578
  {
  }

  // ------------------------------------------------------------------
  // HOSTNAME, APP-NAME, PROCID, MSGID

  lemma {:induction false} FieldRestBack(o: Options, c: Config, f: Field, n: nat, s: bytes, col: nat)
    returns (v: bytes, rest: bytes)
    requires c.cs == FieldRest(f, n) && Run(o, c, s, col).Accepted?
    ensures s == v + [SP] + rest && AllGraph(v) && (v == [] || n + |v| <= MaxLength(f))
    decreases |s|
  {
    hide Run, Step;
    NotOver(o, c, s, col);
    StepOnField(o, c, f, n, s[0]);
    if s[0] == SP {
      v, rest := [], s[1..];
    } else {
      v, rest := FieldRestBack(o, StepFieldRest(c, f, n, s[0]).c, f, n + 1, s[1..], col + 1);
      v := [s[0]] + v;
    }
  }

  lemma FieldBack(o: Options, c: Config, f: Field, s: bytes, col: nat) returns (v: bytes, rest: bytes, d: Config)
    requires c.cs == FieldFirst(f) && Run(o, c, s, col).Accepted?
    ensures IsField(f, v) && s == (v + [SP]) + rest
    ensures d.cs == AfterField(f) && d.out == SetField(c.out, f, v) && d.token == []
    ensures Run(o, d, rest, col + |v| + 1) == Run(o, c, s, col)
  {
    hide Run, Step, SetField, AfterField;
    NotOver(o, c, s, col);
    StepOnFieldFirst(o, c, f, s[0]);
    v, rest := FieldRestBack(o, Step(o, c, s[0]).c, f, 1, s[1..], col + 1);
    v := [s[0]] + v;
    ReadField(o, c, f, v, rest, col);
    d := c.(cs := AfterField(f), token := [], out := SetField(c.out, f, v));
  }

  lemma FieldsBack(o: Options, c: Config, s: bytes, col: nat) returns (t: Syntax, rest: bytes, d: Config)
    requires c.cs == FieldFirst(Hostname) && Run(o, c, s, col).Accepted?
    ensures IsField(Hostname, t.hostname) && IsField(Appname, t.appname)
    ensures IsField(ProcID, t.procID) && IsField(MsgID, t.msgID)
    ensures s == FieldsText(t) + rest
    ensures d.cs == SdFirst && d.token == [] && d.out.structuredData == c.out.structuredData
    ensures d.out.hasElements == c.out.hasElements && d.out.message == c.out.message
    ensures Run(o, d, rest, col + |FieldsText(t)|) == Run(o, c, s, col)
  {
    hide Run, Step, IsField;
    var h, s1, c1 := FieldBack(o, c, Hostname, s, col);
    var a, s2, c2 := FieldBack(o, c1, Appname, s1, col + |h| + 1);
    var p, s3, c3 := FieldBack(o, c2, ProcID, s2, col + |h| + |a| + 2);
    var m;
    m, rest, d := FieldBack(o, c3, MsgID, s3, col + |h| + |a| + |p| + 3);
    t := Syntax(None, 0, None, h, a, p, m, [], None);
    FieldsSplit(t, rest);
  }

  // ------------------------------------------------------------------
  // STRUCTURED-DATA

  lemma {:induction false} IdRestBack(o: Options, c: Config, n: nat, s: bytes, col: nat) returns (v: bytes, rest: bytes)
    requires c.cs == IdRest(n) && Run(o, c, s, col).Accepted?
    ensures s == v + rest && AllNameChars(v) && (v == [] || n + |v| <= 32)
    ensures rest != [] && (rest[0] == SP || rest[0] == CLOSE)
    ensures c.token + v !in c.out.structuredData
    decreases |s|
  {
    hide Run, Step;
    NotOver(o, c, s, col);
    StepOnId(o, c, n, s[0]);
    if s[0] == SP || s[0] == CLOSE {
      v, rest := [], s;
      assert c.token + v == c.token;
    } else {
      v, rest := IdRestBack(o, StepIdRest(c, n, s[0]).c, n + 1, s[1..], col + 1);
      assert c.token + [s[0]] + v == c.token + ([s[0]] + v);
      v := [s[0]] + v;
    }
  }

  lemma IdBack(o: Options, c: Config, s: bytes, col: nat) returns (id: bytes, rest: bytes, d: Config)
    requires c.cs == IdFirst && Run(o, c, s, col).Accepted?
    ensures IsName(id) && id !in c.out.structuredData && s == id + rest
    ensures d == c.(cs := ValueEnd, token := [], elem := id, out := NewElement(c.out, id))
    ensures Run(o, d, rest, col + |id|) == Run(o, c, s, col)
  {
    hide Run, Step;
    NotOver(o, c, s, col);
    StepOnIdFirst(o, c, s[0]);
    id, rest := IdRestBack(o, Step(o, c, s[0]).c, 1, s[1..], col + 1);
    id := [s[0]] + id;
    d := ReadId(o, c, id, rest, col);
  }

  lemma {:induction false} NameRestBack(o: Options, c: Config, n: nat, s: bytes, col: nat)
    returns (v: bytes, rest: bytes)
    requires c.cs == NameRest(n) && Run(o, c, s, col).Accepted?
    ensures s == v + ([EQ, DQ] + rest) && AllNameChars(v) && (v == [] || n + |v| <= 32)
    decreases |s|
  {
    hide Run, Step;
    NotOver(o, c, s, col);
    StepOnName(o, c, n, s[0]);
    var c1 := StepNameRest(c, n, s[0]).c;
    if s[0] == EQ {
      NotOver(o, c1, s[1..], col + 1);
      StepOnNameEnd(o, c1, s[1]);
      v, rest := [], s[2..];
    } else {
      v, rest := NameRestBack(o, c1, n + 1, s[1..], col + 1);
      v := [s[0]] + v;
    }
  }

  lemma NameBack(o: Options, c: Config, s: bytes, col: nat) returns (name: bytes, rest: bytes)
    requires c.cs == NameFirst && Run(o, c, s, col).Accepted?
    ensures IsName(name) && s == name + ([EQ, DQ] + rest)
  {
    hide Run, Step;
    NotOver(o, c, s, col);
    StepOnNameFirst(o, c, s[0]);
    var v;
    v, rest := NameRestBack(o, Step(o, c, s[0]).c, 1, s[1..], col + 1);
    name := [s[0]] + v;
  }

  lemma {:induction false} ValueTailBack(o: Options, c: Config, u: Utf8State, s: bytes, col: nat)
    returns (t: bytes, rest: bytes)
    requires u != Bad && c.cs == (if u == Ready then Value else ValueTail(u))
    requires Run(o, c, s, col).Accepted?
    ensures CharTail(u, t) && s == t + rest
    decreases |s|
  {
    hide Run, Step;
    if u == Ready {
      t, rest := [], s;
    } else {
      NotOver(o, c, s, col);
      StepOnValueTail(o, c, u, s[0]);
      t, rest := ValueTailBack(o, StepValueTail(c, u, s[0]).c, TailOctet(u, s[0]), s[1..], col + 1);
      assert ([s[0]] + t)[1..] == t;
      t := [s[0]] + t;
    }
  }

  /** The escape pair or character at the head of a value that goes on. */
  lemma UnitBack(o: Options, c: Config, s: bytes, col: nat) returns (u: bytes, rest: bytes)
    requires c.cs == Value && Run(o, c, s, col).Accepted?
    requires s != [] && s[0] != DQ
    ensures UnitLen(u) == |u| > 0 && s == u + rest
  {
    hide Run, Step;
    NotOver(o, c, s, col);
    StepOnValue(o, c, s[0]);
    var c1 := StepValue(c, s[0]).c;
    if s[0] == SLASH {
      NotOver(o, c1, s[1..], col + 1);
      StepOnValueEscape(o, c1, s[1]);
      u, rest := s[..2], s[2..];
    } else {
      var t;
      t, rest := ValueTailBack(o, c1, LeadOctet(s[0]), s[1..], col + 1);
      CharTailIsChar(s[0], t);
      u := [s[0]] + t;
    }
  }

  lemma {:induction false} RawBack(o: Options, c: Config, s: bytes, col: nat) returns (w: bytes, rest: bytes)
    requires c.cs == Value && Run(o, c, s, col).Accepted?
    ensures ValidRaw(w) && s == w + ([DQ] + rest)
    decreases |s|
  {
    hide Run, Step, UnitLen;
    NotOver(o, c, s, col);
    if s[0] == DQ {
      w, rest := [], s[1..];
    } else {
      var u, s1 := UnitBack(o, c, s, col);
      ReadUnit(o, c, u, s1, col);
      var c1 := c.(token := c.token + u, backslashes := c.backslashes + if u[0] == SLASH then [|c.token|] else []);
      var v;
      v, rest := RawBack(o, c1, s1, col + |u|);
      PrependUnit(u, v);
      w := u + v;
      assert s == w + ([DQ] + rest);
    }
  }

  lemma ParamBack(o: Options, c: Config, s: bytes, col: nat) returns (p: Param, rest: bytes, d: Config)
    requires c.cs == ValueEnd && c.token == [] && c.elem in c.out.structuredData
    requires s != [] && s[0] == SP && Run(o, c, s, col).Accepted?
    ensures IsName(p.name) && ValidRaw(p.raw) && s == ParamText(p) + rest
    ensures d.cs == ValueEnd && d.token == [] && d.elem == c.elem && d.elem in d.out.structuredData
    ensures d.out == c.out.(structuredData := d.out.structuredData)
    ensures d.out.structuredData.Keys == c.out.structuredData.Keys
    ensures Run(o, d, rest, col + |ParamText(p)|) == Run(o, c, s, col)
  {
    hide Run, Step, Unescape, ValidRaw, IsName;
    NotOver(o, c, s, col);
    StepOnValueEnd(o, c, s[0]);
    var c1 := c.(cs := NameFirst);
    var name, s1 := NameBack(o, c1, s[1..], col + 1);
    ReadName(o, c1, name, s1, col + 1);
    var c2 := c1.(cs := ValueFirst, token := [], backslashes := [], param := name);
    var col2 := col + |name| + 3;
    NotOver(o, c2, s1, col2);
    ValueFirstIsValue(o, c2, s1, col2);
    var raw;
    raw, rest := RawBack(o, c2.(cs := Value, token := []), s1, col2);
    p := Param(name, raw);
    assert s == ParamText(p) + rest;
    d := ReadParam(o, c, p, rest, col);
  }

  lemma {:induction false} ParamsBack(o: Options, c: Config, s: bytes, col: nat)
    returns (ps: seq<Param>, rest: bytes, d: Config)
    requires c.cs == ValueEnd && c.token == [] && c.elem in c.out.structuredData
    requires Run(o, c, s, col).Accepted?
    ensures ValidParams(ps) && s == ParamsText(ps) + ([CLOSE] + rest)
    ensures d.cs == ElementEnd && d.token == []
    ensures d.out == c.out.(structuredData := d.out.structuredData)
    ensures d.out.structuredData.Keys == c.out.structuredData.Keys
    ensures Run(o, d, rest, col + |ParamsText(ps)| + 1) == Run(o, c, s, col)
    decreases |s|
  {
    hide Run, Step, ValidRaw, IsName, ParamText;
    NotOver(o, c, s, col);
    StepOnValueEnd(o, c, s[0]);
    if s[0] == CLOSE {
      ps, rest, d := [], s[1..], c.(cs := ElementEnd);
    } else {
      var p, s1, c1 := ParamBack(o, c, s, col);
      ParamNotEmpty(p);
      var qs;
      qs, rest, d := ParamsBack(o, c1, s1, col + |ParamText(p)|);
      ps := [p] + qs;
      assert ps[1..] == qs;
      assert s == ParamText(p) + ParamsText(qs) + ([CLOSE] + rest);
    }
  }

  lemma ParamNotEmpty(p: Param)
    ensures |ParamText(p)| > 0
  {
  }

  lemma ElementBack(o: Options, c: Config, s: bytes, col: nat) returns (e: Element, rest: bytes, d: Config)
    requires c.cs == IdFirst && Run(o, c, s, col).Accepted?
    ensures IsName(e.id) && ValidParams(e.params) && e.id !in c.out.structuredData
    ensures [OPEN] + s == ElementText(e) + rest
    ensures d.cs == ElementEnd && d.token == []
    ensures d.out.structuredData.Keys == c.out.structuredData.Keys + {e.id}
    ensures d.out.message == c.out.message
    ensures Run(o, d, rest, col + |ElementText(e)| - 1) == Run(o, c, s, col)
  {
    hide Run, Step, IsName, ParamsText, ValidParams;
    var id, s1, c1 := IdBack(o, c, s, col);
    var ps;
    ps, rest, d := ParamsBack(o, c1, s1, col + |id|);
    e := Element(id, ps);
    assert [OPEN] + s == ([OPEN] + id + ParamsText(ps) + [CLOSE]) + rest;
  }

  // ------------------------------------------------------------------
  // MSG

  lemma {:induction false} TextTailBack(o: Options, c: Config, u: Utf8State, s: bytes, col: nat)
    returns (t: bytes, rest: bytes)
    requires u != Bad && c.cs == (if u == Ready then Text else TextTail(u))
    requires Run(o, c, s, col).Accepted?
    ensures CharTail(u, t) && s == t + rest
    ensures Run(o, c.(cs := Text, token := c.token + t), rest, col + |t|) == Run(o, c, s, col)
    decreases |s|
  {
    hide Run, Step;
    if u == Ready {
      t, rest := [], s;
    } else {
      NotOver(o, c, s, col);
      StepOnTextTail(o, c, u, s[0]);
      t, rest := TextTailBack(o, StepText(o, c, TailOctet(u, s[0]), s[0]).c, TailOctet(u, s[0]), s[1..], col + 1);
      assert ([s[0]] + t)[1..] == t;
      t := [s[0]] + t;
    }
    ReadTextTail(o, c, u, t, rest, col);
  }

  lemma {:induction false} TextBack(o: Options, c: Config, s: bytes, col: nat)
    requires c.cs == Text && Run(o, c, s, col).Accepted?
    ensures WellFormed(s)
    decreases |s|
  {
    hide Run, Step, CharLen;
    if s != [] {
      RunLive(o, c, s, col);
      StepOnText(o, c, s[0]);
      var t, rest := TextTailBack(o, StepText(o, c, LeadOctet(s[0]), s[0]).c, LeadOctet(s[0]), s[1..], col + 1);
      CharTailIsChar(s[0], t);
      var ch := [s[0]] + t;
      assert s == ch + rest;
      CharLenLocal(ch, rest);
      assert s[|ch|..] == rest;
      TextBack(o, c.(token := c.token + [s[0]] + t), rest, col + 1 + |t|);
    }
  }

  lemma MsgBack(o: Options, c: Config, m: bytes, col: nat)
    requires c.cs == MsgFirst && o.compliantMsg && Run(o, c, m, col).Accepted?
    ensures IsCompliant(m)
  {
    if BOM <= m {
      hide Run, Step, WellFormed;
      assert m[0] == BOM[0] && m[1] == BOM[1] && m[2] == BOM[2];
      RunLive(o, c, m, col);
      StepOnMsgFirst(o, c, m[0]);
      var c1 := Step(o, c, m[0]).c;
      RunLive(o, c1, m[1..], col + 1);
      StepOnBom(o, c1, m[1]);
      var c2 := Step(o, c1, m[1]).c;
      assert m[1..][1..] == m[2..];
      RunLive(o, c2, m[2..], col + 2);
      StepOnBom(o, c2, m[2]);
      assert m[2..][1..] == m[3..];
      TextBack(o, Step(o, c2, m[2]).c, m[3..], col + 3);
    }
  }

  lemma MsgPartBack(o: Options, c: Config, s: bytes, col: nat) returns (m: Option<bytes>)
    requires c.cs == SdNil || (c.cs == ElementEnd && (s == [] || s[0] != OPEN))
    requires Run(o, c, s, col).Accepted?
    ensures s == MsgText(m)
    ensures m.Some? && o.compliantMsg ==> IsCompliant(m.value)
  {
    hide Run, Step, IsCompliant;
    if s == [] {
      m := None;
    } else {
      RunLive(o, c, s, col);
      if c.cs == SdNil { StepOnSdNil(o, c, s[0]); } else { StepOnElementEnd(o, c, s[0]); }
      m := Some(s[1..]);
      assert s == [SP] + s[1..];
      if o.compliantMsg { MsgBack(o, Step(o, c, s[0]).c, s[1..], col + 1); }
    }
  }

  /** What follows an element: more of them, and the MSG. */
  lemma {:induction false} ElementsBack(o: Options, c: Config, s: bytes, col: nat)
    returns (es: seq<Element>, m: Option<bytes>)
    requires c.cs == ElementEnd && c.token == [] && Run(o, c, s, col).Accepted?
    ensures ValidElements(es) && Fresh(c.out.structuredData, es)
    ensures s == ElementsText(es) + MsgText(m)
    ensures m.Some? && o.compliantMsg ==> IsCompliant(m.value)
    decreases |s|
  {
    hide Run, Step, IsName, ElementText, ValidParams, IsCompliant, MsgText;
    if s == [] || s[0] != OPEN {
      m := MsgPartBack(o, c, s, col);
      es := [];
    } else {
      RunLive(o, c, s, col);
      StepOnElementEnd(o, c, s[0]);
      var e, rest, d := ElementBack(o, c.(cs := IdFirst), s[1..], col + 1);
      assert s == [OPEN] + s[1..];
      ElementNotEmpty(e);
      var fs;
      fs, m := ElementsBack(o, d, rest, col + |ElementText(e)|);
      es := [e] + fs;
      assert es[1..] == fs;
      forall i, j | 0 <= i < j < |es| ensures es[i].id != es[j].id {
        if i > 0 { assert es[i] == fs[i - 1]; }
      }
      assert s == ElementText(e) + ElementsText(fs) + MsgText(m);
    }
  }

  lemma ElementNotEmpty(e: Element)
    ensures |ElementText(e)| > 0
  {
  }

  lemma SdBack(o: Options, c: Config, s: bytes, col: nat) returns (es: seq<Element>, m: Option<bytes>)
    requires c.cs == SdFirst && c.token == [] && c.out.structuredData == map[]
    requires Run(o, c, s, col).Accepted?
    ensures ValidElements(es) && s == SdText(es) + MsgText(m)
    ensures m.Some? && o.compliantMsg ==> IsCompliant(m.value)
  {
    hide Run, Step, IsName, ElementText, ValidParams, IsCompliant, MsgText;
    NotOver(o, c, s, col);
    StepOnSdFirst(o, c, s[0]);
    if s[0] == DASH {
      es := [];
      m := MsgPartBack(o, c.(cs := SdNil), s[1..], col + 1);
    } else {
      var e, rest, d := ElementBack(o, c.(cs := IdFirst), s[1..], col + 1);
      var fs;
      fs, m := ElementsBack(o, d, rest, col + |ElementText(e)|);
      es := [e] + fs;
      assert es[1..] == fs;
      forall i, j | 0 <= i < j < |es| ensures es[i].id != es[j].id {
        if i > 0 { assert es[i] == fs[i - 1]; }
      }
      assert s == ElementText(e) + ElementsText(fs) + MsgText(m);
    }
  }

  // ------------------------------------------------------------------
  // The whole message

  lemma HeaderBack(o: Options, c: Config, s: bytes, col: nat) returns (t: Syntax, rest: bytes, d: Config)
    requires c.cs == Body && c.token == [] && c.out.timestamp == None && Run(o, c, s, col).Accepted?
    ensures ValidVersion(t.version) && ValidTime(t.time)
    ensures IsField(Hostname, t.hostname) && IsField(Appname, t.appname)
    ensures IsField(ProcID, t.procID) && IsField(MsgID, t.msgID)
    ensures s == HeaderText(t) + rest
    ensures d.cs == SdFirst && d.token == [] && d.out.structuredData == c.out.structuredData
    ensures d.out.hasElements == c.out.hasElements && d.out.message == c.out.message
    ensures Run(o, d, rest, col + |HeaderText(t)|) == Run(o, c, s, col)
  {
    hide Run, Step, IsField, TimestampText, FieldsText, Dec;
    var version, s1 := VersionBack(o, c, s, col);
    ReadVersion(o, c, version, s1, col);
    var c1 := c.(cs := TimeFirst, token := [], out := c.out.(version := version));
    var col1 := col + |Dec(version)| + 1;
    var time, s2 := TimeBack(o, c1, s1, col1);
    ReadTime(o, c1, time, s2, col1);
    var c2 := c1.(cs := FieldFirst(Hostname),
                  out := c1.out.(timestamp := if time.Some? then Some(time.value.Value()) else None));
    var f;
    f, rest, d := FieldsBack(o, c2, s2, col1 + |TimestampText(time)| + 1);
    t := f.(version := version, time := time);
    SameFields(f, t);
    assert s == HeaderText(t) + rest;
  }

  lemma SameFields(f: Syntax, t: Syntax)
    requires f.hostname == t.hostname && f.appname == t.appname && f.procID == t.procID && f.msgID == t.msgID
    ensures FieldsText(f) == FieldsText(t)
  {
  }

  lemma BodyBack(o: Options, c: Config, pri: Option<nat>, s: bytes, col: nat) returns (t: Syntax)
    requires c.cs == Body && c.token == [] && c.out.timestamp == None && c.out.structuredData == map[]
    requires Run(o, c, s, col).Accepted?
    requires if pri.Some? then ValidPriority(pri.value) else o.optionalPriority
    ensures ValidSyntax(o, t) && t.pri == pri && SyntaxText(o, t) == PriText(pri) + s
  {
    hide Run, Step, IsField, ValidElements, SdText, MsgText, FieldsText, TimestampText, IsCompliant, Dec;
    var h, rest, d := HeaderBack(o, c, s, col);
    var es, m := SdBack(o, d, rest, col + |HeaderText(h)|);
    t := h.(pri := pri, elements := es, msg := m);
    SameFields(h, t);
  }

  lemma AcceptedStart(o: Options, s: bytes)
    requires Parse(o, s).Accepted?
    ensures if Initial(o, s, [], []).cs == Start then s != [] && s[0] == LT
            else o.optionalPriority && (s == [] || s[0] != LT)
  {
    var c := Initial(o, s, [], []);
    if c.cs == Start {
      NotOver(o, c, s, 0);
      StepOnStart(o, c, s[0]);
    }
  }

  /** The tree of an accepted input. */
  lemma Tree(o: Options, s: bytes) returns (t: Syntax)
    requires Parse(o, s).Accepted?
    ensures ValidSyntax(o, t) && SyntaxText(o, t) == s
    ensures Parse(o, s) == Accepted(Meaning(o, t))
  {
    hide Run, Step, ValidSyntax, SyntaxText, Meaning;
    var c := Initial(o, s, [], []);
    AcceptedStart(o, s);
    if c.cs == Start {
      NotOver(o, c, s, 0);
      StepOnStart(o, c, s[0]);
      var c1 := c.(cs := PriFirst);
      var pri, rest, _ := PrivalBack(o, c1, s[1..], 1);
      ReadPrival(o, c1, pri, rest, 1);
      t := BodyBack(o, c1.(cs := Body, token := [], out := c1.out.(priority := pri, prioritySet := true)), Some(pri),
                    rest, 1 + |Dec(pri)| + 1);
      assert s == PriText(Some(pri)) + rest;
    } else {
      t := BodyBack(o, c, None, s, 0);
      assert s == PriText(None) + s;
    }
    ParseText(o, t);
  }

  /** The parser accepts exactly the texts of syntax trees, and returns what they mean. */
  lemma ParseIsGrammar(o: Options, s: bytes, out: Draft)
    ensures Parse(o, s) == Accepted(out)
       <==> exists t: Syntax :: ValidSyntax(o, t) && SyntaxText(o, t) == s && Meaning(o, t) == out
  {
    hide ValidSyntax, SyntaxText, Meaning, Parse;
    if Parse(o, s) == Accepted(out) {
      var t := Tree(o, s);
    }
    if exists t: Syntax :: ValidSyntax(o, t) && SyntaxText(o, t) == s && Meaning(o, t) == out {
      var t: Syntax :| ValidSyntax(o, t) && SyntaxText(o, t) == s && Meaning(o, t) == out;
      ParseText(o, t);
    }
  }
}
