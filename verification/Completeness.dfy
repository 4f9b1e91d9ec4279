/** The automaton reads the text of every syntax tree, and what it stores is its meaning. */
module Completeness {
  import opened Bytes
  import opened Utf8
  import opened Functions
  import opened Escaping
  import opened Timestamps
  import opened Messages
  import opened Automaton
  import opened Grammar

  // ------------------------------------------------------------------
  // PRI and VERSION

  lemma DecDigits(n: nat)
    requires n < 1000
    ensures n < 10 ==> Dec(n) == [48 + n]
    ensures 10 <= n < 100 ==> Dec(n) == [48 + n / 10, 48 + n % 10]
    ensures 100 <= n ==> Dec(n) == [48 + n / 100, 48 + n / 10 % 10, 48 + n % 10]
  {
  }

  predicate IsPri(cs: State) {
    cs in {PriLast, PriOne, PriTwo, PriNineteen}
  }

  /** The digits that may follow in a PRIVAL. */
  predicate PriPath(cs: State, v: bytes)
    decreases |v|
  {
    v == [] || (PriNext(cs, v[0]).Some? && PriPath(PriNext(cs, v[0]).value, v[1..]))
  }

  function PriEntry(b: byte): State {
    if b == 48 then PriLast else if b == 49 then PriOne else PriTwo
  }

  lemma PriPath1(cs: State, b: byte)
    requires PriNext(cs, b).Some?
    ensures PriPath(cs, [b])
  {
    assert [b][1..] == [];
  }

  lemma PriPath2(cs: State, a: byte, b: byte)
    requires PriNext(cs, a).Some? && PriNext(PriNext(cs, a).value, b).Some?
    ensures PriPath(cs, [a, b])
  {
    assert [a, b][1..] == [b];
    PriPath1(PriNext(cs, a).value, b);
  }

  /** The states of the PRIVAL let the numerals of 0..191 pass. */
  lemma PriDigits(n: nat)
    requires ValidPriority(n)
    ensures Num(Dec(n)) == n && AllDigits(Dec(n)) && Dec(n) != []
    ensures PriPath(PriEntry(Dec(n)[0]), Dec(n)[1..])
  {
    DecDigits(n);
    NumDec(n);
    var d := Dec(n);
    if n < 10 {
      assert d[1..] == [];
    } else if n < 100 {
      assert d[1..] == [d[1]];
      PriPath1(PriEntry(d[0]), d[1]);
    } else {
      assert d[1..] == [d[1], d[2]];
      PriPath2(PriEntry(d[0]), d[1], d[2]);
    }
  }

  lemma ReadPri(o: Options, c: Config, pri: nat, rest: bytes, col: nat)
    requires c.cs == Start && ValidPriority(pri)
    ensures Run(o, c, PriText(Some(pri)) + rest, col)
         == Run(o, c.(cs := Body, token := [], out := c.out.(priority := pri, prioritySet := true)), rest,
                col + |PriText(Some(pri))|)
  {
    hide Run, Step, Dec;
    var d := Dec(pri);
    assert PriText(Some(pri)) + rest == [LT] + (d + [GT] + rest);
    RunHead(o, c, LT, d + [GT] + rest, col);
    StepOnStart(o, c, LT);
    ReadPrival(o, c.(cs := PriFirst), pri, rest, col + 1);
  }

  lemma ReadPrival(o: Options, c: Config, pri: nat, rest: bytes, col: nat)
    requires c.cs == PriFirst && ValidPriority(pri)
    ensures Run(o, c, Dec(pri) + [GT] + rest, col)
         == Run(o, c.(cs := Body, token := [], out := c.out.(priority := pri, prioritySet := true)), rest,
                col + |Dec(pri)| + 1)
  {
    hide Run, Step, Dec, Num, PriPath;
    var d := Dec(pri);
    PriDigits(pri);
    assert d + [GT] + rest == [d[0]] + (d[1..] + [GT] + rest);
    RunHead(o, c, d[0], d[1..] + [GT] + rest, col);
    StepOnPriFirst(o, c, d[0]);
    ReadPriRest(o, c.(cs := PriEntry(d[0]), token := [d[0]]), d[1..], rest, col + 1);
    assert [d[0]] + d[1..] == d;
  }

  lemma {:induction false} ReadPriRest(o: Options, c: Config, v: bytes, rest: bytes, col: nat)
    requires IsPri(c.cs) && AllDigits(v) && PriPath(c.cs, v)
    ensures Run(o, c, v + [GT] + rest, col)
         == Run(o, c.(cs := Body, token := [], out := SetPrival(c.(token := c.token + v))), rest, col + |v| + 1)
    decreases |v|
  {
    hide Run, Step, Num;
    if v == [] {
      StepOnPri(o, c, GT);
      assert v + [GT] + rest == [GT] + rest;
      assert c.token + v == c.token;
      RunHead(o, c, GT, rest, col);
    } else {
      StepOnPri(o, c, v[0]);
      assert v + [GT] + rest == [v[0]] + (v[1..] + [GT] + rest);
      RunHead(o, c, v[0], v[1..] + [GT] + rest, col);
      assert c.token + [v[0]] + v[1..] == c.token + v;
      ReadPriRest(o, StepPri(c, v[0]).c, v[1..], rest, col + 1);
    }
  }

  lemma {:induction false} ReadVersionRest(o: Options, c: Config, n: nat, v: bytes, rest: bytes, col: nat)
    requires c.cs == Version(n) && n + |v| <= 3 && AllDigits(v)
    ensures Run(o, c, v + [SP] + rest, col)
         == Run(o, c.(cs := TimeFirst, token := [], out := SetVersion(c.(token := c.token + v))), rest, col + |v| + 1)
    decreases |v|
  {
    hide Run, Step, Num;
    if v == [] {
      StepOnVersion(o, c, n, SP);
      assert v + [SP] + rest == [SP] + rest;
      assert c.token + v == c.token;
      RunHead(o, c, SP, rest, col);
    } else {
      StepOnVersion(o, c, n, v[0]);
      assert v + [SP] + rest == [v[0]] + (v[1..] + [SP] + rest);
      RunHead(o, c, v[0], v[1..] + [SP] + rest, col);
      assert c.token + [v[0]] + v[1..] == c.token + v;
      ReadVersionRest(o, StepVersion(c, n, v[0]).c, n + 1, v[1..], rest, col + 1);
    }
  }

  /** The numerals of 1..999. */
  lemma VersionDigits(n: nat)
    requires ValidVersion(n)
    ensures 1 <= |Dec(n)| <= 3 && Num(Dec(n)) == n && AllDigits(Dec(n)) && Dec(n)[0] != 48
  {
    DecDigits(n);
    NumDec(n);
  }

  lemma ReadVersion(o: Options, c: Config, version: nat, rest: bytes, col: nat)
    requires c.cs == Body && ValidVersion(version)
    ensures Run(o, c, (Dec(version) + [SP]) + rest, col)
         == Run(o, c.(cs := TimeFirst, token := [], out := c.out.(version := version)), rest,
                col + |Dec(version)| + 1)
  {
    hide Run, Step, Dec, Num;
    VersionDigits(version);
    var d := Dec(version);
    assert d + [SP] + rest == [d[0]] + (d[1..] + [SP] + rest);
    RunHead(o, c, d[0], d[1..] + [SP] + rest, col);
    StepOnBody(o, c, d[0]);
    assert [d[0]] + d[1..] == d;
    ReadVersionRest(o, c.(cs := Version(1), token := [d[0]]), 1, d[1..], rest, col + 1);
  }

  // ------------------------------------------------------------------
  // TIMESTAMP

  lemma {:induction false} ReadTimeRest(o: Options, c: Config, n: int, v: bytes, rest: bytes, col: nat)
    requires c.cs == Time(n) && ParserRun(n, v) == 578
    ensures Run(o, c, v + rest, col) == Run(o, c.(cs := Time(578), token := c.token + v), rest, col + |v|)
    decreases |v|
  {
    hide Run, Step, ParserNext;
    if v == [] {
      assert v + rest == rest && c.token + v == c.token;
    } else {
      if n == 578 { Ended(v); }
      Peel(n, v);
      StepOnTime(o, c, n, v[0]);
      assert v + rest == [v[0]] + (v[1..] + rest);
      RunHead(o, c, v[0], v[1..] + rest, col);
      var m := ParserNext(n, v[0]);
      assert c.token + [v[0]] + v[1..] == c.token + v;
      ReadTimeRest(o, c.(cs := Time(m), token := c.token + [v[0]]), m, v[1..], rest, col + 1);
    }
  }

  lemma ReadStamp(o: Options, c: Config, st: Stamp, rest: bytes, col: nat)
    requires c.cs == TimeFirst && ValidTime(Some(st))
    ensures Run(o, c, StampText(st) + [SP] + rest, col)
         == Run(o, c.(cs := FieldFirst(Hostname), token := [], out := c.out.(timestamp := Some(st.Value()))), rest,
                col + |StampText(st)| + 1)
  {
    hide Run, Step, ParserNext, ParseTime, StampText;
    var v := StampText(st);
    StampForward(st);
    ParseStamp(st);
    StampFirst(v);
    assert v + [SP] + rest == [v[0]] + (v[1..] + ([SP] + rest));
    RunHead(o, c, v[0], v[1..] + ([SP] + rest), col);
    StepOnTimeFirst(o, c, v[0]);
    var c1 := c.(cs := Time(554), token := [v[0]]);
    ReadTimeRest(o, c1, 554, v[1..], [SP] + rest, col + 1);
    assert [v[0]] + v[1..] == v;
    FinishStamp(o, c1.(cs := Time(578), token := v), st.Value(), rest, col + |v|);
  }

  lemma StampFirst(v: bytes)
    requires ParserRun(6, v) == 578
    ensures v != [] && IsDigit(v[0]) && ParserRun(554, v[1..]) == 578
  {
    Peel(6, v);
  }

  lemma FinishStamp(o: Options, c: Config, t: Timestamp, rest: bytes, col: nat)
    requires c.cs == Time(578) && ParseTime(c.token) == Some(t)
    ensures Run(o, c, [SP] + rest, col)
         == Run(o, c.(cs := FieldFirst(Hostname), token := [], out := c.out.(timestamp := Some(t))), rest, col + 1)
  {
    hide Run, Step, ParserNext, ParseTime;
    StepOnTime(o, c, 578, SP);
    RunHead(o, c, SP, rest, col);
  }

  lemma ReadTime(o: Options, c: Config, t: Option<Stamp>, rest: bytes, col: nat)
    requires c.cs == TimeFirst && ValidTime(t) && c.token == []
    requires c.out.timestamp == None
    ensures Run(o, c, TimestampText(t) + [SP] + rest, col)
         == Run(o, c.(cs := FieldFirst(Hostname),
                      out := c.out.(timestamp := if t.Some? then Some(t.value.Value()) else None)), rest,
                col + |TimestampText(t)| + 1)
  {
    hide Run, Step, StampText;
    if t.Some? {
      ReadStamp(o, c, t.value, rest, col);
    } else {
      assert [DASH] + [SP] + rest == [DASH] + ([SP] + rest);
      RunHead(o, c, DASH, [SP] + rest, col);
      StepOnTimeFirst(o, c, DASH);
      RunHead(o, c.(cs := TimeNil), SP, rest, col + 1);
      StepOnTimeNil(o, c.(cs := TimeNil), SP);
    }
  }

  // ------------------------------------------------------------------
  // HOSTNAME, APP-NAME, PROCID, MSGID

  lemma {:induction false} ReadFieldRest(o: Options, c: Config, f: Field, n: nat, v: bytes, rest: bytes, col: nat)
    requires c.cs == FieldRest(f, n) && n + |v| <= MaxLength(f) && AllGraph(v)
    ensures Run(o, c, v + [SP] + rest, col)
         == Run(o, c.(cs := AfterField(f), token := [], out := SetField(c.out, f, c.token + v)), rest, col + |v| + 1)
    decreases |v|
  {
    hide Run, Step, SetField, AfterField;
    if v == [] {
      StepOnField(o, c, f, n, SP);
      assert v + [SP] + rest == [SP] + rest;
      assert c.token + v == c.token;
      RunHead(o, c, SP, rest, col);
    } else {
      StepOnField(o, c, f, n, v[0]);
      assert v + [SP] + rest == [v[0]] + (v[1..] + [SP] + rest);
      RunHead(o, c, v[0], v[1..] + [SP] + rest, col);
      assert c.token + [v[0]] + v[1..] == c.token + v;
      ReadFieldRest(o, c.(cs := FieldRest(f, n + 1), token := c.token + [v[0]]), f, n + 1, v[1..], rest, col + 1);
    }
  }

  lemma ReadField(o: Options, c: Config, f: Field, v: bytes, rest: bytes, col: nat)
    requires c.cs == FieldFirst(f) && IsField(f, v)
    ensures Run(o, c, (v + [SP]) + rest, col)
         == Run(o, c.(cs := AfterField(f), token := [], out := SetField(c.out, f, v)), rest, col + |v| + 1)
  {
    hide Run, Step, SetField, AfterField;
    assert (v + [SP]) + rest == [v[0]] + (v[1..] + [SP] + rest);
    RunHead(o, c, v[0], v[1..] + [SP] + rest, col);
    StepOnFieldFirst(o, c, f, v[0]);
    assert [v[0]] + v[1..] == v;
    ReadFieldRest(o, c.(cs := FieldRest(f, 1), token := [v[0]]), f, 1, v[1..], rest, col + 1);
  }

  lemma FieldsSplit(t: Syntax, rest: bytes)
    ensures FieldsText(t) + rest
         == (t.hostname + [SP]) + ((t.appname + [SP]) + ((t.procID + [SP]) + ((t.msgID + [SP]) + rest)))
  {
  }

  lemma ReadFields(o: Options, c: Config, t: Syntax, rest: bytes, col: nat)
    requires c.cs == FieldFirst(Hostname) && c.token == []
    requires IsField(Hostname, t.hostname) && IsField(Appname, t.appname)
    requires IsField(ProcID, t.procID) && IsField(MsgID, t.msgID)
    ensures Run(o, c, FieldsText(t) + rest, col)
         == Run(o, c.(cs := SdFirst,
                      out := c.out.(hostname := t.hostname, appname := t.appname, procID := t.procID, msgID := t.msgID)),
                rest, col + |FieldsText(t)|)
  {
    hide Run, Step, IsField;
    var h, a, p, m := t.hostname + [SP], t.appname + [SP], t.procID + [SP], t.msgID + [SP];
    var c1 := c.(cs := FieldFirst(Appname), out := c.out.(hostname := t.hostname));
    var c2 := c1.(cs := FieldFirst(ProcID), out := c1.out.(appname := t.appname));
    var c3 := c2.(cs := FieldFirst(MsgID), out := c2.out.(procID := t.procID));
    FieldsSplit(t, rest);
    ReadField(o, c, Hostname, t.hostname, a + (p + (m + rest)), col);
    ReadField(o, c1, Appname, t.appname, p + (m + rest), col + |h|);
    ReadField(o, c2, ProcID, t.procID, m + rest, col + |h| + |a|);
    ReadField(o, c3, MsgID, t.msgID, rest, col + |h| + |a| + |p|);
  }

  // ------------------------------------------------------------------
  // STRUCTURED-DATA

  lemma {:induction false} ReadIdRest(o: Options, c: Config, n: nat, v: bytes, rest: bytes, col: nat)
    requires c.cs == IdRest(n) && n + |v| <= 32 && AllNameChars(v)
    ensures Run(o, c, v + rest, col) == Run(o, c.(cs := IdRest(n + |v|), token := c.token + v), rest, col + |v|)
    decreases |v|
  {
    hide Run, Step;
    if v == [] {
      assert v + rest == rest && c.token + v == c.token;
    } else {
      StepOnId(o, c, n, v[0]);
      assert v + rest == [v[0]] + (v[1..] + rest);
      RunHead(o, c, v[0], v[1..] + rest, col);
      assert c.token + [v[0]] + v[1..] == c.token + v;
      ReadIdRest(o, c.(cs := IdRest(n + 1), token := c.token + [v[0]]), n + 1, v[1..], rest, col + 1);
    }
  }

  lemma {:induction false} ReadNameRest(o: Options, c: Config, n: nat, v: bytes, rest: bytes, col: nat)
    requires c.cs == NameRest(n) && n + |v| <= 32 && AllNameChars(v)
    ensures Run(o, c, v + rest, col) == Run(o, c.(cs := NameRest(n + |v|), token := c.token + v), rest, col + |v|)
    decreases |v|
  {
    hide Run, Step;
    if v == [] {
      assert v + rest == rest && c.token + v == c.token;
    } else {
      StepOnName(o, c, n, v[0]);
      assert v + rest == [v[0]] + (v[1..] + rest);
      RunHead(o, c, v[0], v[1..] + rest, col);
      assert c.token + [v[0]] + v[1..] == c.token + v;
      ReadNameRest(o, c.(cs := NameRest(n + 1), token := c.token + [v[0]]), n + 1, v[1..], rest, col + 1);
    }
  }

  /** From the space before a parameter name to the quote after the equals sign. */
  lemma ReadName(o: Options, c: Config, name: bytes, rest: bytes, col: nat)
    requires c.cs == NameFirst && IsName(name)
    ensures Run(o, c, name + ([EQ, DQ] + rest), col)
         == Run(o, c.(cs := ValueFirst, token := [], backslashes := [], param := name), rest, col + |name| + 2)
  {
    hide Run, Step;
    var n := |name|;
    assert name + ([EQ, DQ] + rest) == [name[0]] + (name[1..] + ([EQ, DQ] + rest));
    RunHead(o, c, name[0], name[1..] + ([EQ, DQ] + rest), col);
    StepOnNameFirst(o, c, name[0]);
    var c1 := c.(cs := NameRest(1), token := [name[0]], backslashes := []);
    ReadNameRest(o, c1, 1, name[1..], [EQ, DQ] + rest, col + 1);
    assert [name[0]] + name[1..] == name;
    var c2 := c1.(cs := NameRest(n), token := name);
    assert [EQ, DQ] + rest == [EQ] + ([DQ] + rest);
    RunHead(o, c2, EQ, [DQ] + rest, col + n);
    StepOnName(o, c2, n, EQ);
    var c3 := c2.(cs := NameEnd, token := [], param := name);
    RunHead(o, c3, DQ, rest, col + n + 1);
    StepOnNameEnd(o, c3, DQ);
  }

  lemma {:induction false} ReadValueTail(o: Options, c: Config, u: Utf8State, t: bytes, rest: bytes, col: nat)
    requires c.cs == (if u == Ready then Value else ValueTail(u)) && CharTail(u, t)
    ensures Run(o, c, t + rest, col) == Run(o, c.(cs := Value, token := c.token + t), rest, col + |t|)
    decreases |t|
  {
    hide Run, Step;
    if u == Ready {
      assert t + rest == rest && c.token + t == c.token;
    } else {
      StepOnValueTail(o, c, u, t[0]);
      assert t + rest == [t[0]] + (t[1..] + rest);
      RunHead(o, c, t[0], t[1..] + rest, col);
      assert c.token + [t[0]] + t[1..] == c.token + t;
      ReadValueTail(o, StepValueTail(c, u, t[0]).c, TailOctet(u, t[0]), t[1..], rest, col + 1);
    }
  }

  /** One escape pair or one unescaped character. */
  lemma ReadUnit(o: Options, c: Config, w: bytes, rest: bytes, col: nat)
    requires c.cs == Value && UnitLen(w) == |w| > 0
    ensures Run(o, c, w + rest, col)
         == Run(o, c.(token := c.token + w,
                      backslashes := c.backslashes + if w[0] == SLASH then [|c.token|] else []), rest, col + |w|)
  {
    hide Run, Step;
    assert w + rest == [w[0]] + (w[1..] + rest);
    RunHead(o, c, w[0], w[1..] + rest, col);
    StepOnValue(o, c, w[0]);
    var c1 := StepValue(c, w[0]).c;
    if w[0] == SLASH {
      assert w[1..] + rest == [w[1]] + rest;
      RunHead(o, c1, w[1], rest, col + 1);
      StepOnValueEscape(o, c1, w[1]);
      assert c.token + [w[0]] + [w[1]] == c.token + w;
    } else {
      CharHasTail(w);
      hide CharLen;
      assert w[1..|w|] == w[1..];
      ReadValueTail(o, c1, LeadOctet(w[0]), w[1..], rest, col + 1);
      assert c.token + [w[0]] + w[1..] == c.token + w;
      assert c.backslashes + [] == c.backslashes;
    }
  }

  lemma RawUnit(w: bytes, base: int)
    requires ValidRaw(w) && w != []
    ensures UnitLen(w) > 0 && ValidRaw(w[UnitLen(w)..])
    ensures Slashes(w, base) == (if w[0] == SLASH then [base] else []) + Slashes(w[UnitLen(w)..], base + UnitLen(w))
  {
  }

  lemma {:induction false} ReadRaw(o: Options, c: Config, w: bytes, rest: bytes, col: nat)
    requires c.cs == Value && ValidRaw(w)
    ensures Run(o, c, w + rest, col)
         == Run(o, c.(token := c.token + w, backslashes := c.backslashes + Slashes(w, |c.token|)), rest, col + |w|)
    decreases |w|
  {
    hide Run, Step, UnitLen, ValidRaw, Slashes;
    if w == [] {
      assert w + rest == rest && c.token + w == c.token;
      NoSlashes(w, |c.token|);
      assert c.backslashes + [] == c.backslashes;
    } else {
      RawUnit(w, |c.token|);
      var n := UnitLen(w);
      UnitAlone(w);
      var u, v := w[..n], w[n..];
      assert w == u + v;
      assert (u + v) + rest == u + (v + rest);
      ReadUnit(o, c, u, v + rest, col);
      var ps := if w[0] == SLASH then [|c.token|] else [];
      var c1 := c.(token := c.token + u, backslashes := c.backslashes + ps);
      ReadRaw(o, c1, v, rest, col + n);
      assert (c.token + u) + v == c.token + (u + v);
      var qs := Slashes(v, |c1.token|);
      assert (c.backslashes + ps) + qs == c.backslashes + (ps + qs);
    }
  }

  lemma NoSlashes(w: bytes, base: int)
    requires w == []
    ensures ValidRaw(w) && Slashes(w, base) == []
  {
  }

  /** A raw value and its closing quote store the value it stands for. */
  lemma ReadValue(o: Options, c: Config, w: bytes, rest: bytes, col: nat) returns (d: Config)
    requires c.cs == ValueFirst && c.backslashes == [] && ValidRaw(w)
    ensures d.cs == ValueEnd && d.token == [] && d.elem == c.elem
    ensures d.out == SetParam(c.out, c.elem, c.param, Unescape(w))
    ensures Run(o, c, w + ([DQ] + rest), col) == Run(o, d, rest, col + |w| + 1)
  {
    hide Run, Step, Slashes, Unescape, ValidRaw;
    var c1 := c.(cs := Value, token := []);
    ValueFirstIsValue(o, c, w + ([DQ] + rest), col);
    ReadRaw(o, c1, w, [DQ] + rest, col);
    assert [] + w == w;
    var ps := Slashes(w, 0);
    assert [] + ps == ps;
    var c2 := c1.(token := w, backslashes := ps);
    RunHead(o, c2, DQ, rest, col + |w|);
    StepOnValue(o, c2, DQ);
    RemovalUnescapes(w, 0);
    if ps == [] { WithoutNone(w, ps, 0); }
    d := StepValue(c2, DQ).c;
  }

  lemma ValueFirstIsValue(o: Options, c: Config, s: bytes, col: nat)
    requires c.cs == ValueFirst && s != []
    ensures Run(o, c, s, col) == Run(o, c.(cs := Value, token := []), s, col)
  {
    hide Run, Step;
    var c1 := c.(cs := Value, token := []);
    assert s == [s[0]] + s[1..];
    RunHead(o, c, s[0], s[1..], col);
    RunHead(o, c1, s[0], s[1..], col);
    StepOnValueFirst(o, c, s[0]);
    StepOnValue(o, c1, s[0]);
    SameStepValue(c.(token := []), c1, s[0]);
  }

  lemma SameStepValue(c: Config, d: Config, b: byte)
    requires d == c.(cs := Value)
    ensures StepValue(c, b) == StepValue(d, b)
  {
  }

  /** Everything of a structured data element between its parameters. */
  ghost predicate AtEnd(c: Config, d: Config, cs: State, sd: StructuredData) {
    && d.cs == cs && d.token == [] && d.elem == c.elem
    && d.out == c.out.(structuredData := sd)
  }

  lemma ReadParam(o: Options, c: Config, p: Param, rest: bytes, col: nat) returns (d: Config)
    requires c.cs == ValueEnd && c.token == [] && c.elem in c.out.structuredData
    requires IsName(p.name) && ValidRaw(p.raw)
    ensures AtEnd(c, d, ValueEnd,
                  c.out.structuredData[c.elem := c.out.structuredData[c.elem][p.name := Unescape(p.raw)]])
    ensures Run(o, c, ParamText(p) + rest, col) == Run(o, d, rest, col + |ParamText(p)|)
  {
    hide Run, Step, Unescape, ValidRaw, IsName;
    var tail := p.raw + ([DQ] + rest);
    assert ParamText(p) + rest == [SP] + (p.name + ([EQ, DQ] + tail));
    RunHead(o, c, SP, p.name + ([EQ, DQ] + tail), col);
    StepOnValueEnd(o, c, SP);
    var c1 := c.(cs := NameFirst);
    ReadName(o, c1, p.name, tail, col + 1);
    var c2 := c1.(cs := ValueFirst, backslashes := [], param := p.name);
    d := ReadValue(o, c2, p.raw, rest, col + |p.name| + 3);
  }

  lemma {:induction false} ReadParams(o: Options, c: Config, ps: seq<Param>, rest: bytes, col: nat) returns (d: Config)
    requires c.cs == ValueEnd && c.token == [] && c.elem in c.out.structuredData
    requires ValidParams(ps)
    ensures AtEnd(c, d, ValueEnd, c.out.structuredData[c.elem := AddParams(c.out.structuredData[c.elem], ps)])
    ensures Run(o, c, ParamsText(ps) + rest, col) == Run(o, d, rest, col + |ParamsText(ps)|)
    decreases |ps|
  {
    hide Run, Unescape, ValidRaw, IsName, ParamText;
    var sd := c.out.structuredData;
    if ps == [] {
      d := c;
      assert ParamsText(ps) + rest == rest;
      assert sd[c.elem := sd[c.elem]] == sd;
    } else {
      assert ParamsText(ps) + rest == ParamText(ps[0]) + (ParamsText(ps[1..]) + rest);
      var c1 := ReadParam(o, c, ps[0], ParamsText(ps[1..]) + rest, col);
      d := ReadParams(o, c1, ps[1..], rest, col + |ParamText(ps[0])|);
      var m := sd[c.elem][ps[0].name := Unescape(ps[0].raw)];
      assert c1.out.structuredData[c.elem] == m;
      assert sd[c.elem := m][c.elem := AddParams(m, ps[1..])] == sd[c.elem := AddParams(m, ps[1..])];
    }
  }

  /** After its identifier an element goes on like after a parameter. */
  lemma IdThenParams(o: Options, c: Config, n: nat, s: bytes, col: nat)
    requires c.cs == IdRest(n) && s != [] && (s[0] == SP || s[0] == CLOSE)
    requires c.token !in c.out.structuredData
    ensures Run(o, c, s, col)
         == Run(o, c.(cs := ValueEnd, token := [], elem := c.token, out := NewElement(c.out, c.token)), s, col)
  {
    hide Run, Step;
    var d := c.(cs := ValueEnd, token := [], elem := c.token, out := NewElement(c.out, c.token));
    assert s == [s[0]] + s[1..];
    RunHead(o, c, s[0], s[1..], col);
    RunHead(o, d, s[0], s[1..], col);
    StepOnId(o, c, n, s[0]);
    StepOnValueEnd(o, d, s[0]);
  }

  lemma ParamsHead(ps: seq<Param>, rest: bytes)
    ensures var s := ParamsText(ps) + ([CLOSE] + rest);
            s != [] && (s[0] == SP || s[0] == CLOSE)
  {
    if ps != [] { assert ParamsText(ps)[0] == SP; }
  }

  lemma ReadId(o: Options, c: Config, id: bytes, rest: bytes, col: nat) returns (d: Config)
    requires c.cs == IdFirst && IsName(id) && id !in c.out.structuredData
    requires rest != [] && (rest[0] == SP || rest[0] == CLOSE)
    ensures d == c.(cs := ValueEnd, token := [], elem := id, out := NewElement(c.out, id))
    ensures Run(o, c, id + rest, col) == Run(o, d, rest, col + |id|)
  {
    hide Run, Step;
    assert id + rest == [id[0]] + (id[1..] + rest);
    RunHead(o, c, id[0], id[1..] + rest, col);
    StepOnIdFirst(o, c, id[0]);
    var c1 := c.(cs := IdRest(1), token := [id[0]]);
    ReadIdRest(o, c1, 1, id[1..], rest, col + 1);
    assert [id[0]] + id[1..] == id;
    var c2 := c1.(cs := IdRest(|id|), token := id);
    IdThenParams(o, c2, |id|, rest, col + |id|);
    d := c2.(cs := ValueEnd, token := [], elem := id, out := NewElement(c2.out, id));
  }

  lemma NewThenParams(out: Draft, id: bytes, m: Params)
    ensures id in NewElement(out, id).structuredData && NewElement(out, id).structuredData[id] == map[]
    ensures NewElement(out, id).(structuredData := NewElement(out, id).structuredData[id := m])
         == out.(hasElements := true, structuredData := out.structuredData[id := m])
  {
    assert out.structuredData[id := map[]][id := m] == out.structuredData[id := m];
  }

  lemma ReadElement(o: Options, c: Config, e: Element, rest: bytes, col: nat) returns (d: Config)
    requires c.cs == IdFirst && IsName(e.id) && ValidParams(e.params)
    requires e.id !in c.out.structuredData
    ensures d.cs == ElementEnd && d.token == []
    ensures d.out == c.out.(hasElements := true,
                            structuredData := c.out.structuredData[e.id := AddParams(map[], e.params)])
    ensures Run(o, c, e.id + (ParamsText(e.params) + ([CLOSE] + rest)), col)
         == Run(o, d, rest, col + |e.id| + |ParamsText(e.params)| + 1)
  {
    hide Run, Step, IsName, AddParams, ParamsText, ValidParams, NewElement;
    NewThenParams(c.out, e.id, AddParams(map[], e.params));
    var tail := ParamsText(e.params) + ([CLOSE] + rest);
    ParamsHead(e.params, rest);
    var c1 := ReadId(o, c, e.id, tail, col);
    var c2 := ReadParams(o, c1, e.params, [CLOSE] + rest, col + |e.id|);
    RunHead(o, c2, CLOSE, rest, col + |e.id| + |ParamsText(e.params)|);
    StepOnValueEnd(o, c2, CLOSE);
    d := c2.(cs := ElementEnd);
  }

  /** The identifiers of es are new to the structured data. */
  ghost predicate Fresh(sd: StructuredData, es: seq<Element>) {
    forall i :: 0 <= i < |es| ==> es[i].id !in sd
  }

  lemma {:induction false} ReadElements(o: Options, c: Config, es: seq<Element>, rest: bytes, col: nat) returns (d: Config)
    requires c.cs == ElementEnd && c.token == [] && ValidElements(es) && Fresh(c.out.structuredData, es)
    ensures d.cs == ElementEnd && d.token == []
    ensures d.out == c.out.(hasElements := c.out.hasElements || es != [],
                            structuredData := AddElements(c.out.structuredData, es))
    ensures Run(o, c, ElementsText(es) + rest, col) == Run(o, d, rest, col + |ElementsText(es)|)
    decreases |es|
  {
    hide Run, Step, IsName, ElementText;
    if es == [] {
      d := c;
      assert ElementsText(es) + rest == rest;
    } else {
      var more := ElementsText(es[1..]) + rest;
      var e := es[0];
      ElementSplit(es, rest);
      RunHead(o, c, OPEN, e.id + (ParamsText(e.params) + ([CLOSE] + more)), col);
      StepOnElementEnd(o, c, OPEN);
      var c1 := ReadElement(o, c.(cs := IdFirst), e, more, col + 1);
      d := ReadElements(o, c1, es[1..], rest, col + |ElementText(e)|);
    }
  }

  lemma ElementSplit(es: seq<Element>, rest: bytes)
    requires es != []
    ensures ElementsText(es) + rest
         == [OPEN] + (es[0].id + (ParamsText(es[0].params) + ([CLOSE] + (ElementsText(es[1..]) + rest))))
    ensures |ElementText(es[0])| == |es[0].id| + |ParamsText(es[0].params)| + 2
  {
    hide ParamsText;
    var id, ps, more := es[0].id, ParamsText(es[0].params), ElementsText(es[1..]);
    assert ([OPEN] + id + ps + [CLOSE]) + more + rest == [OPEN] + (id + (ps + ([CLOSE] + (more + rest))));
  }

  /** The SD part, up to the space of the MSG or the end of the input. */
  lemma ReadSd(o: Options, c: Config, es: seq<Element>, rest: bytes, col: nat) returns (d: Config)
    requires c.cs == SdFirst && c.token == [] && ValidElements(es)
    requires c.out.structuredData == map[] && !c.out.hasElements
    ensures d.cs == (if es == [] then SdNil else ElementEnd) && d.token == []
    ensures d.out == c.out.(hasElements := es != [], structuredData := AddElements(map[], es))
    ensures Run(o, c, SdText(es) + rest, col) == Run(o, d, rest, col + |SdText(es)|)
  {
    hide Run, Step, IsName, ElementText;
    if es == [] {
      RunHead(o, c, DASH, rest, col);
      StepOnSdFirst(o, c, DASH);
      d := c.(cs := SdNil);
    } else {
      var c1 := c.(cs := ElementEnd);
      d := ReadElements(o, c1, es, rest, col);
      ElementSplit(es, rest);
      var tail := es[0].id + (ParamsText(es[0].params) + ([CLOSE] + (ElementsText(es[1..]) + rest)));
      RunHead(o, c, OPEN, tail, col);
      RunHead(o, c1, OPEN, tail, col);
      StepOnSdFirst(o, c, OPEN);
      StepOnElementEnd(o, c1, OPEN);
    }
  }

  // ------------------------------------------------------------------
  // MSG

  lemma {:induction false} ReadOctets(o: Options, c: Config, m: bytes, col: nat)
    requires c.cs == AnyRest || c.cs == Octets
    ensures Run(o, c, m, col) == Accepted(c.out.(message := c.token + m))
    decreases |m|
  {
    hide Run, Step;
    if m == [] {
      assert c.token + m == c.token;
      EndOfMessage(o, c, m, col);
    } else {
      assert m == [m[0]] + m[1..];
      RunHead(o, c, m[0], m[1..], col);
      StepOnOctets(o, c, m[0]);
      assert c.token + [m[0]] + m[1..] == c.token + m;
      ReadOctets(o, c.(token := c.token + [m[0]]), m[1..], col + 1);
    }
  }

  lemma {:induction false} ReadTextTail(o: Options, c: Config, u: Utf8State, t: bytes, rest: bytes, col: nat)
    requires c.cs == (if u == Ready then Text else TextTail(u)) && CharTail(u, t)
    ensures Run(o, c, t + rest, col) == Run(o, c.(cs := Text, token := c.token + t), rest, col + |t|)
    decreases |t|
  {
    hide Run, Step;
    if u == Ready {
      assert t + rest == rest && c.token + t == c.token;
    } else {
      StepOnTextTail(o, c, u, t[0]);
      assert t + rest == [t[0]] + (t[1..] + rest);
      RunHead(o, c, t[0], t[1..] + rest, col);
      assert c.token + [t[0]] + t[1..] == c.token + t;
      ReadTextTail(o, StepText(o, c, TailOctet(u, t[0]), t[0]).c, TailOctet(u, t[0]), t[1..], rest, col + 1);
    }
  }

  lemma ReadTextChar(o: Options, c: Config, m: bytes, col: nat)
    requires c.cs == Text && CharLen(m) > 0
    ensures Run(o, c, m, col) == Run(o, c.(token := c.token + m[..CharLen(m)]), m[CharLen(m)..], col + CharLen(m))
  {
    CharHasTail(m);
    hide Run, Step, CharLen, CharTail;
    var n := CharLen(m);
    var head, rest := m[1..n], m[n..];
    assert m == [m[0]] + (head + rest);
    RunHead(o, c, m[0], head + rest, col);
    StepOnText(o, c, m[0]);
    ReadTextTail(o, StepText(o, c, LeadOctet(m[0]), m[0]).c, LeadOctet(m[0]), head, rest, col + 1);
    assert [m[0]] + head == m[..n];
    assert c.token + [m[0]] + head == c.token + ([m[0]] + head);
  }

  lemma {:induction false} ReadText(o: Options, c: Config, m: bytes, col: nat)
    requires c.cs == Text && WellFormed(m)
    ensures Run(o, c, m, col) == Accepted(c.out.(message := c.token + m))
    decreases |m|
  {
    hide Run, Step;
    if m == [] {
      assert c.token + m == c.token;
      EndOfMessage(o, c, m, col);
    } else {
      hide CharLen;
      var n := CharLen(m);
      ReadTextChar(o, c, m, col);
      ReadText(o, c.(token := c.token + m[..n]), m[n..], col + n);
      assert c.token + m[..n] + m[n..] == c.token + m;
    }
  }

  lemma ReadMsg(o: Options, c: Config, m: bytes, col: nat)
    requires c.cs == MsgFirst && c.out.message == []
    requires o.compliantMsg ==> IsCompliant(m)
    ensures Run(o, c, m, col) == Accepted(c.out.(message := m))
  {
    if m != [] {
      assert m == [m[0]] + m[1..];
      RunHead(o, c, m[0], m[1..], col);
      StepOnMsgFirst(o, c, m[0]);
      if o.compliantMsg && m[0] == 239 {
        hide Step;
        ReadBom(o, c.(cs := BomTwo, token := [m[0]]), m, col + 1);
      } else {
        hide Run, Step;
        ReadOctets(o, c.(cs := if o.compliantMsg then Octets else AnyRest, token := [m[0]]), m[1..], col + 1);
      }
    }
  }

  lemma ReadBom(o: Options, c: Config, m: bytes, col: nat)
    requires c.cs == BomTwo && m != [] && m[0] == 239 && c.token == [m[0]] && IsCompliant(m)
    ensures Run(o, c, m[1..], col) == Accepted(c.out.(message := m))
  {
    hide Run, Step;
    if |m| == 1 {
      assert m == [m[0]];
      EndOfMessage(o, c, m[1..], col);
    } else {
      assert m[1..] == [m[1]] + m[2..];
      RunHead(o, c, m[1], m[2..], col);
      StepOnBom(o, c, m[1]);
      var c1 := c.(cs := if m[1] == 187 then BomThree else Octets, token := [m[0], m[1]]);
      assert [m[0]] + [m[1]] == [m[0], m[1]];
      if m[1] != 187 {
        ReadOctets(o, c1, m[2..], col + 1);
      } else if |m| == 2 {
        assert m == [m[0], m[1]];
        EndOfMessage(o, c1, m[2..], col + 1);
      } else {
        ReadBomThree(o, c1, m, col + 1);
      }
    }
  }

  lemma ReadBomThree(o: Options, c: Config, m: bytes, col: nat)
    requires c.cs == BomThree && |m| >= 3 && c.token == [m[0], m[1]] && m[..2] == BOM[..2] && IsCompliant(m)
    ensures Run(o, c, m[2..], col) == Accepted(c.out.(message := m))
  {
    hide Run, Step, WellFormed;
    assert m[2..] == [m[2]] + m[3..];
    RunHead(o, c, m[2], m[3..], col);
    StepOnBom(o, c, m[2]);
    var c1 := c.(cs := if m[2] == 191 then Text else Octets, token := c.token + [m[2]]);
    assert c1.token + m[3..] == m;
    if m[2] == 191 {
      assert m[0] == BOM[0] && m[1] == BOM[1];
      assert BOM <= m;
      ReadText(o, c1, m[3..], col + 1);
    } else {
      ReadOctets(o, c1, m[3..], col + 1);
    }
  }

  lemma ReadMsgPart(o: Options, c: Config, m: Option<bytes>, col: nat)
    requires c.cs == SdNil || c.cs == ElementEnd
    requires c.out.message == []
    requires m.Some? && o.compliantMsg ==> IsCompliant(m.value)
    ensures Run(o, c, MsgText(m), col) == Accepted(c.out.(message := if m.Some? then m.value else []))
  {
    if m.Some? {
      hide Run, Step, IsCompliant;
      RunHead(o, c, SP, m.value, col);
      if c.cs == SdNil { StepOnSdNil(o, c, SP); } else { StepOnElementEnd(o, c, SP); }
      ReadMsg(o, c.(cs := MsgFirst), m.value, col + 1);
    }
  }

  // ------------------------------------------------------------------
  // The whole message

  /** VERSION, TIMESTAMP and the four fields. */
  lemma ReadHeader(o: Options, c: Config, t: Syntax, rest: bytes, col: nat) returns (d: Config)
    requires ValidSyntax(o, t)
    requires c.cs == Body && c.token == [] && c.out.timestamp == None
    ensures d.cs == SdFirst && d.token == []
    ensures d.out == c.out.(
      version := t.version, timestamp := if t.time.Some? then Some(t.time.value.Value()) else None,
      hostname := t.hostname, appname := t.appname, procID := t.procID, msgID := t.msgID)
    ensures Run(o, c, HeaderText(t) + rest, col) == Run(o, d, rest, col + |HeaderText(t)|)
  {
    hide Run, Step, IsField, ValidElements, TimestampText, FieldsText, Dec;
    var fields := FieldsText(t) + rest;
    var time := TimestampText(t.time) + [SP];
    var version := Dec(t.version) + [SP];
    assert HeaderText(t) + rest == version + (time + fields);
    ReadVersion(o, c, t.version, time + fields, col);
    var c1 := c.(cs := TimeFirst, token := [], out := c.out.(version := t.version));
    ReadTime(o, c1, t.time, fields, col + |version|);
    var c2 := c1.(cs := FieldFirst(Hostname),
                  out := c1.out.(timestamp := if t.time.Some? then Some(t.time.value.Value()) else None));
    ReadFields(o, c2, t, rest, col + |version| + |time|);
    d := c2.(cs := SdFirst,
             out := c2.out.(hostname := t.hostname, appname := t.appname, procID := t.procID, msgID := t.msgID));
  }

  lemma ReadBody(o: Options, c: Config, t: Syntax, col: nat)
    requires ValidSyntax(o, t)
    requires c.cs == Body && c.token == []
    requires c.out == BLANK.(priority := c.out.priority, prioritySet := c.out.prioritySet)
    ensures Run(o, c, HeaderText(t) + (SdText(t.elements) + MsgText(t.msg)), col)
         == Accepted(Meaning(o, t).(priority := c.out.priority, prioritySet := c.out.prioritySet))
  {
    hide Run, Step, IsField, ValidElements, HeaderText, SdText, MsgText, AddElements, IsCompliant;
    var c1 := ReadHeader(o, c, t, SdText(t.elements) + MsgText(t.msg), col);
    var c2 := ReadSd(o, c1, t.elements, MsgText(t.msg), col + |HeaderText(t)|);
    ReadMsgPart(o, c2, t.msg, col + |HeaderText(t)| + |SdText(t.elements)|);
  }

  lemma BodyFirst(o: Options, t: Syntax)
    requires ValidSyntax(o, t)
    ensures HeaderText(t) != [] && IsDigit(HeaderText(t)[0])
  {
    hide TimestampText, FieldsText, ValidElements, Dec;
    VersionDigits(t.version);
    assert HeaderText(t)[0] == Dec(t.version)[0];
  }

  /** The parser accepts the text of every syntax tree and returns its meaning. */
  lemma ParseText(o: Options, t: Syntax)
    requires ValidSyntax(o, t)
    ensures Parse(o, SyntaxText(o, t)) == Accepted(Meaning(o, t))
  {
    hide Run, Step, HeaderText, SdText, MsgText, ValidElements, Dec;
    var s := SyntaxText(o, t);
    var rest := HeaderText(t) + (SdText(t.elements) + MsgText(t.msg));
    var c := Initial(o, s, [], []);
    BodyFirst(o, t);
    if t.pri.Some? {
      assert s[0] == LT;
      ReadPri(o, c, t.pri.value, rest, 0);
      ReadBody(o, c.(cs := Body, out := c.out.(priority := t.pri.value, prioritySet := true)), t, |PriText(t.pri)|);
    } else {
      assert s == rest && s[0] == HeaderText(t)[0];
      ReadBody(o, c, t, 0);
    }
  }

  /** The tree of `<165>1 - h a 7 m [x y="\"z"] hi`. */
  function ExampleTree(): Syntax {
    Syntax(Some(165), 1, None, [104], [97], [55], [109], [Element([120], [Param([121], [92, 34, 122])])], Some([104, 105]))
  }

  lemma ExampleText(o: Options)
    ensures ValidSyntax(o, ExampleTree())
    ensures SyntaxText(o, ExampleTree())
         == [60, 49, 54, 53, 62] + ([49, 32, 45, 32, 104, 32, 97, 32, 55, 32, 109, 32]
            + ([91, 120, 32, 121, 61, 34, 92, 34, 122, 34, 93] + [32, 104, 105]))
  {
    hide Dec, HeaderText, ElementsText, ValidRaw;
    var t := ExampleTree();
    DecDigits(165);
    ExampleHeader();
    ExampleElement();
  }

  lemma ExampleHeader()
    ensures HeaderText(ExampleTree()) == [49, 32, 45, 32, 104, 32, 97, 32, 55, 32, 109, 32]
  {
    DecDigits(1);
    hide Dec;
  }

  lemma ExampleElement()
    ensures ElementsText(ExampleTree().elements) == [91, 120, 32, 121, 61, 34, 92, 34, 122, 34, 93]
    ensures AddElements(map[], ExampleTree().elements) == map[[120] := map[[121] := [34, 122]]]
    ensures ValidRaw([92, 34, 122])
  {
    var p := Param([121], [92, 34, 122]);
    var e := Element([120], [p]);
    assert p.raw[2..] == [122] && p.raw[2..][1..] == [] && p.raw[2..][..1] == [122];
    assert Unescape(p.raw) == [34, 122];
    assert ParamText(p) == [32, 121, 61, 34, 92, 34, 122, 34];
    assert [p][1..] == [] && [e][1..] == [];
    assert ParamsText([p]) == ParamText(p) + [];
    assert ElementsText([e]) == ElementText(e) + [];
  }

  /** What the parser returns for `<165>1 - h a 7 m [x y="\"z"] hi`. */
  lemma ParseExample(o: Options)
    ensures Parse(o, [60, 49, 54, 53, 62] + ([49, 32, 45, 32, 104, 32, 97, 32, 55, 32, 109, 32]
                     + ([91, 120, 32, 121, 61, 34, 92, 34, 122, 34, 93] + [32, 104, 105])))
         == Accepted(Draft(true, true, 165, 1, None, [104], [97], [55], [109], map[[120] := map[[121] := [34, 122]]],
                           [104, 105]))
  {
    hide Parse, ValidSyntax, SyntaxText, AddElements, ElementsText;
    ExampleText(o);
    ExampleElement();
    ParseText(o, ExampleTree());
  }
}
