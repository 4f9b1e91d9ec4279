/**
 The language of the parser as syntax trees over the ABNF of section 6 of
 RFC 5424, with two restrictions of the code: every `"`, `\` and `]` in a
 parameter value is escaped and every backslash starts an escape.
 */
module Grammar {
  import opened Bytes
  import opened Utf8
  import opened Functions
  import opened Escaping
  import opened Timestamps
  import opened Messages
  import opened Automaton

  datatype Param = Param(name: bytes, raw: bytes)

  datatype Element = Element(id: bytes, params: seq<Param>)

  /** No elements stand for the nil value. An empty MSG is a trailing space. */
  datatype Syntax = Syntax(
    pri: Option<nat>, version: nat, time: Option<Stamp>,
    hostname: bytes, appname: bytes, procID: bytes, msgID: bytes,
    elements: seq<Element>, msg: Option<bytes>)

  const BOM: bytes := [239, 187, 191]

  /** MSG of section 6.4 of RFC 5424: any octets, but UTF-8 after a BOM. */
  predicate IsCompliant(m: bytes) {
    BOM <= m ==> WellFormed(m[3..])
  }

  predicate ValidParams(ps: seq<Param>) {
    forall i :: 0 <= i < |ps| ==> IsName(ps[i].name) && ValidRaw(ps[i].raw)
  }

  predicate ValidElements(es: seq<Element>) {
    && (forall i :: 0 <= i < |es| ==> IsName(es[i].id) && ValidParams(es[i].params))
    && (forall i, j :: 0 <= i < j < |es| ==> es[i].id != es[j].id)
  }

  predicate ValidTime(t: Option<Stamp>) {
    t.Some? ==> t.value.WellFormed() && t.value.day <= DaysIn(t.value.year, t.value.month)
  }

  predicate ValidSyntax(o: Options, t: Syntax) {
    && (if t.pri.Some? then ValidPriority(t.pri.value) else o.optionalPriority)
    && ValidVersion(t.version)
    && ValidTime(t.time)
    && IsField(Hostname, t.hostname) && IsField(Appname, t.appname)
    && IsField(ProcID, t.procID) && IsField(MsgID, t.msgID)
    && ValidElements(t.elements)
    && (t.msg.Some? && o.compliantMsg ==> IsCompliant(t.msg.value))
  }

  // ------------------------------------------------------------------
  // Text

  function PriText(pri: Option<nat>): bytes {
    if pri.Some? then [LT] + Dec(pri.value) + [GT] else []
  }

  function TimestampText(t: Option<Stamp>): bytes
    requires ValidTime(t)
  {
    if t.Some? then StampText(t.value) else [DASH]
  }

  function ParamText(p: Param): bytes {
    [SP] + p.name + [EQ, DQ] + p.raw + [DQ]
  }

  function ParamsText(ps: seq<Param>): bytes {
    if ps == [] then [] else ParamText(ps[0]) + ParamsText(ps[1..])
  }

  function ElementText(e: Element): bytes {
    [OPEN] + e.id + ParamsText(e.params) + [CLOSE]
  }

  function ElementsText(es: seq<Element>): bytes {
    if es == [] then [] else ElementText(es[0]) + ElementsText(es[1..])
  }

  function SdText(es: seq<Element>): bytes {
    if es == [] then [DASH] else ElementsText(es)
  }

  function MsgText(m: Option<bytes>): bytes {
    if m.Some? then [SP] + m.value else []
  }

  function FieldsText(t: Syntax): bytes {
    (t.hostname + [SP]) + ((t.appname + [SP]) + ((t.procID + [SP]) + (t.msgID + [SP])))
  }

  function HeaderText(t: Syntax): bytes
    requires ValidTime(t.time)
  {
    (Dec(t.version) + [SP]) + ((TimestampText(t.time) + [SP]) + FieldsText(t))
  }

  function SyntaxText(o: Options, t: Syntax): bytes
    requires ValidSyntax(o, t)
  {
    PriText(t.pri) + (HeaderText(t) + (SdText(t.elements) + MsgText(t.msg)))
  }

  // ------------------------------------------------------------------
  // Meaning

  function AddParams(m: Params, ps: seq<Param>): Params
    requires ValidParams(ps)
    decreases |ps|
  {
    if ps == [] then m else AddParams(m[ps[0].name := Unescape(ps[0].raw)], ps[1..])
  }

  function AddElements(m: StructuredData, es: seq<Element>): StructuredData
    requires forall i :: 0 <= i < |es| ==> ValidParams(es[i].params)
    decreases |es|
  {
    if es == [] then m else AddElements(m[es[0].id := AddParams(map[], es[0].params)], es[1..])
  }

  function Meaning(o: Options, t: Syntax): Draft
    requires ValidSyntax(o, t)
  {
    Draft(t.pri.Some?, t.elements != [],
          if t.pri.Some? then t.pri.value else 0, t.version,
          if t.time.Some? then Some(t.time.value.Value()) else None,
          t.hostname, t.appname, t.procID, t.msgID,
          AddElements(map[], t.elements),
          if t.msg.Some? then t.msg.value else [])
  }
}
