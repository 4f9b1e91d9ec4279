/**
 What the builder builds, the parser reads back: the invariant of a message under
 any calls of its setters, the syntax tree that String prints, and the round trips
 between String (rfc5424/builder.go) and Parse (rfc5424/machine.go).
 */
module RoundTrip {
  import opened Bytes
  import opened Utf8
  import opened Functions
  import opened Escaping
  import opened Timestamps
  import opened Messages
  import opened Automaton
  import opened Grammar
  import opened Completeness
  import opened Soundness
  import opened Ordering
  import opened Builder

  // ------------------------------------------------------------------
  // The invariant of a message

  predicate FieldBuilt(f: Field, s: Option<bytes>) {
    s.Some? ==> IsField(f, s.value) && s.value != [DASH]
  }

  predicate ParamsBuilt(m: Params) {
    forall name :: name in m ==> IsName(name) && WellFormed(m[name])
  }

  predicate ElementsBuilt(sd: StructuredData) {
    forall id :: id in sd ==> IsName(id) && ParamsBuilt(sd[id])
  }

  predicate PriorityBuilt(m: Message) {
    if m.priority.None? then m.facility.None? && m.severity.None?
    else
      && ValidPriority(m.priority.value)
      && m.facility.Some? && m.severity.Some? && m.severity.value < 8
      && m.priority.value as int == 8 * m.facility.value as int + m.severity.value as int
  }

  /** Every field satisfies its grammar. */
  ghost predicate Built(m: Message) {
    && PriorityBuilt(m)
    && (m.version == 0 || ValidVersion(m.version))
    && RealTime(m)
    && FieldBuilt(Hostname, m.hostname) && FieldBuilt(Appname, m.appname)
    && FieldBuilt(ProcID, m.procID) && FieldBuilt(MsgID, m.msgID)
    && (m.structuredData.Some? ==> m.structuredData.value != map[] && ElementsBuilt(m.structuredData.value))
    && (m.message.Some? ==> m.message.value != [])
  }

  /** Timestamps that the tables accept and time.Parse reads are in range. */
  lemma ReadTimeValid(v: bytes)
    requires ParserRun(6, v) == 578 && ParseTime(v).Some?
    ensures ParseTime(v).value.Valid()
  {
    hide ParserRun, StampText;
    var st := StampBack(v);
    ParseStamp(st);
    ValueValid(st);
  }

  lemma PutParamKeeps(m: Message, id: bytes, name: bytes, value: bytes)
    requires Built(m) && IsName(name) && WellFormed(value)
    ensures Built(PutParam(m, id, name, value))
  {
    hide IsName, IsField, WellFormed;
    if id in Elements(m) {
      var sd := Elements(m);
      var sd1 := sd[id := sd[id][name := value]];
      assert id in sd1;
    }
  }

  lemma UpdatedKeeps(m: Message, e: EntryPoint, v: bytes, id: bytes, name: bytes)
    requires Built(m) && (e.EnSdpv? ==> IsName(name))
    ensures Built(Updated(m, e, v, id, name))
  {
    hide Built, ParserRun, ParseTime, ValidRaw, Unescape, PutParam, IsName, IsField, Builder.SetField, WellFormed;
    if Legal(e, v) {
      match e
      case EnTimestamp => if ParseTime(v).Some? { ReadTimeValid(v); PlainKeeps(m, ParseTime(v), Hostname, None, None); }
      case EnField(f) => if v != [DASH] { PlainKeeps(m, None, f, Some(v), None); }
      case EnSdid => AddElementKeeps(m, v);
      case EnSdpn => NoText(); PutParamKeeps(m, id, v, []);
      case EnSdpv => RawIsText(v); PutParamKeeps(m, id, name, Unescape(v));
      case EnMsg => if v != [] { PlainKeeps(m, None, Hostname, None, Some(v)); }
    }
  }

  lemma PlainKeeps(m: Message, t: Option<Timestamp>, f: Field, v: Option<bytes>, message: Option<bytes>)
    requires Built(m)
    ensures t.Some? && t.value.Valid() ==> Built(m.(timestamp := t))
    ensures v.Some? && FieldBuilt(f, v) ==> Built(Builder.SetField(m, f, v.value))
    ensures message.Some? && message.value != [] ==> Built(m.(message := message))
  {
    hide IsField, ElementsBuilt;
  }

  lemma NoText()
    ensures WellFormed([])
  {
  }

  lemma AddElementKeeps(m: Message, v: bytes)
    requires Built(m) && IsName(v)
    ensures var sd := if v in Elements(m) then Elements(m) else Elements(m)[v := map[]];
            Built(m.(structuredData := Some(sd)))
  {
    hide IsName, IsField, WellFormed;
    var sd := if v in Elements(m) then Elements(m) else Elements(m)[v := map[]];
    assert v in sd;
  }

  lemma WithParameterKeeps(m: Message, id: bytes, name: bytes, value: bytes)
    requires Built(m)
    ensures Built(WithParameter(m, id, name, value))
  {
    hide Built, Updated;
    var m1 := Updated(m, EnSdid, id, [], []);
    UpdatedKeeps(m, EnSdid, id, [], []);
    var m2 := Updated(m1, EnSdpn, name, id, []);
    UpdatedKeeps(m1, EnSdpn, name, id, []);
    if id in Elements(m1) && id in Elements(m2) && name in Elements(m2)[id] {
      NamesBuilt(m2, id, name);
      UpdatedKeeps(m2, EnSdpv, value, id, name);
    }
  }

  lemma NamesBuilt(m: Message, id: bytes, name: bytes)
    requires Built(m) && id in Elements(m) && name in Elements(m)[id]
    ensures IsName(id) && IsName(name)
  {
  }

  /** No call of a setter breaks the invariant. */
  lemma ApplyKeeps(m: Message, c: Call)
    requires Built(m)
    ensures Built(Apply(m, c))
  {
    hide Updated, WithParameter;
    match c
    case SetPriority(p) =>
    case SetVersion(v) =>
    case SetTimestamp(v) => UpdatedKeeps(m, EnTimestamp, v, [], []);
    case SetHostname(v) => UpdatedKeeps(m, EnField(Hostname), v, [], []);
    case SetAppname(v) => UpdatedKeeps(m, EnField(Appname), v, [], []);
    case SetProcID(v) => UpdatedKeeps(m, EnField(ProcID), v, [], []);
    case SetMsgID(v) => UpdatedKeeps(m, EnField(MsgID), v, [], []);
    case SetElementID(v) => UpdatedKeeps(m, EnSdid, v, [], []);
    case SetParameter(id, name, v) => WithParameterKeeps(m, id, name, v);
    case SetMessage(v) => UpdatedKeeps(m, EnMsg, v, [], []);
  }

  function ApplyAll(m: Message, calls: seq<Call>): Message
    decreases |calls|
  {
    if calls == [] then m else ApplyAll(Apply(m, calls[0]), calls[1..])
  }

  lemma {:induction false} CallsKeep(m: Message, calls: seq<Call>)
    requires Built(m)
    ensures Built(ApplyAll(m, calls))
    decreases |calls|
  {
    hide Built, Apply;
    if calls != [] {
      ApplyKeeps(m, calls[0]);
      CallsKeep(Apply(m, calls[0]), calls[1..]);
    }
  }

  /** The builder invariant: whatever is called, every field satisfies its grammar. */
  lemma BuilderInvariant(calls: seq<Call>)
    ensures Built(ApplyAll(EMPTY, calls))
  {
    CallsKeep(EMPTY, calls);
  }

  /** An element's parameters after SetParameter: a refused value leaves "", even over an earlier one. */
  function ParamsAfter(params: Params, name: bytes, value: bytes): Params {
    if IsName(name) then params[name := if ValidRaw(value) then Unescape(value) else []] else params
  }

  /** The message with the parameters of one element. */
  function WithParams(m: Message, id: bytes, params: Params): Message {
    m.(structuredData := Some(Elements(m)[id := params]))
  }

  lemma ElementSet(m: Message, id: bytes)
    requires Built(m)
    ensures Updated(m, EnSdid, id, [], [])
         == if !IsName(id) then m else WithParams(m, id, if id in Elements(m) then Elements(m)[id] else map[])
    ensures !IsName(id) ==> id !in Elements(m)
  {
    hide IsName, IsField, WellFormed, RealTime;
    var sd := Elements(m);
    if id in sd { assert sd[id := sd[id]] == sd; }
  }

  lemma ParamSet(m: Message, id: bytes, params: Params, name: bytes, value: bytes)
    ensures PutParam(WithParams(m, id, params), id, name, value) == WithParams(m, id, params[name := value])
  {
    var sd := Elements(m);
    assert sd[id := params][id := params[name := value]] == sd[id := params[name := value]];
  }

  /** SetParameter, exactly: the one parameter of the one element, which is created when missing. */
  lemma SetParameterExactly(m: Message, id: bytes, name: bytes, value: bytes)
    requires Built(m)
    ensures WithParameter(m, id, name, value)
         == if !IsName(id) then m
            else WithParams(m, id, ParamsAfter(if id in Elements(m) then Elements(m)[id] else map[], name, value))
  {
    var params := if id in Elements(m) then Elements(m)[id] else map[];
    ElementSet(m, id);
    if IsName(id) && !IsName(name) { NotBuilt(m, id, name); }
    hide IsName, ValidRaw, Unescape, Built, PutParam;
    ParamSet(m, id, params, name, []);
    if ValidRaw(value) {
      ParamSet(m, id, params[name := []], name, Unescape(value));
      assert params[name := []][name := Unescape(value)] == params[name := Unescape(value)];
    }
  }

  /** A name that exists keeps its value exactly when the new one is the same, or refused where the old one is empty. */
  lemma SetParameterOnExisting(m: Message, id: bytes, name: bytes, value: bytes)
    requires Built(m) && id in Elements(m) && name in Elements(m)[id]
    ensures WithParameter(m, id, name, value) == m
       <==> Elements(m)[id][name] == if ValidRaw(value) then Unescape(value) else []
  {
    SetParameterExactly(m, id, name, value);
    NamesBuilt(m, id, name);
    hide Built, WithParameter, ValidRaw, Unescape, IsName;
    var sd, params := Elements(m), Elements(m)[id];
    var v := if ValidRaw(value) then Unescape(value) else [];
    if params[name] == v {
      assert params[name := v] == params && sd[id := params] == sd;
    } else {
      assert sd[id := params[name := v]][id][name] == v;
    }
  }

  /** The second of two calls with the same name replaces the value: `1`, then `2`. */
  lemma SetParameterOverwrites()
    ensures var m := Apply(EMPTY, Call.SetParameter([97], [120], [49]));
            && [97] in Elements(m) && [120] in Elements(m)[[97]] && Elements(m)[[97]][[120]] == [49]
            && Apply(m, Call.SetParameter([97], [120], [50])) != m
  {
    OneOctetRaw(49);
    OneOctetRaw(50);
    SetParameterExactly(EMPTY, [97], [120], [49]);
    hide Updated, ValidRaw, Unescape, WithParameter;
    var m := Apply(EMPTY, Call.SetParameter([97], [120], [49]));
    assert Elements(m) == map[[97] := map[[120] := [49]]];
    ApplyKeeps(EMPTY, Call.SetParameter([97], [120], [49]));
    SetParameterOnExisting(m, [97], [120], [50]);
  }

  lemma OneOctetRaw(b: byte)
    requires IsDigit(b)
    ensures ValidRaw([b]) && Unescape([b]) == [b]
  {
    assert [b][1..] == [] && [b][..1] == [b];
  }

  lemma NotBuilt(m: Message, id: bytes, name: bytes)
    requires Built(m) && !IsName(name)
    ensures id in Elements(m) ==> name !in Elements(m)[id]
  {
  }

  // ------------------------------------------------------------------
  // The syntax tree that is printed

  function ParamTrees(m: Params, names: seq<bytes>): seq<Param>
    requires forall i :: 0 <= i < |names| ==> names[i] in m
  {
    if names == [] then [] else [Param(names[0], Escape(m[names[0]]))] + ParamTrees(m, names[1..])
  }

  ghost function ElementTree(id: bytes, m: Params): Element {
    SortedIn(m);
    Element(id, ParamTrees(m, Sorted(m.Keys)))
  }

  ghost function ElementTrees(sd: StructuredData, ids: seq<bytes>): seq<Element>
    requires forall i :: 0 <= i < |ids| ==> ids[i] in sd
  {
    if ids == [] then [] else [ElementTree(ids[0], sd[ids[0]])] + ElementTrees(sd, ids[1..])
  }

  ghost function TreeOf(m: Message): Syntax
    requires RealTime(m)
  {
    SortedIn(Elements(m));
    Syntax(if m.priority.Some? then Some(m.priority.value) else None, m.version,
           if m.timestamp.Some? then Some(Canonical(m.timestamp.value)) else None,
           OrNil(m.hostname), OrNil(m.appname), OrNil(m.procID), OrNil(m.msgID),
           ElementTrees(Elements(m), Sorted(Elements(m).Keys)), m.message)
  }

  lemma {:induction false} ParamTreesText(m: Params, names: seq<bytes>)
    requires forall i :: 0 <= i < |names| ==> names[i] in m
    ensures ParamsText(ParamTrees(m, names)) == PrintedParams(m, names)
    decreases |names|
  {
    hide Escape;
    if names != [] {
      ParamTreesText(m, names[1..]);
      assert ParamTrees(m, names)[1..] == ParamTrees(m, names[1..]);
    }
  }

  lemma {:induction false} ElementTreesText(sd: StructuredData, ids: seq<bytes>)
    requires forall i :: 0 <= i < |ids| ==> ids[i] in sd
    ensures ElementsText(ElementTrees(sd, ids)) == PrintedElements(sd, ids)
    decreases |ids|
  {
    if ids != [] {
      hide PrintedParams;
      SortedIn(sd[ids[0]]);
      ParamTreesText(sd[ids[0]], Sorted(sd[ids[0]].Keys));
      ElementTreesText(sd, ids[1..]);
      assert ElementTrees(sd, ids)[1..] == ElementTrees(sd, ids[1..]);
    }
  }

  /** The names, the lengths and the raw values of the printed trees are those of the grammar. */
  lemma {:induction false} ParamTreesValid(m: Params, names: seq<bytes>)
    requires ParamsBuilt(m) && forall i :: 0 <= i < |names| ==> names[i] in m
    ensures ValidParams(ParamTrees(m, names))
    decreases |names|
  {
    hide Escape, ValidRaw, IsName, WellFormed;
    if names != [] {
      ParamTreesValid(m, names[1..]);
      EscapingRoundTrip(m[names[0]]);
      var ps := ParamTrees(m, names);
      assert forall i :: 1 <= i < |ps| ==> ps[i] == ParamTrees(m, names[1..])[i - 1];
    }
  }

  lemma {:induction false} ElementTreesAt(sd: StructuredData, ids: seq<bytes>)
    requires forall i :: 0 <= i < |ids| ==> ids[i] in sd
    ensures |ElementTrees(sd, ids)| == |ids|
    ensures forall i :: 0 <= i < |ids| ==> ElementTrees(sd, ids)[i] == ElementTree(ids[i], sd[ids[i]])
    decreases |ids|
  {
    hide ElementTree;
    if ids != [] { ElementTreesAt(sd, ids[1..]); }
  }

  lemma ElementTreesValid(sd: StructuredData)
    requires ElementsBuilt(sd)
    ensures forall i :: 0 <= i < |Sorted(sd.Keys)| ==> Sorted(sd.Keys)[i] in sd
    ensures ValidElements(ElementTrees(sd, Sorted(sd.Keys)))
  {
    hide IsName, ParamTrees, ValidParams, ParamsBuilt, Less;
    SortedIn(sd);
    var ids := Sorted(sd.Keys);
    var es := ElementTrees(sd, ids);
    ElementTreesAt(sd, ids);
    forall i | 0 <= i < |es| ensures IsName(es[i].id) && ValidParams(es[i].params) {
      var m := sd[ids[i]];
      SortedIn(m);
      ParamTreesValid(m, Sorted(m.Keys));
    }
    forall i, j | 0 <= i < j < |es| ensures es[i].id != es[j].id {
      LessIrreflexive(ids[i]);
    }
  }

  /** Reading the printed parameters back gives the map they were printed from. */
  lemma {:induction false} ParamsReadBack(m: Params, names: seq<bytes>, part: Params)
    requires ParamsBuilt(m) && (forall i :: 0 <= i < |names| ==> names[i] in m)
    requires forall n :: n in part ==> n in m && m[n] == part[n]
    requires forall n :: n in m ==> n in part || n in names
    ensures ValidParams(ParamTrees(m, names))
    ensures AddParams(part, ParamTrees(m, names)) == m
    decreases |names|
  {
    ParamTreesValid(m, names);
    hide Escape, ValidRaw, IsName, WellFormed, ValidParams, Unescape;
    if names == [] {
      assert part == m;
    } else {
      var n, ps := names[0], ParamTrees(m, names);
      EscapingRoundTrip(m[n]);
      WellFormedIsUtf8(m[n]);
      assert ps[1..] == ParamTrees(m, names[1..]);
      ParamsReadBack(m, names[1..], part[n := m[n]]);
    }
  }

  lemma {:induction false} ElementsReadBack(sd: StructuredData, ids: seq<bytes>, part: StructuredData)
    requires ElementsBuilt(sd) && (forall i :: 0 <= i < |ids| ==> ids[i] in sd)
    requires forall id :: id in part ==> id in sd && sd[id] == part[id]
    requires forall id :: id in sd ==> id in part || id in ids
    ensures forall i :: 0 <= i < |ElementTrees(sd, ids)| ==> ValidParams(ElementTrees(sd, ids)[i].params)
    ensures AddElements(part, ElementTrees(sd, ids)) == sd
    decreases |ids|
  {
    hide IsName, ValidParams, ParamsBuilt, ParamTrees, AddParams, Sorted;
    if ids == [] {
      assert part == sd;
    } else {
      var id, es := ids[0], ElementTrees(sd, ids);
      ElementReadBack(id, sd[id]);
      assert es[1..] == ElementTrees(sd, ids[1..]);
      ElementsReadBack(sd, ids[1..], part[id := sd[id]]);
      assert forall i :: 1 <= i < |es| ==> es[i] == es[1..][i - 1];
    }
  }

  lemma ElementReadBack(id: bytes, m: Params)
    requires ParamsBuilt(m)
    ensures ValidParams(ElementTree(id, m).params)
    ensures ElementTree(id, m).id == id && AddParams(map[], ElementTree(id, m).params) == m
  {
    hide ParamsBuilt, ValidParams, ParamTrees, AddParams;
    SortedIn(m);
    var names := Sorted(m.Keys);
    forall n | n in m ensures n in names {
      assert n in Members(names);
    }
    ParamsReadBack(m, names, map[]);
  }

  // ------------------------------------------------------------------
  // String, then Parse

  lemma SdTextPrinted(sd: Option<StructuredData>)
    requires sd.Some? ==> sd.value != map[]
    ensures var d := if sd.Some? then sd.value else map[];
            (forall i :: 0 <= i < |Sorted(d.Keys)| ==> Sorted(d.Keys)[i] in d)
            && SdText(ElementTrees(d, Sorted(d.Keys))) == PrintedSd(sd)
            && (ElementTrees(d, Sorted(d.Keys)) != [] <==> sd.Some?)
  {
    hide ElementTree, ElementsText, PrintedElements, Ascending;
    var d := if sd.Some? then sd.value else map[];
    SortedIn(d);
    NoMembers(Sorted(d.Keys));
    ElementTreesText(d, Sorted(d.Keys));
    if sd.Some? {
      assert d.Keys != {};
    }
  }

  /** What String prints is the text of the tree. */
  lemma TreeText(o: Options, m: Message)
    requires Built(m) && m.priority.Some? && ValidSyntax(o, TreeOf(m))
    ensures SyntaxText(o, TreeOf(m)) == Printed(m)
  {
    hide ValidElements, ElementTrees, Dec, StampText, Built, SdText, PrintedSd, IsField, Canonical;
    BuiltFacts(m);
    var t := TreeOf(m);
    SdTextPrinted(m.structuredData);
    var time := if m.timestamp.Some? then Format(m.timestamp.value) else [DASH];
    assert TimestampText(t.time) == time;
    assert PrintedMsg(m.message) == MsgText(m.message);
    Reassociate([LT] + Dec(m.priority.value) + [GT], Dec(m.version), time, OrNil(m.hostname), OrNil(m.appname),
                OrNil(m.procID), OrNil(m.msgID), PrintedSd(m.structuredData), PrintedMsg(m.message));
  }

  lemma BuiltFacts(m: Message)
    requires Built(m)
    ensures RealTime(m) && ElementsBuilt(Elements(m))
    ensures m.structuredData.Some? ==> m.structuredData.value != map[]
    ensures m.message.Some? ==> m.message.value != []
  {
  }

  lemma Reassociate(pri: bytes, v: bytes, t: bytes, a: bytes, b: bytes, c: bytes, d: bytes, e: bytes, f: bytes)
    ensures pri + (((v + [SP]) + ((t + [SP]) + ((a + [SP]) + ((b + [SP]) + ((c + [SP]) + (d + [SP])))))) + (e + f))
         == pri + v + [SP] + t + [SP] + a + [SP] + b + [SP] + c + [SP] + d + [SP] + e + f
  {
  }

  /** The tree is one of the grammar, up to the demand of the compliant mode on MSG. */
  lemma TreeValid(o: Options, m: Message)
    requires Built(m) && m.priority.Some? && ValidVersion(m.version)
    requires m.message.Some? && o.compliantMsg ==> IsCompliant(m.message.value)
    ensures ValidSyntax(o, TreeOf(m))
  {
    hide ElementsBuilt, ValidElements, ElementTrees, IsCompliant;
    BuiltFacts(m);
    ElementTreesValid(Elements(m));
    NilIsField();
  }

  lemma NilIsField()
    ensures forall f :: IsField(f, [DASH])
  {
  }

  lemma FieldsBack(m: Message)
    requires Built(m)
    ensures Present(OrNil(m.hostname)) == m.hostname && Present(OrNil(m.appname)) == m.appname
    ensures Present(OrNil(m.procID)) == m.procID && Present(OrNil(m.msgID)) == m.msgID
  {
    hide ElementsBuilt, RealTime, AllGraph;
  }

  lemma PriorityBack(m: Message)
    requires Built(m) && m.priority.Some?
    ensures var e := EMPTY.ComputeFromPriority(m.priority.value);
            e.priority == m.priority && e.facility == m.facility && e.severity == m.severity
  {
    hide ElementsBuilt, RealTime, IsField;
  }

  lemma ElementsBack(sd: StructuredData)
    requires ElementsBuilt(sd)
    ensures forall i :: 0 <= i < |Sorted(sd.Keys)| ==> Sorted(sd.Keys)[i] in sd
    ensures var es := ElementTrees(sd, Sorted(sd.Keys));
            (forall i :: 0 <= i < |es| ==> ValidParams(es[i].params)) && AddElements(map[], es) == sd
  {
    hide ElementsBuilt, ElementTrees, AddElements;
    SortedIn(sd);
    var ids := Sorted(sd.Keys);
    forall id | id in sd ensures id in ids {
      assert id in Members(ids);
    }
    ElementsReadBack(sd, ids, map[]);
  }

  /** What the tree means is the message. */
  lemma TreeMeaning(o: Options, m: Message)
    requires Built(m) && m.priority.Some? && ValidSyntax(o, TreeOf(m))
    ensures Meaning(o, TreeOf(m)).Export() == m
  {
    hide ElementsBuilt, ElementTrees, AddElements, PrintedSd, Canonical, SdText, Present, OrNil, Built, ValidSyntax;
    BuiltFacts(m);
    FieldsBack(m);
    PriorityBack(m);
    SdTextPrinted(m.structuredData);
    ElementsBack(Elements(m));
    if m.timestamp.Some? { CanonicalValue(m.timestamp.value); }
  }

  lemma CanonicalValue(t: Timestamp)
    requires t.Valid()
    ensures Canonical(t).Value() == t
  {
    hide Canonical, StampText;
    ParseFormat(t);
    ParseStamp(Canonical(t));
  }

  lemma StringParses(o: Options, m: Message)
    requires Built(m) && m.priority.Some? && ValidVersion(m.version)
    requires m.message.Some? && o.compliantMsg ==> IsCompliant(m.message.value)
    ensures Parse(o, Printed(m)).Accepted? && Parse(o, Printed(m)).out.Export() == m
  {
    BuiltFacts(m);
    hide Parse, Printed, TreeOf, Built, IsCompliant, ValidSyntax, SyntaxText;
    TreeValid(o, m);
    TreeText(o, m);
    ParseText(o, TreeOf(m));
    TreeMeaning(o, m);
  }

  /** In compliant mode the parser takes back only compliant messages. */
  lemma CompliantOnly(o: Options, m: Message)
    requires Built(m) && m.priority.Some? && ValidVersion(m.version)
    requires o.compliantMsg && m.message.Some? && Parse(o, Printed(m)).Accepted?
    ensures IsCompliant(m.message.value)
  {
    hide Parse, Printed, TreeOf, Built, IsCompliant, SyntaxText;
    var o1 := o.(compliantMsg := false);
    BuiltFacts(m);
    StringParses(o1, m);
    var t := Tree(o, Printed(m));
    SameText(o, o1, t);
    ParseText(o1, t);
  }

  lemma SameText(o: Options, o1: Options, t: Syntax)
    requires ValidSyntax(o, t) && ValidSyntax(o1, t)
    ensures SyntaxText(o1, t) == SyntaxText(o, t)
  {
  }

  /**
   Round trip: whatever calls built a message with PRI and VERSION, parsing what
   String prints gives the message back; with the compliant option, exactly when its
   MSG is compliant.
   */
  lemma RoundTrip(o: Options, calls: seq<Call>)
    ensures var m := ApplyAll(EMPTY, calls);
            RealTime(m)
            && (m.priority.Some? && m.Valid() ==>
                  var accepts := !(o.compliantMsg && m.message.Some?) || IsCompliant(m.message.value);
                  && (accepts <==> Parse(o, Printed(m)).Accepted?)
                  && (accepts ==> Answer(o, Parse(o, Printed(m))) == Reply(Some(m), None)))
  {
    hide Parse, Printed, ApplyAll;
    var m := ApplyAll(EMPTY, calls);
    BuilderInvariant(calls);
    if m.priority.Some? && m.Valid() {
      hide Built, IsCompliant;
      if !(o.compliantMsg && m.message.Some?) || IsCompliant(m.message.value) {
        StringParses(o, m);
      } else if Parse(o, Printed(m)).Accepted? {
        CompliantOnly(o, m);
      }
    }
  }

  // ------------------------------------------------------------------
  // Parse, then String, then Parse

  lemma {:induction false} AddParamsBuilt(m: Params, ps: seq<Param>)
    requires ParamsBuilt(m) && ValidParams(ps)
    ensures ParamsBuilt(AddParams(m, ps))
    decreases |ps|
  {
    hide IsName, ValidRaw, WellFormed, Unescape;
    if ps != [] {
      RawIsText(ps[0].raw);
      AddParamsBuilt(m[ps[0].name := Unescape(ps[0].raw)], ps[1..]);
    }
  }

  lemma {:induction false} AddElementsBuilt(sd: StructuredData, es: seq<Element>)
    requires ElementsBuilt(sd)
    requires forall i :: 0 <= i < |es| ==> IsName(es[i].id) && ValidParams(es[i].params)
    ensures ElementsBuilt(AddElements(sd, es))
    ensures sd != map[] || es != [] ==> AddElements(sd, es) != map[]
    decreases |es|
  {
    hide IsName, ValidParams, ParamsBuilt, AddParams;
    if es != [] {
      NoParamsBuilt();
      AddParamsBuilt(map[], es[0].params);
      var sd1 := sd[es[0].id := AddParams(map[], es[0].params)];
      assert es[0].id in sd1;
      AddElementsBuilt(sd1, es[1..]);
    }
  }

  lemma NoParamsBuilt()
    ensures ParamsBuilt(map[])
  {
  }

  /** What the parser returns satisfies the builder's invariant. */
  lemma MeaningBuilt(o: Options, t: Syntax)
    requires ValidSyntax(o, t)
    ensures Built(Meaning(o, t).Export())
  {
    hide ElementsBuilt, AddElements, AllGraph, IsCompliant;
    ElementsMeaning(t.elements);
    if t.time.Some? { ValueValid(t.time.value); }
  }

  lemma ElementsMeaning(es: seq<Element>)
    requires ValidElements(es)
    ensures ElementsBuilt(AddElements(map[], es)) && (es != [] ==> AddElements(map[], es) != map[])
  {
    hide ParamsBuilt, AddElements;
    AddElementsBuilt(map[], es);
  }

  lemma ParsedIsBuilt(o: Options, s: bytes)
    requires Parse(o, s).Accepted?
    ensures var d := Parse(o, s).out; var m := d.Export();
            && Built(m) && ValidVersion(m.version) && (m.priority.Some? <==> d.prioritySet)
            && (m.message.Some? && o.compliantMsg ==> IsCompliant(m.message.value))
  {
    hide Parse, Built, IsCompliant, AddElements, ValidElements, SyntaxText;
    var t := Tree(o, s);
    MeaningBuilt(o, t);
  }

  /**
   Normal form: for every accepted input with PRI, parsing what String prints for the
   result gives the result again.
   */
  lemma NormalForm(o: Options, s: bytes)
    requires Parse(o, s).Accepted? && Parse(o, s).out.prioritySet
    ensures var m := Parse(o, s).out.Export();
            && RealTime(m) && m.priority.Some? && m.Valid()
            && Answer(o, Parse(o, Printed(m))) == Answer(o, Parse(o, s)) == Reply(Some(m), None)
  {
    ParsedIsBuilt(o, s);
    var m := Parse(o, s).out.Export();
    BuiltFacts(m);
    assert m.priority.Some? ==> ValidPriority(m.priority.value) by { PriorityRange(m); }
    hide Parse, Built, IsCompliant, Printed;
    StringParses(o, m);
  }

  lemma PriorityRange(m: Message)
    requires Built(m)
    ensures m.priority.Some? ==> ValidPriority(m.priority.value)
  {
  }
}
