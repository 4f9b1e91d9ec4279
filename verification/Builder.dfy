/**
 rfc5424/builder.go: the second generated machine, which validates what is set,
 the setters, and String. A state that the generated code unrolls is one state
 with a count. The numbers of the generated states are in the comments.
 */
module Builder {
  import opened Bytes
  import opened Utf8
  import opened Functions
  import opened Escaping
  import opened Timestamps
  import opened Messages
  import opened Ordering

  datatype EntryPoint = EnTimestamp | EnField(f: Field) | EnSdid | EnSdpn | EnSdpv | EnMsg

  datatype BuilderState =
    | Stamping(number: int)           // 1..37, 54
    | FieldStart(f: Field)            // 38..41
    | Fielding(f: Field, count: nat)  // 55..309, 310..357, 358..485, 486..517
    | IdStart                         // 42
    | Identifying(count: nat)         // 518..549
    | NameStart                       // 43
    | Naming(count: nat)              // 550..581
    | ValueStart                      // 582
    | Valuing                         // 583
    | Escaped                         // 44
    | InChar(number: int)             // 45..51
    | MsgStart                        // 52
    | Messaging                       // 53
    | Error                           // 0

  /** translate. */
  function Translate(e: EntryPoint): BuilderState {
    match e
    case EnTimestamp => Stamping(1)
    case EnField(f) => FieldStart(f)
    case EnSdid => IdStart
    case EnSdpn => NameStart
    case EnSdpv => ValueStart
    case EnMsg => MsgStart
  }

  function NextInValue(b: byte): BuilderState {
    if b == DQ || b == CLOSE then Error
    else if b == SLASH then Escaped
    else CharState(BuilderTable(583, b))
  }

  /** The state with a number of the character table. */
  function CharState(n: int): BuilderState {
    if n == 0 then Error else if n == 583 then Valuing else InChar(n)
  }

  /** The state inside a character. */
  function Char(u: Utf8State): BuilderState {
    CharState(BuilderNumber(u))
  }

  function Next(s: BuilderState, b: byte): BuilderState {
    match s
    case Stamping(n) => if BuilderNext(n, b) == 0 then Error else Stamping(BuilderNext(n, b))
    case FieldStart(f) => if IsGraph(b) then Fielding(f, 1) else Error
    case Fielding(f, n) => if n < MaxLength(f) && IsGraph(b) then Fielding(f, n + 1) else Error
    case IdStart => if IsNameChar(b) then Identifying(1) else Error
    case Identifying(n) => if n < 32 && IsNameChar(b) then Identifying(n + 1) else Error
    case NameStart => if IsNameChar(b) then Naming(1) else Error
    case Naming(n) => if n < 32 && IsNameChar(b) then Naming(n + 1) else Error
    case ValueStart => NextInValue(b)
    case Valuing => NextInValue(b)
    case Escaped => if IsSpecial(b) then Valuing else Error
    case InChar(n) => CharState(BuilderTable(n, b))
    case MsgStart => Messaging
    case Messaging => Messaging
    case Error => Error
  }

  function RunFrom(s: BuilderState, v: bytes): BuilderState
    decreases |v|
  {
    if v == [] then s else RunFrom(Next(s, v[0]), v[1..])
  }

  /** The states whose end action stores what was read. */
  predicate Stores(s: BuilderState) {
    s == Stamping(54) || s.Fielding? || s.Identifying? || s.Naming? || s in {ValueStart, Valuing, MsgStart, Messaging}
  }

  // ------------------------------------------------------------------
  // The machine against the grammar

  /** What may be set through each entry point. */
  predicate Legal(e: EntryPoint, v: bytes) {
    match e
    case EnTimestamp => ParserRun(6, v) == 578
    case EnField(f) => IsField(f, v)
    case EnSdid => IsName(v)
    case EnSdpn => IsName(v)
    case EnSdpv => ValidRaw(v)
    case EnMsg => true
  }

  lemma {:induction false} ErrorStays(v: bytes)
    ensures RunFrom(Error, v) == Error
    decreases |v|
  {
    if v != [] { ErrorStays(v[1..]); }
  }

  lemma {:induction false} StampingRun(n: int, v: bytes)
    requires 1 <= n <= 37 || n == 54
    ensures RunFrom(Stamping(n), v) == if BuilderRun(n, v) == 0 then Error else Stamping(BuilderRun(n, v))
    decreases |v|
  {
    hide BuilderNext;
    if v != [] {
      var m := BuilderNext(n, v[0]);
      if m == 0 {
        ErrorStays(v[1..]);
        BuilderDead(v[1..]);
      } else {
        StampingRun(m, v[1..]);
      }
    }
  }

  lemma {:induction false} BuilderDead(v: bytes)
    ensures BuilderRun(0, v) == 0
    decreases |v|
  {
    if v != [] { BuilderDead(v[1..]); }
  }

  lemma {:induction false} FieldingRun(f: Field, n: nat, v: bytes)
    requires n <= MaxLength(f)
    ensures RunFrom(Fielding(f, n), v)
         == if n + |v| <= MaxLength(f) && AllGraph(v) then Fielding(f, n + |v|) else Error
    decreases |v|
  {
    if v != [] {
      ErrorStays(v[1..]);
      if n < MaxLength(f) && IsGraph(v[0]) { FieldingRun(f, n + 1, v[1..]); }
    }
  }

  lemma {:induction false} IdentifyingRun(n: nat, v: bytes)
    requires n <= 32
    ensures RunFrom(Identifying(n), v) == if n + |v| <= 32 && AllNameChars(v) then Identifying(n + |v|) else Error
    decreases |v|
  {
    if v != [] {
      ErrorStays(v[1..]);
      if n < 32 && IsNameChar(v[0]) { IdentifyingRun(n + 1, v[1..]); }
    }
  }

  lemma {:induction false} NamingRun(n: nat, v: bytes)
    requires n <= 32
    ensures RunFrom(Naming(n), v) == if n + |v| <= 32 && AllNameChars(v) then Naming(n + |v|) else Error
    decreases |v|
  {
    if v != [] {
      ErrorStays(v[1..]);
      if n < 32 && IsNameChar(v[0]) { NamingRun(n + 1, v[1..]); }
    }
  }

  lemma {:induction false} MessagingRun(v: bytes)
    ensures RunFrom(Messaging, v) == Messaging
    decreases |v|
  {
    if v != [] { MessagingRun(v[1..]); }
  }

  /** Inside a character the builder goes where the automaton of the characters goes. */
  lemma CharNext(u: Utf8State, b: byte)
    ensures u != Ready && u != Bad ==> Next(Char(u), b) == Char(TailOctet(u, b)) && Char(u).InChar?
    ensures Char(Ready) == Valuing && Char(Bad) == Error
    ensures !IsSpecial(b) ==> Next(Valuing, b) == Char(LeadOctet(b))
  {
    TablesAgree(u, b);
    TablesAgree(Ready, b);
    hide BuilderTable;
  }

  lemma {:induction false} InCharForward(u: Utf8State, t: bytes, rest: bytes)
    requires CharTail(u, t)
    ensures RunFrom(Char(u), t + rest) == RunFrom(Valuing, rest)
    decreases |t|
  {
    if u == Ready {
      assert t + rest == rest;
    } else {
      TailOfConcat(t, rest);
      CharNext(u, t[0]);
      InCharForward(TailOctet(u, t[0]), t[1..], rest);
    }
  }

  lemma {:induction false} InCharBack(u: Utf8State, v: bytes) returns (t: bytes, rest: bytes)
    requires u != Bad
    requires RunFrom(Char(u), v) == Valuing
    ensures v == t + rest && CharTail(u, t)
    decreases |v|
  {
    if u == Ready {
      t, rest := [], v;
    } else {
      ErrorStays(v[1..]);
      CharNext(u, v[0]);
      t, rest := InCharBack(TailOctet(u, v[0]), v[1..]);
      assert ([v[0]] + t)[1..] == t;
      t := [v[0]] + t;
    }
  }

  lemma UnitForward(u: bytes, rest: bytes)
    requires UnitLen(u) == |u| > 0
    ensures RunFrom(Valuing, u + rest) == RunFrom(Valuing, rest)
  {
    TailOfConcat(u, rest);
    if u[0] == SLASH {
      TailOfConcat(u[1..], rest);
      assert u[1..][1..] + rest == rest;
    } else {
      CharNext(Ready, u[0]);
      CharHasTail(u);
      assert u[1..|u|] == u[1..];
      hide CharLen, Next, Char;
      InCharForward(LeadOctet(u[0]), u[1..], rest);
    }
  }

  lemma UnitBack(v: bytes) returns (u: bytes, rest: bytes)
    requires v != [] && RunFrom(Valuing, v) == Valuing
    ensures UnitLen(u) == |u| > 0 && v == u + rest && RunFrom(Valuing, rest) == Valuing
  {
    ErrorStays(v[1..]);
    if v[0] == SLASH {
      assert v[1..] != [];
      ErrorStays(v[1..][1..]);
      assert v[1..][1..] == v[2..];
      u, rest := v[..2], v[2..];
    } else {
      hide Next;
      var t;
      t, rest := LeadBack(v);
      CharTailIsChar(v[0], t);
      u := [v[0]] + t;
      assert v == u + rest;
      UnitForward(u, rest);
    }
  }

  lemma LeadBack(v: bytes) returns (t: bytes, rest: bytes)
    requires v != [] && v[0] != SLASH && RunFrom(Valuing, v) == Valuing
    ensures !IsSpecial(v[0]) && LeadOctet(v[0]) != Bad
    ensures CharTail(LeadOctet(v[0]), t) && v == [v[0]] + t + rest
  {
    ErrorStays(v[1..]);
    t, rest := InCharBack(LeadOctet(v[0]), v[1..]);
  }

  lemma {:induction false} ValuingForward(v: bytes)
    requires ValidRaw(v)
    ensures RunFrom(Valuing, v) == Valuing
    decreases |v|
  {
    hide UnitLen, Next;
    if v != [] {
      UnitAlone(v);
      ValuingForward(v[UnitLen(v)..]);
      UnitForward(v[..UnitLen(v)], v[UnitLen(v)..]);
      assert v == v[..UnitLen(v)] + v[UnitLen(v)..];
    }
  }

  lemma {:induction false} ValuingBack(v: bytes)
    requires RunFrom(Valuing, v) == Valuing
    ensures ValidRaw(v)
    decreases |v|
  {
    hide UnitLen, Next, RunFrom;
    if v != [] {
      var u, rest := UnitBack(v);
      ValuingBack(rest);
      PrependUnit(u, rest);
    }
  }

  /** From ValueStart the first octet is read as from Valuing. */
  lemma ValueStartRun(v: bytes)
    ensures v != [] ==> RunFrom(ValueStart, v) == RunFrom(Valuing, v)
  {
  }

  /** The machine stores a value exactly when the grammar of the entry point has it. */
  lemma MachineIsLegal(e: EntryPoint, v: bytes)
    ensures Stores(RunFrom(Translate(e), v)) <==> Legal(e, v)
    ensures Legal(e, v) && e.EnTimestamp? ==> RunFrom(Translate(e), v) == Stamping(54)
  {
    match e
    case EnTimestamp =>
      hide Next, BuilderNext, ParserNext;
      StampingRun(1, v);
      RunsAgree(1, v);
      BuilderRange(1, v);
    case EnField(f) =>
      if v != [] { ErrorStays(v[1..]); FieldingRun(f, 1, v[1..]); }
    case EnSdid =>
      if v != [] { ErrorStays(v[1..]); IdentifyingRun(1, v[1..]); }
    case EnSdpn =>
      if v != [] { ErrorStays(v[1..]); NamingRun(1, v[1..]); }
    case EnSdpv =>
      ValueStartRun(v);
      hide Next, RunFrom, ValidRaw;
      ValueStates(v);
      if ValidRaw(v) { ValuingForward(v); }
      if v != [] && RunFrom(Valuing, v) == Valuing { ValuingBack(v); }
      Nothing();
    case EnMsg =>
      if v != [] { MessagingRun(v[1..]); }
  }

  lemma Nothing()
    ensures ValidRaw([]) && RunFrom(ValueStart, []) == ValueStart
  {
  }

  /** The states reachable inside a value. */
  lemma {:induction false} ValueStates(v: bytes)
    ensures Stores(RunFrom(Valuing, v)) ==> RunFrom(Valuing, v) == Valuing
  {
    ValueClosed(Valuing, v);
  }

  lemma {:induction false} ValueClosed(s: BuilderState, v: bytes)
    requires s in {Valuing, Escaped, Error} || s.InChar?
    ensures var t := RunFrom(s, v); t in {Valuing, Escaped, Error} || t.InChar?
    decreases |v|
  {
    if v != [] { ValueClosed(Next(s, v[0]), v[1..]); }
  }

  lemma {:induction false} BuilderRange(n: int, v: bytes)
    requires 0 <= n <= 37 || n == 54
    ensures 0 <= BuilderRun(n, v) <= 37 || BuilderRun(n, v) == 54
    decreases |v|
  {
    hide BuilderNext;
    if v != [] { BuilderRange(BuilderNext(n, v[0]), v[1..]); }
  }

  // ------------------------------------------------------------------
  // The recorded backslashes

  predicate ReadsValue(s: BuilderState) {
    s == ValueStart || s == Valuing
  }

  /** The positions, counted from p, of the backslashes that a run over v records. */
  function Recorded(s: BuilderState, v: bytes, p: int): seq<int>
    decreases |v|
  {
    if v == [] then []
    else (if ReadsValue(s) && v[0] == SLASH then [p] else []) + Recorded(Next(s, v[0]), v[1..], p + 1)
  }

  lemma {:induction false} RecordedInChar(u: Utf8State, t: bytes, rest: bytes, p: int)
    requires CharTail(u, t)
    ensures Recorded(Char(u), t + rest, p) == Recorded(Valuing, rest, p + |t|)
    decreases |t|
  {
    if u == Ready {
      assert t + rest == rest;
    } else {
      TailOfConcat(t, rest);
      CharNext(u, t[0]);
      RecordedInChar(TailOctet(u, t[0]), t[1..], rest, p + 1);
    }
  }

  lemma RecordedEscape(u: bytes, rest: bytes, p: int)
    requires |u| == 2 && u[0] == SLASH && IsSpecial(u[1])
    ensures Recorded(Valuing, u + rest, p) == [p] + Recorded(Valuing, rest, p + 2)
  {
    hide Char, BuilderTable;
    TailOfConcat(u, rest);
    TailOfConcat(u[1..], rest);
    assert u[1..][1..] + rest == rest;
  }

  lemma RecordedPlain(u: bytes, rest: bytes, p: int)
    requires CharLen(u) == |u| > 0 && !IsSpecial(u[0])
    ensures Recorded(Valuing, u + rest, p) == Recorded(Valuing, rest, p + |u|)
  {
    hide CharLen, Next, Char, LeadOctet;
    TailOfConcat(u, rest);
    CharNext(Ready, u[0]);
    CharHasTail(u);
    assert u[1..|u|] == u[1..];
    RecordedInChar(LeadOctet(u[0]), u[1..], rest, p + 1);
  }

  lemma RecordedUnit(u: bytes, rest: bytes, p: int)
    requires UnitLen(u) == |u| > 0
    ensures Recorded(Valuing, u + rest, p) == (if u[0] == SLASH then [p] else []) + Recorded(Valuing, rest, p + |u|)
  {
    hide CharLen, Recorded;
    if u[0] == SLASH { RecordedEscape(u, rest, p); } else { RecordedPlain(u, rest, p); }
  }

  lemma {:induction false} RecordedSlashes(v: bytes, p: int)
    requires ValidRaw(v)
    ensures Recorded(Valuing, v, p) == Slashes(v, p)
    decreases |v|
  {
    hide UnitLen, Next;
    if v != [] {
      UnitAlone(v);
      var u, rest := v[..UnitLen(v)], v[UnitLen(v)..];
      assert v == u + rest;
      RecordedUnit(u, rest, p);
      RecordedSlashes(rest, p + |u|);
    }
  }

  // ------------------------------------------------------------------
  // What the setters do to a message

  function Elements(m: Message): StructuredData {
    if m.structuredData.Some? then m.structuredData.value else map[]
  }

  function SetField(m: Message, f: Field, v: bytes): Message {
    match f
    case Hostname => m.(hostname := Some(v))
    case Appname => m.(appname := Some(v))
    case ProcID => m.(procID := Some(v))
    case MsgID => m.(msgID := Some(v))
  }

  /** The message after a set: unchanged unless the value is legal for the entry point. */
  function Updated(m: Message, e: EntryPoint, v: bytes, id: bytes, name: bytes): Message {
    if !Legal(e, v) then m
    else
      match e
      case EnTimestamp => if ParseTime(v).Some? then m.(timestamp := ParseTime(v)) else m
      case EnField(f) => if v != [DASH] then SetField(m, f, v) else m
      case EnSdid =>
        if v in Elements(m) then m.(structuredData := Some(Elements(m)))
        else m.(structuredData := Some(Elements(m)[v := map[]]))
      case EnSdpn => PutParam(m, id, v, [])
      case EnSdpv => PutParam(m, id, name, Unescape(v))
      case EnMsg => if v != [] then m.(message := Some(v)) else m
  }

  function PutParam(m: Message, id: bytes, name: bytes, value: bytes): Message {
    if id in Elements(m) then
      m.(structuredData := Some(Elements(m)[id := Elements(m)[id][name := value]]))
    else m
  }

  /** The calls of the Builder interface. */
  datatype Call =
    | SetPriority(priority: byte)
    | SetVersion(version: nat)
    | SetTimestamp(value: bytes)
    | SetHostname(value: bytes)
    | SetAppname(value: bytes)
    | SetProcID(value: bytes)
    | SetMsgID(value: bytes)
    | SetElementID(value: bytes)
    | SetParameter(id: bytes, name: bytes, value: bytes)
    | SetMessage(value: bytes)

  /** An element is created when needed; then the name is set to "", then to the value. */
  function WithParameter(m: Message, id: bytes, name: bytes, value: bytes): Message {
    var m1 := Updated(m, EnSdid, id, [], []);
    if id !in Elements(m1) then m1
    else
      var m2 := Updated(m1, EnSdpn, name, id, []);
      if id in Elements(m2) && name in Elements(m2)[id] then Updated(m2, EnSdpv, value, id, name) else m2
  }

  function Apply(m: Message, c: Call): Message {
    match c
    case SetPriority(p) => if ValidPriority(p) then m.ComputeFromPriority(p) else m
    case SetVersion(v) => if ValidVersion(v) then m.(version := v) else m
    case SetTimestamp(v) => Updated(m, EnTimestamp, v, [], [])
    case SetHostname(v) => Updated(m, EnField(Hostname), v, [], [])
    case SetAppname(v) => Updated(m, EnField(Appname), v, [], [])
    case SetProcID(v) => Updated(m, EnField(ProcID), v, [], [])
    case SetMsgID(v) => Updated(m, EnField(MsgID), v, [], [])
    case SetElementID(v) => Updated(m, EnSdid, v, [], [])
    case SetParameter(id, name, v) => WithParameter(m, id, name, v)
    case SetMessage(v) => Updated(m, EnMsg, v, [], [])
  }

  // ------------------------------------------------------------------
  // String

  function OrNil(s: Option<bytes>): bytes {
    if s.Some? then s.value else [DASH]
  }

  function PrintedParam(name: bytes, value: bytes): bytes {
    [SP] + name + [EQ, DQ] + Escape(value) + [DQ]
  }

  function PrintedParams(m: Params, names: seq<bytes>): bytes
    requires forall i :: 0 <= i < |names| ==> names[i] in m
  {
    if names == [] then []
    else PrintedParam(names[0], m[names[0]]) + PrintedParams(m, names[1..])
  }

  ghost function PrintedElement(id: bytes, m: Params): bytes {
    SortedIn(m);
    [OPEN] + id + PrintedParams(m, Sorted(m.Keys)) + [CLOSE]
  }

  ghost function PrintedElements(sd: StructuredData, ids: seq<bytes>): bytes
    requires forall i :: 0 <= i < |ids| ==> ids[i] in sd
  {
    if ids == [] then [] else PrintedElement(ids[0], sd[ids[0]]) + PrintedElements(sd, ids[1..])
  }

  lemma ParamsFrom(m: Params, names: seq<bytes>, i: nat)
    requires i <= |names| && forall j :: 0 <= j < |names| ==> names[j] in m
    ensures i < |names| ==>
              PrintedParams(m, names[i..]) == PrintedParam(names[i], m[names[i]]) + PrintedParams(m, names[i + 1..])
    ensures i == |names| ==> PrintedParams(m, names[i..]) == []
    ensures i == 0 ==> names[i..] == names
  {
    if i < |names| { assert names[i..][1..] == names[i + 1..]; }
  }

  lemma ElementsFrom(sd: StructuredData, ids: seq<bytes>, i: nat)
    requires i <= |ids| && forall j :: 0 <= j < |ids| ==> ids[j] in sd
    ensures i < |ids| ==>
              PrintedElements(sd, ids[i..]) == PrintedElement(ids[i], sd[ids[i]]) + PrintedElements(sd, ids[i + 1..])
    ensures i == |ids| ==> PrintedElements(sd, ids[i..]) == []
    ensures i == 0 ==> ids[i..] == ids
  {
    hide PrintedElement;
    if i < |ids| { assert ids[i..][1..] == ids[i + 1..]; }
  }

  lemma SortedIn<V>(m: map<bytes, V>)
    ensures forall i :: 0 <= i < |Sorted(m.Keys)| ==> Sorted(m.Keys)[i] in m
  {
    var s := Sorted(m.Keys);
    forall i | 0 <= i < |s| ensures s[i] in m {
      assert s[i] in Members(s);
    }
  }

  ghost function PrintedSd(sd: Option<StructuredData>): bytes {
    if sd.None? then [DASH]
    else
      SortedIn(sd.value);
      PrintedElements(sd.value, Sorted(sd.value.Keys))
  }

  /** The names of a map are printed as the one list of them in which each comes before the next. */
  lemma PrintedInOrder(sd: StructuredData, ids: seq<bytes>, id: bytes, names: seq<bytes>)
    requires InOrder(ids) && (forall x: bytes :: x in ids <==> x in sd)
    requires id in sd && InOrder(names) && (forall x: bytes :: x in names <==> x in sd[id])
    ensures PrintedSd(Some(sd)) == PrintedElements(sd, ids)
    ensures PrintedElement(id, sd[id]) == [OPEN] + id + PrintedParams(sd[id], names) + [CLOSE]
  {
    hide InOrder, PrintedElements, PrintedParams;
    assert Members(ids) == sd.Keys && Members(names) == sd[id].Keys;
    InOrderIsSorted(ids);
    InOrderIsSorted(names);
  }

  lemma KeysInOrder<V>(m: map<bytes, V>) returns (names: seq<bytes>)
    ensures InOrder(names) && forall x: bytes :: x in names <==> x in m
  {
    hide InOrder;
    names := Sorted(m.Keys);
    InOrderIsSorted(names);
    assert forall x: bytes :: x in names <==> x in Members(names);
  }

  /** Elements `a` and `b` are printed as `[a][b]`. */
  lemma PrintedTwo()
    ensures PrintedSd(Some(map[[97] := map[], [98] := map[]])) == [91, 97, 93, 91, 98, 93]
  {
    hide PrintedSd, PrintedElement, PrintedElements, PrintedParams, InOrder;
    var sd: StructuredData := map[[97] := map[], [98] := map[]];
    var ids := [[97], [98]];
    InTwo();
    PrintedInOrder(sd, ids, [97], []);
    PrintedInOrder(sd, ids, [98], []);
    NoParams(sd[[97]]);
    TwoElements(sd, [97], [98]);
  }

  lemma InTwo()
    ensures InOrder([[97], [98]]) && InOrder([])
  {
    assert PartsAt([97], [98], 0);
  }

  lemma NoParams(m: Params)
    ensures PrintedParams(m, []) == []
  {
  }

  lemma TwoElements(sd: StructuredData, x: bytes, y: bytes)
    requires x in sd && y in sd
    ensures PrintedElements(sd, [x, y]) == PrintedElement(x, sd[x]) + PrintedElement(y, sd[y])
  {
    hide PrintedElement;
    var ids := [x, y];
    ElementsFrom(sd, ids, 0);
    ElementsFrom(sd, ids, 1);
    ElementsFrom(sd, ids, 2);
  }

  ghost function PrintedMsg(m: Option<bytes>): bytes {
    if m.Some? then [SP] + m.value else []
  }

  ghost predicate RealTime(m: Message) {
    m.timestamp.Some? ==> m.timestamp.value.Valid()
  }

  /** The text of a message: what the template <%d>%d %s %s %s %s %s %s%s is filled with. */
  ghost function Printed(m: Message): bytes
    requires m.priority.Some? && RealTime(m)
  {
    [LT] + Dec(m.priority.value) + [GT] + Dec(m.version)
    + [SP] + (if m.timestamp.Some? then Format(m.timestamp.value) else [DASH])
    + [SP] + OrNil(m.hostname) + [SP] + OrNil(m.appname) + [SP] + OrNil(m.procID) + [SP] + OrNil(m.msgID)
    + [SP] + PrintedSd(m.structuredData) + PrintedMsg(m.message)
  }

  /** With PRI 1, VERSION 1 and host name `h` alone, `<1>1 - h - - - -`. */
  lemma PrintedExample()
    ensures Printed(EMPTY.(priority := Some(1), version := 1, hostname := Some([104])))
         == [60, 49, 62, 49, 32, 45, 32, 104, 32, 45, 32, 45, 32, 45, 32, 45]
  {
    assert Dec(1) == [49];
  }

  class SyslogMessage {
    var priority: Option<byte>
    var facility: Option<byte>
    var severity: Option<byte>
    var version: nat
    var timestamp: Option<Timestamp>
    var hostname: Option<bytes>
    var appname: Option<bytes>
    var procID: Option<bytes>
    var msgID: Option<bytes>
    var structuredData: Option<StructuredData>
    var message: Option<bytes>

    constructor ()
      ensures Value() == EMPTY
    {
      priority, facility, severity, version, timestamp := None, None, None, 0, None;
      hostname, appname, procID, msgID, structuredData, message := None, None, None, None, None, None;
    }

    function Value(): Message
      reads this
    {
      Message(priority, facility, severity, version, timestamp, hostname, appname, procID, msgID, structuredData, message)
    }

    /** The action at the end of a value that was read to the end. */
    method Store(cs: BuilderState, text: bytes, backslashes: seq<int>, ghost e: EntryPoint, id: bytes, name: bytes)
      requires cs == RunFrom(Translate(e), text) && Legal(e, text) && Stores(cs)
      requires e.EnSdpn? || e.EnSdpv? ==> id in Elements(Value())
      requires e.EnSdpv? ==> backslashes == Slashes(text, 0)
      modifies this
      ensures Value() == Updated(old(Value()), e, text, id, name)
    {
      hide RunFrom, Unescape, ParseTime, Slashes, ParserRun;
      EndState(e, text);
      match cs {
        case Stamping(n) =>
          var t := ParseTime(text);
          if t.Some? { timestamp := t; }
        case Fielding(f, n) =>
          if text != [DASH] {
            match f
            case Hostname => hostname := Some(text);
            case Appname => appname := Some(text);
            case ProcID => procID := Some(text);
            case MsgID => msgID := Some(text);
          }
        case Identifying(n) =>
          if structuredData.None? { structuredData := Some(map[]); }
          if text !in structuredData.value {
            structuredData := Some(structuredData.value[text := map[]]);
          }
        case Naming(n) =>
          var elements := structuredData.value;
          structuredData := Some(elements[id := elements[id][text := []]]);
        case ValueStart => StoreValue(text, backslashes, id, name);
        case Valuing => StoreValue(text, backslashes, id, name);
        case MsgStart => if text != [] { message := Some(text); }
        case Messaging => if text != [] { message := Some(text); }
      }
    }

    method StoreValue(raw: bytes, backslashes: seq<int>, id: bytes, name: bytes)
      requires ValidRaw(raw) && backslashes == Slashes(raw, 0)
      requires id in Elements(Value())
      modifies this
      ensures Value() == PutParam(old(Value()), id, name, Unescape(raw))
    {
      SlashesWithin(raw, 0);
      RemovalUnescapes(raw, 0);
      hide ValidRaw, Slashes, Unescape;
      var text := raw;
      if |backslashes| > 0 {
        text := RemoveBytes(text, backslashes, 0);
      } else {
        WithoutNone(raw, backslashes, 0);
      }
      var elements := structuredData.value;
      structuredData := Some(elements[id := elements[id][name := text]]);
    }

    /** Runs the machine of the entry point over the value and stores what it accepts. */
    method SetWithCtx(from: EntryPoint, value: bytes, currentid: bytes, currentparamname: bytes)
      requires from.EnSdpn? || from.EnSdpv? ==> currentid in Elements(Value())
      modifies this
      ensures Value() == Updated(old(Value()), from, value, currentid, currentparamname)
    {
      hide Next, Recorded, RunFrom, Stores, Updated, Slashes, ValidRaw;
      var p, pb, pe := 0, 0, |value|;
      var cs := Translate(from);
      var backslashes: seq<int> := [];
      assert value[0..] == value;
      while p != pe && cs != Error
        invariant 0 <= p <= pe && pb == 0 && Value() == old(Value())
        invariant cs == Error ==> RunFrom(Translate(from), value) == Error
        invariant cs != Error ==> RunFrom(cs, value[p..]) == RunFrom(Translate(from), value)
        invariant cs != Error ==> backslashes + Recorded(cs, value[p..], p) == Recorded(Translate(from), value, 0)
        decreases pe - p, cs != Error
      {
        OneOctet(cs, value, p);
        if p == 0 { pb := p; }
        if ReadsValue(cs) && value[p] == SLASH { backslashes := backslashes + [p]; }
        cs := Next(cs, value[p]);
        if cs != Error { p := p + 1; }
      }
      MachineIsLegal(from, value);
      AtEnd(cs, value[p..], p);
      assert p == pe ==> |value[p..]| == 0;
      if cs != Error && Stores(cs) {
        assert value[pb..p] == value;
        if from.EnSdpv? { ValueRecorded(value); }
        Store(cs, value[pb..p], backslashes, from, currentid, currentparamname);
      } else {
        Ignored(Value(), from, value, currentid, currentparamname);
      }
    }

    method Set(from: EntryPoint, value: bytes)
      requires !from.EnSdpn? && !from.EnSdpv?
      modifies this
      ensures Value() == Updated(old(Value()), from, value, [], [])
    {
      SetWithCtx(from, value, [], []);
    }

    method SetPriority(value: byte)
      modifies this
      ensures Value() == Apply(old(Value()), Call.SetPriority(value))
      ensures Value() == if value > 191 then old(Value())
                         else old(Value()).(priority := Some(value), facility := Some(value / 8), severity := Some(value % 8))
    {
      if ValidPriority(value) {
        priority := Some(value);
        facility := Some(value / 8);
        severity := Some(value % 8);
      }
    }

    method SetVersion(value: nat)
      modifies this
      ensures Value() == Apply(old(Value()), Call.SetVersion(value))
      ensures Value() == if 1 <= value <= 999 then old(Value()).(version := value) else old(Value())
    {
      if ValidVersion(value) {
        version := value;
      }
    }

    method SetTimestamp(value: bytes)
      modifies this
      ensures Value() == Apply(old(Value()), Call.SetTimestamp(value))
      ensures Value() == old(Value()).(timestamp := timestamp)
    {
      hide ParserRun, ParseTime;
      Set(EnTimestamp, value);
    }

    method SetHostname(value: bytes)
      modifies this
      ensures Value() == Apply(old(Value()), Call.SetHostname(value))
      ensures Value() == if 1 <= |value| <= 255 && Visible(value) && value != [45] then old(Value()).(hostname := Some(value))
                         else old(Value())
    {
      Set(EnField(Hostname), value);
    }

    method SetAppname(value: bytes)
      modifies this
      ensures Value() == Apply(old(Value()), Call.SetAppname(value))
      ensures Value() == if 1 <= |value| <= 48 && Visible(value) && value != [45] then old(Value()).(appname := Some(value))
                         else old(Value())
    {
      Set(EnField(Appname), value);
    }

    method SetProcID(value: bytes)
      modifies this
      ensures Value() == Apply(old(Value()), Call.SetProcID(value))
      ensures Value() == if 1 <= |value| <= 128 && Visible(value) && value != [45] then old(Value()).(procID := Some(value))
                         else old(Value())
    {
      Set(EnField(ProcID), value);
    }

    method SetMsgID(value: bytes)
      modifies this
      ensures Value() == Apply(old(Value()), Call.SetMsgID(value))
      ensures Value() == if 1 <= |value| <= 32 && Visible(value) && value != [45] then old(Value()).(msgID := Some(value))
                         else old(Value())
    {
      Set(EnField(MsgID), value);
    }

    method SetElementID(value: bytes)
      modifies this
      ensures Value() == Apply(old(Value()), Call.SetElementID(value))
      ensures Value() == old(Value()).(structuredData := structuredData)
    {
      Set(EnSdid, value);
    }

    method SetParameter(id: bytes, name: bytes, value: bytes)
      modifies this
      ensures Value() == Apply(old(Value()), Call.SetParameter(id, name, value))
    {
      hide Updated;
      Set(EnSdid, id);
      if structuredData.Some? {
        if id in structuredData.value {
          SetWithCtx(EnSdpn, name, id, []);
          if structuredData.Some? && id in structuredData.value && name in structuredData.value[id] {
            SetWithCtx(EnSdpv, value, id, name);
          }
        }
      }
    }

    method SetMessage(value: bytes)
      modifies this
      ensures Value() == Apply(old(Value()), Call.SetMessage(value))
      ensures Value() == if value == [] then old(Value()) else old(Value()).(message := Some(value))
    {
      Set(EnMsg, value);
    }

    predicate Valid()
      reads this
    {
      ValidVersion(version) && (priority.None? || ValidPriority(priority.value))
    }

    /** The text of the message, or an error without a valid PRI and VERSION. */
    method String() returns (text: Option<bytes>)
      requires RealTime(Value())
      ensures text == if priority.None? || !Value().Valid() then None else Some(Printed(Value()))
    {
      if priority.None? || !Valid() {
        return None;
      }
      hide Escape, Format, Dec, PrintedElements;
      var t, hn, an, pid, mid, sd, m := [DASH], [DASH], [DASH], [DASH], [DASH], [DASH], [];
      if timestamp.Some? { t := Format(timestamp.value); }
      if hostname.Some? { hn := hostname.value; }
      if appname.Some? { an := appname.value; }
      if procID.Some? { pid := procID.value; }
      if msgID.Some? { mid := msgID.value; }
      if structuredData.Some? { sd := SdString(structuredData.value); }
      if message.Some? { m := [SP] + message.value; }
      text := Some([LT] + Dec(priority.value) + [GT] + Dec(version) + [SP] + t + [SP] + hn + [SP] + an + [SP] + pid
                   + [SP] + mid + [SP] + sd + m);
    }

    static method SdString(elements: StructuredData) returns (sd: bytes)
      ensures sd == PrintedSd(Some(elements))
    {
      hide PrintedElement, PrintedElements, Sorted;
      SortedIn(elements);
      var identifiers := SortedKeys(elements);
      ElementsFrom(elements, identifiers, 0);
      sd := [];
      var i := 0;
      while i < |identifiers|
        invariant 0 <= i <= |identifiers|
        invariant PrintedElements(elements, identifiers) == sd + PrintedElements(elements, identifiers[i..])
      {
        ElementsFrom(elements, identifiers, i);
        var element := ElementString(identifiers[i], elements[identifiers[i]]);
        Regroup(sd, element, PrintedElements(elements, identifiers[i + 1..]));
        sd := sd + element;
        i := i + 1;
      }
      ElementsFrom(elements, identifiers, i);
    }

    static method ElementString(id: bytes, params: Params) returns (element: bytes)
      ensures element == PrintedElement(id, params)
    {
      hide Escape, PrintedParams, Sorted;
      SortedIn(params);
      element := [OPEN] + id;
      ghost var start := element;
      var names := SortedKeys(params);
      ParamsFrom(params, names, 0);
      var i := 0;
      while i < |names|
        invariant 0 <= i <= |names|
        invariant start + PrintedParams(params, names) == element + PrintedParams(params, names[i..])
      {
        ParamsFrom(params, names, i);
        var escaped := EscapeBytes(params[names[i]]);
        var param := [SP] + names[i] + [EQ, DQ] + escaped + [DQ];
        Regroup(element, param, PrintedParams(params, names[i + 1..]));
        element := element + param;
        i := i + 1;
      }
      ParamsFrom(params, names, i);
      element := element + [CLOSE];
    }
  }

  lemma Regroup(a: bytes, b: bytes, c: bytes)
    ensures a + (b + c) == (a + b) + c
  {
  }

  lemma OneOctet(s: BuilderState, v: bytes, p: nat)
    requires p < |v|
    ensures RunFrom(s, v[p..]) == RunFrom(Next(s, v[p]), v[p + 1..])
    ensures Next(s, v[p]) == Error ==> RunFrom(s, v[p..]) == Error
    ensures Recorded(s, v[p..], p)
         == (if ReadsValue(s) && v[p] == SLASH then [p] else []) + Recorded(Next(s, v[p]), v[p + 1..], p + 1)
  {
    hide Next;
    assert v[p..][1..] == v[p + 1..];
    ErrorStays(v[p + 1..]);
  }

  lemma AtEnd(s: BuilderState, v: bytes, p: int)
    ensures v == [] ==> RunFrom(s, v) == s && Recorded(s, v, p) == []
    ensures !Stores(Error)
  {
  }

  lemma ValueRecorded(v: bytes)
    requires ValidRaw(v)
    ensures Recorded(ValueStart, v, 0) == Slashes(v, 0)
  {
    RecordedSlashes(v, 0);
  }

  lemma Ignored(m: Message, e: EntryPoint, v: bytes, id: bytes, name: bytes)
    requires !Legal(e, v)
    ensures Updated(m, e, v, id, name) == m
  {
  }

  /** The final state of an accepted value is one of its entry point. */
  lemma EndState(e: EntryPoint, v: bytes)
    requires Legal(e, v)
    ensures var s := RunFrom(Translate(e), v);
            match e
            case EnTimestamp => s == Stamping(54)
            case EnField(f) => s.Fielding? && s.f == f
            case EnSdid => s.Identifying?
            case EnSdpn => s.Naming?
            case EnSdpv => s == ValueStart || s == Valuing
            case EnMsg => s == MsgStart || s == Messaging
  {
    match e
    case EnTimestamp => MachineIsLegal(e, v);
    case EnField(f) => FieldingRun(f, 1, v[1..]);
    case EnSdid => IdentifyingRun(1, v[1..]);
    case EnSdpn => NamingRun(1, v[1..]);
    case EnSdpv => if v != [] { ValueStartRun(v); ValuingForward(v); }
    case EnMsg => if v != [] { MessagingRun(v[1..]); }
  }
}
