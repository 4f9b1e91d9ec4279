/** The structured data and the MSG that a rejected input leaves in rfc5424/machine.go. */
module Salvage {
  import opened Bytes
  import opened Utf8
  import opened Functions
  import opened Timestamps
  import opened Messages
  import opened Automaton
  import opened Invariants
  import opened Stability

  /** Every element of a is one of b, and so is each of its parameter names. */
  ghost predicate Covered(a: StructuredData, b: StructuredData) {
    forall id :: id in a ==> id in b && a[id].Keys <= b[id].Keys
  }

  /** The states whose error exit deletes the current parameter: 19..52, 55 and 57..63. */
  predicate DropsParam(cs: State) {
    BetweenParams(cs) || cs == NameEnd || cs.ValueTail?
  }

  /** What a stop leaves of the structured data. */
  function Remaining(c: Config): StructuredData {
    var sd := c.out.structuredData;
    if c.cs == IdFirst then sd - {c.elem}
    else if DropsParam(c.cs) && c.elem in sd then sd[c.elem := sd[c.elem] - {c.param}]
    else sd
  }

  /** The value that the quote at the end of a parameter stores. */
  function Stored(c: Config): bytes {
    Stripped(if c.cs == ValueFirst then c.(token := []) else c)
  }

  /** A live step stores a new element, stores a parameter, or leaves the structured data as it is. */
  ghost predicate Stores(c: Config, d: Config) {
    var before, after := c.out.structuredData, d.out.structuredData;
    if c.cs.IdRest? && !d.cs.IdRest? then
      c.token !in before && after == before[c.token := map[]] && d.elem == c.token && d.param == c.param
    else if d.cs == ValueEnd then
      && c.elem in before && after == before[c.elem := before[c.elem][c.param := Stored(c)]]
      && d.elem == c.elem && d.param == c.param
    else
      && after == before && d.elem == c.elem
      && d.param == (if d.cs == NameEnd then c.token else c.param)
  }

  /** A stop leaves exactly what Remaining says. */
  ghost predicate Exactly(c: Config, x: Outcome) {
    match x
    case Go(d) => Stores(c, d)
    case Stop(kind, out) => out.structuredData == Remaining(c)
  }

  lemma NewElementDropped(out: Draft, id: bytes)
    requires id !in out.structuredData
    ensures DropElement(NewElement(out, id), id).structuredData == out.structuredData
  {
    assert out.structuredData[id := map[]] - {id} == out.structuredData;
  }

  lemma HeaderExact(o: Options, c: Config, b: byte)
    requires Inv(c) && BeforeSd(c.cs)
    ensures Exactly(c, Step(o, c, b))
  {
    hide Num, ParserNext, ParseTime, Increasing, Within, ParserRun, Stored;
  }

  lemma MessageExact(o: Options, c: Config, b: byte)
    requires InMessage(c.cs)
    ensures Exactly(c, Step(o, c, b))
  {
    hide LeadOctet, TailOctet, Stored;
  }

  lemma ElementExact(o: Options, c: Config, b: byte)
    requires c.cs in {IdFirst, ElementEnd, MsgFirst}
    ensures Exactly(c, Step(o, c, b))
  {
    hide Step, Stored;
    if c.cs == IdFirst {
      StepOnIdFirst(o, c, b);
    } else if c.cs == ElementEnd {
      StepOnElementEnd(o, c, b);
    } else {
      StepOnMsgFirst(o, c, b);
    }
  }

  lemma IdExact(o: Options, c: Config, n: nat, b: byte)
    requires c.cs == IdRest(n)
    ensures Exactly(c, Step(o, c, b))
  {
    StepOnId(o, c, n, b);
    if c.token !in c.out.structuredData { NewElementDropped(c.out, c.token); }
    hide Step, Stored, DropElement;
  }

  lemma BetweenExact(o: Options, c: Config, b: byte)
    requires c.elem in c.out.structuredData && (BetweenParams(c.cs) || c.cs == NameEnd)
    ensures Exactly(c, Step(o, c, b))
  {
    hide Step, Stored;
    if c.cs == NameFirst {
      StepOnNameFirst(o, c, b);
    } else if c.cs.NameRest? {
      StepOnName(o, c, c.cs.count, b);
    } else if c.cs == NameEnd {
      StepOnNameEnd(o, c, b);
    } else {
      StepOnValueEnd(o, c, b);
    }
  }

  lemma ValueExact(o: Options, c: Config, b: byte)
    requires c.elem in c.out.structuredData
    requires c.cs in {ValueFirst, Value, ValueEscape} || c.cs.ValueTail?
    ensures Exactly(c, Step(o, c, b))
  {
    hide Step, LeadOctet, TailOctet, Stripped;
    if c.cs == ValueFirst {
      StepOnValueFirst(o, c, b);
    } else if c.cs == Value {
      StepOnValue(o, c, b);
    } else if c.cs == ValueEscape {
      StepOnValueEscape(o, c, b);
    } else {
      StepOnValueTail(o, c, c.cs.u, b);
    }
  }

  /** What every octet does to the structured data, exactly. */
  lemma StepStores(o: Options, c: Config, b: byte)
    requires Inv(c)
    ensures Exactly(c, Step(o, c, b))
  {
    InElementNames(c);
    hide Step, Inv, Exactly;
    if BeforeSd(c.cs) {
      HeaderExact(o, c, b);
    } else if InMessage(c.cs) {
      MessageExact(o, c, b);
    } else if BetweenParams(c.cs) || c.cs == NameEnd {
      BetweenExact(o, c, b);
    } else if InElement(c.cs) {
      ValueExact(o, c, b);
    } else if c.cs.IdRest? {
      IdExact(o, c, c.cs.count, b);
    } else {
      ElementExact(o, c, b);
    }
  }

  lemma InElementNames(c: Config)
    requires Inv(c)
    ensures InElement(c.cs) ==> c.elem in c.out.structuredData
  {
  }

  /** The end of the input leaves the same as a stop, and loses nothing when it is accepted. */
  lemma EofStores(o: Options, c: Config, col: nat)
    requires Inv(c)
    ensures AtEof(o, c, col).out.structuredData == Remaining(c)
    ensures AtEof(o, c, col).Accepted? ==> Remaining(c) == c.out.structuredData
  {
    InElementNames(c);
    hide AtEof, Inv, Remaining;
    if BeforeSd(c.cs) || InMessage(c.cs) {
      PlainEof(o, c, col);
    } else if c.cs.IdRest? {
      IdEof(o, c, c.cs.count, col);
    } else {
      OtherEof(o, c, col);
    }
  }

  lemma PlainEof(o: Options, c: Config, col: nat)
    requires BeforeSd(c.cs) || InMessage(c.cs)
    ensures AtEof(o, c, col).out.structuredData == Remaining(c) == c.out.structuredData
  {
    hide Num, ParseTime;
  }

  lemma IdEof(o: Options, c: Config, n: nat, col: nat)
    requires c.cs == IdRest(n)
    ensures AtEof(o, c, col).Rejected? && AtEof(o, c, col).out.structuredData == Remaining(c)
  {
    if c.token !in c.out.structuredData { NewElementDropped(c.out, c.token); }
    hide NewElement, DropElement;
  }

  lemma OtherEof(o: Options, c: Config, col: nat)
    requires !BeforeSd(c.cs) && !InMessage(c.cs) && !c.cs.IdRest?
    requires InElement(c.cs) ==> c.elem in c.out.structuredData
    ensures AtEof(o, c, col).out.structuredData == Remaining(c)
    ensures AtEof(o, c, col).Accepted? ==> Remaining(c) == c.out.structuredData
  {
  }

  // ------------------------------------------------------------------
  // What is lost

  /** What was stored last: an element, or a parameter of one. */
  datatype Item = NoItem | AnElement(id: bytes) | AParam(id: bytes, name: bytes)

  function ItemOf(c: Config, d: Config, last: Item): Item {
    if c.cs.IdRest? && !d.cs.IdRest? then AnElement(c.token)
    else if d.cs == ValueEnd then AParam(c.elem, c.param)
    else last
  }

  /** The item stored last on the way through s. */
  function LastItem(o: Options, c: Config, s: bytes, last: Item): Item
    requires Walk(o, c, s).Go?
    decreases |s|
  {
    if s == [] then last else LastItem(o, Step(o, c, s[0]).c, s[1..], ItemOf(c, Step(o, c, s[0]).c, last))
  }

  /** The current names are those of the last item, but for a name that has just been read. */
  ghost predicate IsLast(c: Config, last: Item) {
    var sd := c.out.structuredData;
    match last
    case NoItem => sd == map[]
    case AnElement(id) => id == c.elem && id in sd && sd[id] == map[]
    case AParam(id, name) =>
      id == c.elem && id in sd && name in sd[id] && (HasParamName(c.cs) || name == c.param)
  }

  lemma ItemIsLast(c: Config, d: Config, last: Item)
    requires IsLast(c, last) && Stores(c, d)
    requires d.cs == ValueEnd || !HasParamName(c.cs) || HasParamName(d.cs)
    requires d.cs == NameEnd ==> HasParamName(d.cs)
    ensures IsLast(d, ItemOf(c, d, last))
  {
    hide Stored;
  }

  /** A value is left only through its closing quote. */
  lemma ValueIsLeft(o: Options, c: Config, b: byte)
    requires Step(o, c, b).Go? && HasParamName(c.cs)
    ensures Step(o, c, b).c.cs == ValueEnd || HasParamName(Step(o, c, b).c.cs)
  {
    hide Step, Stripped, LeadOctet, TailOctet;
    if c.cs == NameEnd { StepOnNameEnd(o, c, b); }
    if c.cs == ValueFirst { StepOnValueFirst(o, c, b); }
    if c.cs == Value { StepOnValue(o, c, b); }
    if c.cs == ValueEscape { StepOnValueEscape(o, c, b); }
    if c.cs.ValueTail? { StepOnValueTail(o, c, c.cs.u, b); }
  }

  lemma {:induction false} WalkIsLast(o: Options, c: Config, s: bytes, last: Item)
    requires Inv(c) && IsLast(c, last) && Walk(o, c, s).Go?
    ensures Inv(Walk(o, c, s).c) && IsLast(Walk(o, c, s).c, LastItem(o, c, s, last))
    decreases |s|
  {
    hide Step, Inv, IsLast, Stores, ItemOf, HasParamName;
    if s != [] {
      StepInvariant(o, c, s[0]);
      StepStores(o, c, s[0]);
      var d := Step(o, c, s[0]).c;
      if HasParamName(c.cs) { ValueIsLeft(o, c, s[0]); }
      NameEndHasName();
      ItemIsLast(c, d, last);
      WalkIsLast(o, d, s[1..], ItemOf(c, d, last));
    }
  }

  lemma NameEndHasName()
    ensures HasParamName(NameEnd)
  {
  }

  /**
   Without the item stored last: its element where an identifier was expected, its
   parameter between two parameters; after a name, an earlier value under that name.
   */
  function WithoutLast(c: Config, last: Item): StructuredData {
    var sd := c.out.structuredData;
    if c.cs == IdFirst then (if last == NoItem then sd else sd - {last.id})
    else if BetweenParams(c.cs) then
      (if last.AParam? && last.id in sd then sd[last.id := sd[last.id] - {last.name}] else sd)
    else if (c.cs == NameEnd || c.cs.ValueTail?) && c.elem in sd && c.param in sd[c.elem] then
      sd[c.elem := sd[c.elem] - {c.param}]
    else sd
  }

  lemma LossIsLast(c: Config, last: Item)
    requires Inv(c) && IsLast(c, last)
    ensures Remaining(c) == WithoutLast(c, last)
  {
    BetweenNames(c);
    hide Inv;
    var sd := c.out.structuredData;
    if c.elem in sd {
      if c.param !in sd[c.elem] { assert sd[c.elem] - {c.param} == sd[c.elem]; }
      assert sd[c.elem := sd[c.elem]] == sd;
    }
    assert sd == map[] ==> sd - {c.elem} == sd;
  }

  lemma BetweenNames(c: Config)
    requires Inv(c)
    ensures BetweenParams(c.cs) ==> c.elem in c.out.structuredData
    ensures BetweenParams(c.cs) ==> !HasParamName(c.cs)
  {
  }

  lemma InitialIsLast(o: Options, s: bytes)
    ensures IsLast(Initial(o, s, [], []), NoItem)
  {
  }

  /** The structured data of a rejected input, exactly: what had been read, without the item the stop discards. */
  lemma RejectedElements(o: Options, s: bytes)
    requires Parse(o, s).Rejected?
    ensures var e, c0 := Parse(o, s), Initial(o, s, [], []);
            && e.col <= |s| && Walk(o, c0, s[..e.col]).Go?
            && var c := Walk(o, c0, s[..e.col]).c;
               && Inv(c) && e.out.structuredData == Remaining(c)
               && Remaining(c) == WithoutLast(c, LastItem(o, c0, s[..e.col], NoItem))
  {
    hide Run, Step, Inv, AtEof, IsLast, Remaining, WithoutLast;
    var e, c0 := Parse(o, s), Initial(o, s, [], []);
    InitialInvariant(o, s, [], []);
    InitialIsLast(o, s);
    Rejection(o, c0, s, 0);
    WalkIsLast(o, c0, s[..e.col], NoItem);
    var c := Walk(o, c0, s[..e.col]).c;
    LossIsLast(c, LastItem(o, c0, s[..e.col], NoItem));
    if e.col < |s| { StepStores(o, c, s[e.col]); } else { EofStores(o, c, e.col); }
  }

  // ------------------------------------------------------------------
  // Against accepted inputs

  lemma CoveredTrans(a: StructuredData, b: StructuredData, d: StructuredData)
    requires Covered(a, b) && Covered(b, d)
    ensures Covered(a, d)
  {
  }

  lemma StoresCovers(c: Config, d: Config)
    requires Stores(c, d)
    ensures Covered(c.out.structuredData, d.out.structuredData)
  {
  }

  lemma RemainingCovered(c: Config)
    ensures Covered(Remaining(c), c.out.structuredData)
  {
  }

  lemma {:induction false} AcceptedCovers(o: Options, c: Config, s: bytes, col: nat)
    requires Inv(c) && Run(o, c, s, col).Accepted?
    ensures Covered(c.out.structuredData, Run(o, c, s, col).out.structuredData)
    decreases |s|
  {
    hide Step, Inv, AtEof, Covered, Stores, Remaining;
    if s == [] {
      EofStores(o, c, col);
      RemainingCovered(c);
    } else {
      StepInvariant(o, c, s[0]);
      StepStores(o, c, s[0]);
      var d := Step(o, c, s[0]).c;
      StoresCovers(c, d);
      AcceptedCovers(o, d, s[1..], col + 1);
      CoveredTrans(c.out.structuredData, d.out.structuredData, Run(o, d, s[1..], col + 1).out.structuredData);
    }
  }

  /** Its elements and parameter names are those of every accepted input that shares the octets before the error. */
  lemma SalvagedElements(o: Options, s: bytes, t: bytes)
    requires Parse(o, s).Rejected? && Parse(o, s).col <= |s|
    requires s[..Parse(o, s).col] <= t && Parse(o, t).Accepted?
    ensures Covered(Parse(o, s).out.structuredData, Parse(o, t).out.structuredData)
  {
    hide Run, Step, Inv, AtEof, Covered, Remaining, WithoutLast;
    var e, c0 := Parse(o, s), Initial(o, s, [], []);
    RejectedElements(o, s);
    var k := e.col;
    var c := Walk(o, c0, s[..k]).c;
    RemainingCovered(c);
    if k > 0 {
      assert s[0] == s[..k][0] == t[0];
      SameStart(o, s, t);
      assert t == s[..k] + t[k..];
      RunWalk(o, c0, s[..k], t[k..], 0);
      AcceptedCovers(o, c, t[k..], k);
      CoveredTrans(e.out.structuredData, c.out.structuredData, Parse(o, t).out.structuredData);
    } else {
      NothingSalvaged(c0);
      NothingCovered(Parse(o, t).out.structuredData);
    }
  }

  lemma NothingSalvaged(c: Config)
    requires c.out.structuredData == map[]
    ensures Remaining(c) == map[]
  {
  }

  lemma NothingCovered(sd: StructuredData)
    ensures Covered(map[], sd)
  {
  }

  // ------------------------------------------------------------------
  // The MSG of a rejected input

  /** The token inside a MSG is all that was read of it; nothing is stored before its end. */
  ghost predicate Gathers(c: Config, x: Outcome, b: byte) {
    match x
    case Go(d) =>
      && d.out.message == c.out.message
      && (InMessage(c.cs) ==> InMessage(d.cs) && d.token == c.token + [b])
      && (InMessage(d.cs) && !InMessage(c.cs) ==> d.token == [b])
    case Stop(kind, out) => Yields(c, kind, out)
  }

  ghost predicate Yields(c: Config, kind: ErrorKind, out: Draft) {
    && (kind in {ErrMsg, ErrMsgNotCompliant} <==> InMessage(c.cs))
    && out.message == if InMessage(c.cs) then c.token else c.out.message
  }

  lemma MessageGathers(o: Options, c: Config, b: byte)
    requires Inv(c) && InMessage(c.cs)
    ensures Gathers(c, Step(o, c, b), b)
  {
    EmptyToken(c);
    hide LeadOctet, TailOctet, Inv;
  }

  lemma EmptyToken(c: Config)
    requires Inv(c)
    ensures c.cs == AnyFirst || c.cs == CompliantFirst ==> c.token == []
  {
  }

  lemma HeaderGathers(o: Options, c: Config, b: byte)
    requires BeforeSd(c.cs)
    ensures Gathers(c, Step(o, c, b), b)
  {
    hide Num, ParserNext, ParseTime;
  }

  lemma ElementGathers(o: Options, c: Config, b: byte)
    requires c.cs in {IdFirst, ElementEnd, MsgFirst} || c.cs.IdRest?
    ensures Gathers(c, Step(o, c, b), b)
  {
    hide Step;
    if c.cs == IdFirst { StepOnIdFirst(o, c, b); }
    if c.cs == ElementEnd { StepOnElementEnd(o, c, b); }
    if c.cs == MsgFirst { StepOnMsgFirst(o, c, b); }
    if c.cs.IdRest? { StepOnId(o, c, c.cs.count, b); }
  }

  lemma ParamGathers(o: Options, c: Config, b: byte)
    requires InElement(c.cs)
    ensures Gathers(c, Step(o, c, b), b)
  {
    hide Step, Stripped, LeadOctet, TailOctet;
    match c.cs
    case NameFirst => StepOnNameFirst(o, c, b);
    case NameRest(n) => StepOnName(o, c, n, b);
    case NameEnd => StepOnNameEnd(o, c, b);
    case ValueFirst => StepOnValueFirst(o, c, b);
    case Value => StepOnValue(o, c, b);
    case ValueEscape => StepOnValueEscape(o, c, b);
    case ValueTail(u) => StepOnValueTail(o, c, u, b);
    case ValueEnd => StepOnValueEnd(o, c, b);
  }

  lemma StepGathers(o: Options, c: Config, b: byte)
    requires Inv(c)
    ensures Gathers(c, Step(o, c, b), b)
  {
    hide Step, Inv, Gathers;
    if BeforeSd(c.cs) {
      HeaderGathers(o, c, b);
    } else if InMessage(c.cs) {
      MessageGathers(o, c, b);
    } else if InElement(c.cs) {
      ParamGathers(o, c, b);
    } else {
      ElementGathers(o, c, b);
    }
  }

  ghost predicate EndGathers(c: Config, e: End) {
    if e.Accepted? then e.out.message == (if InMessage(c.cs) then c.token else c.out.message)
    else Yields(c, e.kind, e.out)
  }

  lemma EofGathers(o: Options, c: Config, col: nat)
    requires Inv(c)
    ensures EndGathers(c, AtEof(o, c, col))
  {
    hide Inv, AtEof, EndGathers;
    if InMessage(c.cs) {
      MessageEnd(o, c, col);
    } else if BeforeSd(c.cs) {
      HeaderEnd(o, c, col);
    } else {
      ElementsEnd(o, c, col);
    }
  }

  lemma MessageEnd(o: Options, c: Config, col: nat)
    requires Inv(c) && InMessage(c.cs)
    ensures EndGathers(c, AtEof(o, c, col))
  {
    EmptyToken(c);
    hide Inv;
  }

  lemma HeaderEnd(o: Options, c: Config, col: nat)
    requires BeforeSd(c.cs)
    ensures EndGathers(c, AtEof(o, c, col))
  {
    hide Num, ParseTime;
  }

  lemma ElementsEnd(o: Options, c: Config, col: nat)
    requires !BeforeSd(c.cs) && !InMessage(c.cs)
    ensures EndGathers(c, AtEof(o, c, col))
  {
  }

  /** Inside a MSG an accepted run takes the rest of the input for it. */
  lemma {:induction false} AcceptedGathers(o: Options, c: Config, s: bytes, col: nat)
    requires Inv(c) && InMessage(c.cs) && Run(o, c, s, col).Accepted?
    ensures Run(o, c, s, col).out.message == c.token + s
    decreases |s|
  {
    hide Step, Inv, AtEof;
    if s == [] {
      EofGathers(o, c, col);
      assert c.token + s == c.token;
    } else {
      StepInvariant(o, c, s[0]);
      StepGathers(o, c, s[0]);
      AcceptedGathers(o, Step(o, c, s[0]).c, s[1..], col + 1);
      assert c.token + [s[0]] + s[1..] == c.token + s;
    }
  }

  /** After p octets of s the octets gathered are the last ones. */
  ghost predicate IsTail(c: Config, s: bytes, p: nat) {
    && c.out.message == [] && p <= |s|
    && (InMessage(c.cs) ==> |c.token| <= p && c.token == s[p - |c.token|..p])
  }

  lemma TailGrows(c: Config, x: Outcome, s: bytes, p: nat)
    requires p < |s| && IsTail(c, s, p) && x.Go? && Gathers(c, x, s[p])
    ensures IsTail(x.c, s, p + 1)
  {
    if InMessage(c.cs) {
      assert s[p - |c.token|..p + 1] == s[p - |c.token|..p] + [s[p]];
    }
  }

  lemma {:induction false} WalkGathers(o: Options, c: Config, s: bytes, p: nat, k: nat)
    requires p <= k <= |s| && Inv(c) && IsTail(c, s, p) && Walk(o, c, s[p..k]).Go?
    ensures IsTail(Walk(o, c, s[p..k]).c, s, k)
    decreases k - p
  {
    hide Step, Inv, IsTail, Gathers;
    if p < k {
      assert s[p..k][1..] == s[p + 1..k];
      StepInvariant(o, c, s[p]);
      StepGathers(o, c, s[p]);
      TailGrows(c, Step(o, c, s[p]), s, p);
      WalkGathers(o, Step(o, c, s[p]).c, s, p + 1, k);
    }
  }

  lemma InitialTail(o: Options, s: bytes)
    ensures IsTail(Initial(o, s, [], []), s, 0)
  {
  }

  /** The configuration at the error of a rejected input. */
  lemma ErrorConfig(o: Options, s: bytes) returns (c: Config)
    requires Parse(o, s).Rejected?
    ensures var e := Parse(o, s);
            && e.col <= |s| && Walk(o, Initial(o, s, [], []), s[..e.col]) == Go(c)
            && Inv(c) && Yields(c, e.kind, e.out)
            && c.out.message == []
            && (InMessage(c.cs) ==> e.col > 0 && |c.token| <= e.col && c.token == s[e.col - |c.token|..e.col])
  {
    hide Run, Step, Inv, AtEof, WithoutLast, Remaining, IsTail, Yields;
    var e, c0 := Parse(o, s), Initial(o, s, [], []);
    var k := e.col;
    RejectedElements(o, s);
    c := Walk(o, c0, s[..k]).c;
    InitialInvariant(o, s, [], []);
    InitialTail(o, s);
    assert s[0..k] == s[..k];
    WalkGathers(o, c0, s, 0, k);
    Rejection(o, c0, s, 0);
    ErrorYields(o, c, s, e);
    TailFacts(c, s, k);
    if InMessage(c.cs) { NotAtStart(o, s, k); }
  }

  /**
   The MSG of a rejected input: nothing for an error before it; for one inside it the
   octets from its first to the error, with which the MSG of every accepted input that
   shares the octets before the error starts.
   */
  lemma SalvagedMessage(o: Options, s: bytes, t: bytes)
    requires Parse(o, s).Rejected? && Parse(o, s).col <= |s|
    ensures var e := Parse(o, s);
            if e.kind in {ErrMsg, ErrMsgNotCompliant} then
              && |e.out.message| <= e.col && e.out.message == s[e.col - |e.out.message|..e.col]
              && (s[..e.col] <= t && Parse(o, t).Accepted? ==> Parse(o, t).out.message == e.out.message + t[e.col..])
            else e.out.message == []
  {
    hide Run, Inv, InMessage, Initial, Walk;
    var k := Parse(o, s).col;
    var c := ErrorConfig(o, s);
    if InMessage(c.cs) && s[..k] <= t && Parse(o, t).Accepted? {
      MessageGoesOn(o, s, t, k, c);
    }
  }

  lemma MessageGoesOn(o: Options, s: bytes, t: bytes, k: nat, c: Config)
    requires 0 < k <= |s| && s[..k] <= t && Parse(o, t).Accepted?
    requires Walk(o, Initial(o, s, [], []), s[..k]) == Go(c) && Inv(c) && InMessage(c.cs)
    ensures Parse(o, t).out.message == c.token + t[k..]
  {
    hide Run, Inv, InMessage, Walk, Initial;
    assert s[0] == s[..k][0] == t[0];
    SameStart(o, s, t);
    assert t == s[..k] + t[k..];
    RunWalk(o, Initial(o, s, [], []), s[..k], t[k..], 0);
    AcceptedGathers(o, c, t[k..], k);
  }

  lemma ErrorYields(o: Options, c: Config, s: bytes, e: End)
    requires Inv(c) && e.Rejected? && e.col <= |s|
    requires if e.col < |s| then Step(o, c, s[e.col]) == Stop(e.kind, e.out) else AtEof(o, c, e.col) == e
    ensures Yields(c, e.kind, e.out)
  {
    hide Step, AtEof, Inv, Yields;
    if e.col < |s| { StepGathers(o, c, s[e.col]); } else { EofGathers(o, c, e.col); }
  }

  lemma TailFacts(c: Config, s: bytes, k: nat)
    requires IsTail(c, s, k)
    ensures c.out.message == []
    ensures InMessage(c.cs) ==> |c.token| <= k <= |s| && c.token == s[k - |c.token|..k]
  {
  }

  lemma NotAtStart(o: Options, s: bytes, k: nat)
    requires k <= |s| && Walk(o, Initial(o, s, [], []), s[..k]).Go?
    requires InMessage(Walk(o, Initial(o, s, [], []), s[..k]).c.cs)
    ensures k > 0
  {
  }

  // ------------------------------------------------------------------
  // The current parameter inside a parameter

  /** All of s is read without leaving the states 52..54 and 56..63. */
  predicate StaysInParam(o: Options, c: Config, s: bytes)
    decreases |s|
  {
    HasParamName(c.cs) &&
    (s == [] || (Step(o, c, s[0]).Go? && StaysInParam(o, Step(o, c, s[0]).c, s[1..])))
  }

  lemma {:induction false} ParamStays(o: Options, c: Config, s: bytes)
    requires Inv(c) && StaysInParam(o, c, s)
    ensures Walk(o, c, s).Go?
    ensures var d := Walk(o, c, s).c;
            d.elem == c.elem && d.param == c.param && d.out.structuredData == c.out.structuredData
    decreases |s|
  {
    hide Step, Inv, Stores;
    if s != [] {
      var d := Step(o, c, s[0]).c;
      StepInvariant(o, c, s[0]);
      StepStores(o, c, s[0]);
      ParamStays(o, d, s[1..]);
      assert HasParamName(d.cs);
      InsideStores(o, c, s[0]);
    }
  }

  lemma InsideStores(o: Options, c: Config, b: byte)
    requires HasParamName(c.cs) && Step(o, c, b).Go? && HasParamName(Step(o, c, b).c.cs)
    requires Stores(c, Step(o, c, b).c)
    ensures var d := Step(o, c, b).c;
            d.elem == c.elem && d.param == c.param && d.out.structuredData == c.out.structuredData
  {
    hide Step, Stored, Stripped, LeadOctet, TailOctet;
    if c.cs == NameEnd { StepOnNameEnd(o, c, b); }
    if c.cs == ValueFirst { StepOnValueFirst(o, c, b); }
    if c.cs == Value { StepOnValue(o, c, b); }
    if c.cs == ValueEscape { StepOnValueEscape(o, c, b); }
    if c.cs.ValueTail? { StepOnValueTail(o, c, c.cs.u, b); }
  }

  /**
   From the equals sign to the end of the value the current parameter belongs to the
   element, if that has parameters, exactly when the name that was read is the first or
   one of the element's names already.
   */
  lemma CurrentParamInside(o: Options, c: Config, s: bytes)
    requires Inv(c) && c.cs.NameRest? && StaysInParam(o, Step(o, c, EQ).c, s)
    ensures Step(o, c, EQ).Go? && Walk(o, Step(o, c, EQ).c, s).Go?
    ensures var sd := c.out.structuredData;
            && c.elem in sd
            && (CurrentParam(Walk(o, Step(o, c, EQ).c, s).c) <==> sd[c.elem] == map[] || c.token in sd[c.elem])
  {
    StepInvariant(o, c, EQ);
    StepOnName(o, c, c.cs.count, EQ);
    BetweenNames(c);
    hide Step, Inv;
    ParamStays(o, Step(o, c, EQ).c, s);
  }

  /** One octet of a walk. */
  lemma WalkOne(o: Options, c: Config, b: byte, rest: bytes)
    ensures Walk(o, c, [b] + rest) == if Step(o, c, b).Go? then Walk(o, Step(o, c, b).c, rest) else Step(o, c, b)
  {
    hide Step;
    assert ([b] + rest)[1..] == rest;
  }

  lemma WalkNilField(o: Options, c: Config, f: Field, rest: bytes)
    requires c.cs == FieldFirst(f)
    ensures Walk(o, c, [DASH] + ([SP] + rest))
         == Walk(o, c.(cs := AfterField(f), token := [], out := Automaton.SetField(c.out, f, [DASH])), rest)
  {
    hide Step, Walk;
    StepOnFieldFirst(o, c, f, DASH);
    WalkOne(o, c, DASH, [SP] + rest);
    var d := c.(cs := FieldRest(f, 1), token := [DASH]);
    StepOnField(o, d, f, 1, SP);
    WalkOne(o, d, SP, rest);
  }

  /** `<1>1 - - - - - [` and what follows. */
  function OpenedText(rest: bytes): bytes {
    [LT] + ([49] + ([GT] + ([49] + ([SP] + ([DASH] + ([SP] + ([DASH] + ([SP] + ([DASH] + ([SP]
    + ([DASH] + ([SP] + ([DASH] + ([SP] + ([OPEN] + rest)))))))))))))))
  }

  lemma WalkOpened(o: Options, c: Config, rest: bytes) returns (d: Config)
    requires c.cs == Start && c.out == BLANK
    ensures d.cs == IdFirst && d.out.structuredData == map[]
    ensures Walk(o, c, OpenedText(rest)) == Walk(o, d, rest)
  {
    hide Step, Walk, Num;
    var sd := [OPEN] + rest;
    var m := [DASH] + ([SP] + sd);
    var p := [DASH] + ([SP] + m);
    var a := [DASH] + ([SP] + p);
    var h := [DASH] + ([SP] + a);
    var t := [DASH] + ([SP] + h);
    var c1, v := WalkPriVersion(o, c, t);
    assert OpenedText(rest) == v;
    WalkOne(o, c1, DASH, [SP] + h);
    StepOnTimeFirst(o, c1, DASH);
    var c2 := c1.(cs := TimeNil);
    WalkOne(o, c2, SP, h);
    StepOnTimeNil(o, c2, SP);
    var c3 := c1.(cs := FieldFirst(Hostname));
    WalkNilField(o, c3, Hostname, a);
    var c4 := c3.(cs := FieldFirst(Appname), token := [], out := Automaton.SetField(c3.out, Hostname, [DASH]));
    WalkNilField(o, c4, Appname, p);
    var c5 := c4.(cs := FieldFirst(ProcID), token := [], out := Automaton.SetField(c4.out, Appname, [DASH]));
    WalkNilField(o, c5, ProcID, m);
    var c6 := c5.(cs := FieldFirst(MsgID), token := [], out := Automaton.SetField(c5.out, ProcID, [DASH]));
    WalkNilField(o, c6, MsgID, sd);
    var c7 := c6.(cs := SdFirst, token := [], out := Automaton.SetField(c6.out, MsgID, [DASH]));
    WalkOne(o, c7, OPEN, rest);
    StepOnSdFirst(o, c7, OPEN);
    d := Step(o, c7, OPEN).c;
  }

  lemma WalkPriVersion(o: Options, c: Config, t: bytes) returns (d: Config, v: bytes)
    requires c.cs == Start && c.out == BLANK
    ensures v == [LT] + ([49] + ([GT] + ([49] + ([SP] + t))))
    ensures d.cs == TimeFirst && d.out.structuredData == map[] && Walk(o, c, v) == Walk(o, d, t)
  {
    hide Step, Walk, Num;
    v := [LT] + ([49] + ([GT] + ([49] + ([SP] + t))));
    WalkOne(o, c, LT, [49] + ([GT] + ([49] + ([SP] + t))));
    StepOnStart(o, c, LT);
    var c1 := c.(cs := PriFirst);
    WalkOne(o, c1, 49, [GT] + ([49] + ([SP] + t)));
    StepOnPriFirst(o, c1, 49);
    var c2 := Step(o, c1, 49).c;
    WalkOne(o, c2, GT, [49] + ([SP] + t));
    StepOnPri(o, c2, GT);
    var c3 := Step(o, c2, GT).c;
    WalkOne(o, c3, 49, [SP] + t);
    StepOnBody(o, c3, 49);
    var c4 := Step(o, c3, 49).c;
    WalkOne(o, c4, SP, t);
    StepOnVersion(o, c4, 1, SP);
    d := Step(o, c4, SP).c;
  }

  /** `a x="1" y=`, after the bracket. */
  function TwoNames(): bytes {
    [97] + ([SP] + ([120] + ([EQ] + ([DQ] + ([49] + ([DQ] + ([SP] + ([121] + ([EQ] + [])))))))))
  }

  lemma WalkTwoNames(o: Options, c: Config) returns (d: Config)
    requires c.cs == IdFirst && c.out.structuredData == map[]
    ensures Walk(o, c, TwoNames()) == Go(d)
    ensures d.cs == NameEnd && d.elem == [97] && d.param == [121]
    ensures d.elem in d.out.structuredData && [120] in d.out.structuredData[d.elem]
    ensures d.param !in d.out.structuredData[d.elem]
  {
    hide Step, Walk;
    var s1 := [SP] + ([121] + ([EQ] + []));
    var s2 := [DQ] + ([49] + ([DQ] + s1));
    var c2 := WalkElementId(o, c, [120] + ([EQ] + s2));
    var c3 := WalkParamName(o, c2, 120, s2);
    var c4, v := WalkOneValue(o, c3, s1);
    OneParam(c3.out, v);
    hide SetParam;
    WalkOne(o, c4, SP, [121] + ([EQ] + []));
    StepOnValueEnd(o, c4, SP);
    d := WalkParamName(o, c4.(cs := NameFirst), 121, []);
    WalkedNothing(o, d);
  }

  lemma WalkElementId(o: Options, c: Config, rest: bytes) returns (d: Config)
    requires c.cs == IdFirst && c.out.structuredData == map[]
    ensures d.cs == NameFirst && d.elem == [97] && d.out.structuredData == map[[97] := map[]]
    ensures Walk(o, c, [97] + ([SP] + rest)) == Walk(o, d, rest)
  {
    hide Step, Walk;
    WalkOne(o, c, 97, [SP] + rest);
    StepOnIdFirst(o, c, 97);
    var c1 := c.(cs := IdRest(1), token := [97]);
    WalkOne(o, c1, SP, rest);
    StepOnId(o, c1, 1, SP);
    d := Step(o, c1, SP).c;
  }

  lemma OneParam(out: Draft, v: bytes)
    requires out.structuredData == map[[97] := map[]]
    ensures SetParam(out, [97], [120], v).structuredData == map[[97] := map[[120] := v]]
    ensures [120] != [121]
  {
    assert [120][0] != [121][0];
  }

  lemma WalkedNothing(o: Options, c: Config)
    ensures Walk(o, c, []) == Go(c)
  {
  }

  lemma WalkParamName(o: Options, c: Config, b: byte, rest: bytes) returns (d: Config)
    requires c.cs == NameFirst && IsNameChar(b)
    ensures d == c.(cs := NameEnd, token := [], backslashes := [], param := [b])
    ensures Walk(o, c, [b] + ([EQ] + rest)) == Walk(o, d, rest)
  {
    hide Step, Walk;
    WalkOne(o, c, b, [EQ] + rest);
    StepOnNameFirst(o, c, b);
    var c1 := c.(cs := NameRest(1), token := [b], backslashes := []);
    WalkOne(o, c1, EQ, rest);
    StepOnName(o, c1, 1, EQ);
    d := Step(o, c1, EQ).c;
  }

  lemma WalkOneValue(o: Options, c: Config, rest: bytes) returns (d: Config, v: bytes)
    requires c.cs == NameEnd && c.backslashes == [] && c.elem in c.out.structuredData
    ensures d.cs == ValueEnd && d.elem == c.elem && d.param == c.param
    ensures d.out == SetParam(c.out, c.elem, c.param, v)
    ensures Walk(o, c, [DQ] + ([49] + ([DQ] + rest))) == Walk(o, d, rest)
  {
    hide Step, Walk, SetParam, Stripped;
    WalkOne(o, c, DQ, [49] + ([DQ] + rest));
    StepOnNameEnd(o, c, DQ);
    var c1 := c.(cs := ValueFirst);
    WalkOne(o, c1, 49, [DQ] + rest);
    StepOnValueFirst(o, c1, 49);
    var c2 := Step(o, c1, 49).c;
    WalkOne(o, c2, DQ, rest);
    StepOnValue(o, c2, DQ);
    d, v := Step(o, c2, DQ).c, Stripped(c2);
  }

  /** After `[a x="1" y=` the current parameter is none of the current element. */
  lemma CurrentParamMissing(o: Options)
    ensures var s := OpenedText(TwoNames());
            && Walk(o, Initial(o, s, [], []), s).Go?
            && var c := Walk(o, Initial(o, s, [], []), s).c;
               c.cs == NameEnd && c.elem in c.out.structuredData && c.out.structuredData[c.elem] != map[] && !CurrentParam(c)
  {
    hide Walk;
    var s := OpenedText(TwoNames());
    var d := WalkOpened(o, Initial(o, s, [], []), TwoNames());
    var e := WalkTwoNames(o, d);
  }
}
