/**
 The UTF-8 sub-automata of the parser (param values, states 57..63; MSG after a
 BOM, states 596..602 and 613) and of the builder (states 45..51), and the
 encoding of section 3 of RFC 3629 they have to agree with.
 */
module Utf8 {
  import opened Bytes

  /**
   Where the automaton stands inside a character: Ready between characters,
   otherwise named after the continuation octets still expected.
   */
  datatype Utf8State = Ready | Tail1 | Tail2 | AfterE0 | AfterED | AfterF0 | AfterF1 | AfterF4 | Bad

  function LeadOctet(b: byte): Utf8State {
    if b < 128 then Ready
    else if b < 194 then Bad
    else if b <= 223 then Tail1
    else if b == 224 then AfterE0
    else if b == 237 then AfterED
    else if b <= 239 then Tail2
    else if b == 240 then AfterF0
    else if b <= 243 then AfterF1
    else if b == 244 then AfterF4
    else Bad
  }

  function TailOctet(u: Utf8State, b: byte): Utf8State {
    match u
    case Tail1 => if 128 <= b <= 191 then Ready else Bad
    case Tail2 => if 128 <= b <= 191 then Tail1 else Bad
    case AfterE0 => if 160 <= b <= 191 then Tail1 else Bad
    case AfterED => if 128 <= b <= 159 then Tail1 else Bad
    case AfterF0 => if 144 <= b <= 191 then Tail2 else Bad
    case AfterF1 => if 128 <= b <= 191 then Tail2 else Bad
    case AfterF4 => if 128 <= b <= 143 then Tail2 else Bad
    case _ => Bad
  }

  function Utf8Step(u: Utf8State, b: byte): Utf8State {
    if u == Ready then LeadOctet(b) else TailOctet(u, b)
  }

  function Utf8Run(u: Utf8State, s: bytes): Utf8State
    decreases |s|
  {
    if s == [] then u else Utf8Run(Utf8Step(u, s[0]), s[1..])
  }

  // ------------------------------------------------------------------
  // The three generated tables, with the numbers of their states; 0 is the error exit

  /** States 54 and 57..63 of the parser, for the octets of a value that are not special. */
  function ValueTable(n: int, b: byte): int {
    match n
    case 54 =>
      if b < 128 then 54
      else if b < 194 then 0
      else if b <= 223 then 57
      else if b == 224 then 58
      else if b == 237 then 60
      else if b <= 239 then 59
      else if b == 240 then 61
      else if b <= 243 then 62
      else if b == 244 then 63
      else 0
    case 57 => if 128 <= b <= 191 then 54 else 0
    case 58 => if 160 <= b <= 191 then 57 else 0
    case 59 => if 128 <= b <= 191 then 57 else 0
    case 60 => if 128 <= b <= 159 then 57 else 0
    case 61 => if 144 <= b <= 191 then 59 else 0
    case 62 => if 128 <= b <= 191 then 59 else 0
    case 63 => if 128 <= b <= 143 then 59 else 0
    case _ => 0
  }

  /** States 613 and 596..602 of the parser. */
  function TextTable(n: int, b: byte): int {
    match n
    case 613 =>
      if b < 128 then 613
      else if b < 194 then 0
      else if b <= 223 then 596
      else if b == 224 then 597
      else if b == 237 then 599
      else if b <= 239 then 598
      else if b == 240 then 600
      else if b <= 243 then 601
      else if b == 244 then 602
      else 0
    case 596 => if 128 <= b <= 191 then 613 else 0
    case 597 => if 160 <= b <= 191 then 596 else 0
    case 598 => if 128 <= b <= 191 then 596 else 0
    case 599 => if 128 <= b <= 159 then 596 else 0
    case 600 => if 144 <= b <= 191 then 598 else 0
    case 601 => if 128 <= b <= 191 then 598 else 0
    case 602 => if 128 <= b <= 143 then 598 else 0
    case _ => 0
  }

  /** States 583 and 45..51 of the builder, for the octets of a value that are not special. */
  function BuilderTable(n: int, b: byte): (m: int)
    ensures m == 0 || m == 583 || 45 <= m <= 51
  {
    match n
    case 583 =>
      if b < 128 then 583
      else if b < 194 then 0
      else if b <= 223 then 45
      else if b == 224 then 46
      else if b == 237 then 48
      else if b <= 239 then 47
      else if b == 240 then 49
      else if b <= 243 then 50
      else if b == 244 then 51
      else 0
    case 45 => if 128 <= b <= 191 then 583 else 0
    case 46 => if 160 <= b <= 191 then 45 else 0
    case 47 => if 128 <= b <= 191 then 45 else 0
    case 48 => if 128 <= b <= 159 then 45 else 0
    case 49 => if 144 <= b <= 191 then 47 else 0
    case 50 => if 128 <= b <= 191 then 47 else 0
    case 51 => if 128 <= b <= 143 then 47 else 0
    case _ => 0
  }

  function ValueNumber(u: Utf8State): int {
    match u
    case Ready => 54
    case Tail1 => 57
    case AfterE0 => 58
    case Tail2 => 59
    case AfterED => 60
    case AfterF0 => 61
    case AfterF1 => 62
    case AfterF4 => 63
    case Bad => 0
  }

  function TextNumber(u: Utf8State): int {
    if u == Bad then 0 else if u == Ready then 613 else ValueNumber(u) + 539
  }

  function BuilderNumber(u: Utf8State): int {
    if u == Bad then 0 else if u == Ready then 583 else ValueNumber(u) - 12
  }

  /** Each table is the automaton of the characters, with states of its own. */
  lemma TablesAgree(u: Utf8State, b: byte)
    ensures ValueTable(ValueNumber(u), b) == ValueNumber(Utf8Step(u, b))
    ensures TextTable(TextNumber(u), b) == TextNumber(Utf8Step(u, b))
    ensures BuilderTable(BuilderNumber(u), b) == BuilderNumber(Utf8Step(u, b))
  {
  }

  function ValueRun(n: int, s: bytes): int
    decreases |s|
  {
    if s == [] then n else ValueRun(ValueTable(n, s[0]), s[1..])
  }

  function TextRun(n: int, s: bytes): int
    decreases |s|
  {
    if s == [] then n else TextRun(TextTable(n, s[0]), s[1..])
  }

  function BuilderCharRun(n: int, s: bytes): int
    decreases |s|
  {
    if s == [] then n else BuilderCharRun(BuilderTable(n, s[0]), s[1..])
  }

  lemma {:induction false} TableRunsAgree(u: Utf8State, s: bytes)
    ensures ValueRun(ValueNumber(u), s) == ValueNumber(Utf8Run(u, s))
    ensures TextRun(TextNumber(u), s) == TextNumber(Utf8Run(u, s))
    ensures BuilderCharRun(BuilderNumber(u), s) == BuilderNumber(Utf8Run(u, s))
    decreases |s|
  {
    hide ValueTable, TextTable, BuilderTable, Utf8Step, ValueNumber, TextNumber, BuilderNumber;
    if s != [] {
      TablesAgree(u, s[0]);
      TableRunsAgree(Utf8Step(u, s[0]), s[1..]);
    }
  }

  // ------------------------------------------------------------------
  // Reference: scalar values and their encoding, section 3 of RFC 3629

  type scalar = v: int | 0 <= v <= 0x10FFFF && !(0xD800 <= v <= 0xDFFF)

  function Encode(v: scalar): (s: bytes)
    ensures 1 <= |s| <= 4
  {
    if v < 0x80 then [v]
    else if v < 0x800 then [0xC0 + v / 64, 0x80 + v % 64]
    else if v < 0x1_0000 then [0xE0 + v / 4096, 0x80 + v / 64 % 64, 0x80 + v % 64]
    else [0xF0 + v / 262144, 0x80 + v / 4096 % 64, 0x80 + v / 64 % 64, 0x80 + v % 64]
  }

  function EncodeAll(vs: seq<scalar>): bytes {
    if vs == [] then [] else Encode(vs[0]) + EncodeAll(vs[1..])
  }

  /** Octets that are the encoding of some text. */
  ghost predicate IsUtf8(s: bytes) {
    exists vs: seq<scalar> :: EncodeAll(vs) == s
  }

  // ------------------------------------------------------------------
  // Decoding of one character

  predicate IsTail(b: byte) {
    128 <= b <= 191
  }

  /** The lead and second octets of three-octet characters, section 4 of RFC 3629. */
  predicate IsThreeOctetHead(a: byte, b: byte) {
    || (a == 0xE0 && 0xA0 <= b <= 0xBF)
    || ((0xE1 <= a <= 0xEC || 0xEE <= a <= 0xEF) && IsTail(b))
    || (a == 0xED && 0x80 <= b <= 0x9F)
  }

  /** The lead and second octets of four-octet characters, section 4 of RFC 3629. */
  predicate IsFourOctetHead(a: byte, b: byte) {
    || (a == 0xF0 && 0x90 <= b <= 0xBF)
    || (0xF1 <= a <= 0xF3 && IsTail(b))
    || (a == 0xF4 && 0x80 <= b <= 0x8F)
  }

  /** Length of the character that s starts with; 0 when s does not start with one. */
  function CharLen(s: bytes): (n: nat)
    ensures n <= 4 && n <= |s|
  {
    if s == [] then 0
    else if s[0] < 128 then 1
    else if |s| >= 2 && 0xC2 <= s[0] <= 0xDF && IsTail(s[1]) then 2
    else if |s| >= 3 && IsThreeOctetHead(s[0], s[1]) && IsTail(s[2]) then 3
    else if |s| >= 4 && IsFourOctetHead(s[0], s[1]) && IsTail(s[2]) && IsTail(s[3]) then 4
    else 0
  }

  /** The scalar value of the character that s starts with. */
  function Scalar(s: bytes): (v: scalar)
    requires CharLen(s) > 0
  {
    var n := CharLen(s);
    var a: int := s[0];
    if n == 1 then a
    else
      var b: int := s[1];
      if n == 2 then (a - 0xC0) * 64 + (b - 0x80)
      else
        var c: int := s[2];
        if n == 3 then (a - 0xE0) * 4096 + (b - 0x80) * 64 + (c - 0x80)
        else
          var d: int := s[3];
          (a - 0xF0) * 262144 + (b - 0x80) * 4096 + (c - 0x80) * 64 + (d - 0x80)
  }

  /** Text, character after character. */
  predicate WellFormed(s: bytes)
    decreases |s|
  {
    s == [] || (CharLen(s) > 0 && WellFormed(s[CharLen(s)..]))
  }

  // ------------------------------------------------------------------
  // The automaton against the encoding

  /** From Ready the automaton returns to Ready exactly after each character. */
  lemma RunChar(s: bytes)
    requires s != []
    ensures CharLen(s) > 0 ==> Utf8Run(Ready, s) == Utf8Run(Ready, s[CharLen(s)..])
    ensures CharLen(s) == 0 ==> Utf8Run(Ready, s) != Ready
  {
    var u1 := LeadOctet(s[0]);
    if u1 == Ready { return; }
    if u1 == Bad { RunBad(s[1..]); return; }
    if |s| == 1 { return; }
    var u2 := TailOctet(u1, s[1]);
    assert Utf8Run(u1, s[1..]) == Utf8Run(u2, s[2..]) by { assert s[1..][1..] == s[2..]; }
    if u2 == Ready { return; }
    if u2 == Bad { RunBad(s[2..]); return; }
    if |s| == 2 { return; }
    var u3 := TailOctet(u2, s[2]);
    assert Utf8Run(u2, s[2..]) == Utf8Run(u3, s[3..]) by { assert s[2..][1..] == s[3..]; }
    if u3 == Ready { return; }
    if u3 == Bad { RunBad(s[3..]); return; }
    if |s| == 3 { return; }
    var u4 := TailOctet(u3, s[3]);
    assert Utf8Run(u3, s[3..]) == Utf8Run(u4, s[4..]) by { assert s[3..][1..] == s[4..]; }
    if u4 == Bad { RunBad(s[4..]); }
  }

  lemma RunBad(s: bytes)
    ensures Utf8Run(Bad, s) == Bad
    decreases |s|
  {
    if s != [] { RunBad(s[1..]); }
  }

  lemma {:induction false} RunIsWellFormed(s: bytes)
    ensures Utf8Run(Ready, s) == Ready <==> WellFormed(s)
    decreases |s|
  {
    if s != [] {
      RunChar(s);
      if CharLen(s) > 0 { RunIsWellFormed(s[CharLen(s)..]); }
    }
  }

  /** What follows a character does not change where it ends. */
  lemma CharLenLocal(s: bytes, t: bytes)
    requires CharLen(s) > 0
    ensures CharLen(s + t) == CharLen(s)
    ensures (s + t)[..CharLen(s)] == s[..CharLen(s)]
    ensures (s + t)[CharLen(s)..] == s[CharLen(s)..] + t
  {
  }

  /** Splitting six bits off a number. */
  lemma Sextet(hi: nat, lo: nat)
    requires lo < 64
    ensures (hi * 64 + lo) / 64 == hi && (hi * 64 + lo) % 64 == lo
  {
  }

  /** The six-bit digits that Encode spreads over its octets. */
  lemma Sextets(v: nat)
    ensures v / 4096 == v / 64 / 64 && v / 262144 == v / 64 / 64 / 64
    ensures v == v / 64 * 64 + v % 64
    ensures v == v / 4096 * 4096 + v / 64 % 64 * 64 + v % 64
    ensures v == v / 262144 * 262144 + v / 4096 % 64 * 4096 + v / 64 % 64 * 64 + v % 64
  {
    assert v / 64 / 64 == v / 4096;
    assert v / 4096 / 64 == v / 262144;
  }

  /** Decoding a character and encoding its scalar value gives the same octets. */
  lemma ScalarEncodes(s: bytes)
    requires CharLen(s) > 0
    ensures Encode(Scalar(s)) == s[..CharLen(s)]
  {
    var n: int, v: int := CharLen(s), Scalar(s);
    var a: int := s[0];
    if n == 2 {
      var b: int := s[1];
      Sextet(a - 0xC0, b - 0x80);
    } else if n == 3 {
      var b: int, c: int := s[1], s[2];
      Sextet((a - 0xE0) * 64 + (b - 0x80), c - 0x80);
      Sextet(a - 0xE0, b - 0x80);
      Sextets(v);
    } else if n == 4 {
      ScalarEncodes4(s);
    }
  }

  lemma ScalarEncodes4(s: bytes)
    requires CharLen(s) == 4
    ensures Encode(Scalar(s)) == s[..4]
  {
    var v: int := Scalar(s);
    var a: int, b: int, c: int, d: int := s[0], s[1], s[2], s[3];
    var hi := (a - 0xF0) * 64 + (b - 0x80);
    Sextet(hi * 64 + (c - 0x80), d - 0x80);
    Sextet(hi, c - 0x80);
    Sextet(a - 0xF0, b - 0x80);
    Sextets(v);
    assert v == (hi * 64 + (c - 0x80)) * 64 + (d - 0x80);
    assert v / 262144 == a - 0xF0 && v / 4096 % 64 == b - 0x80;
  }

  /** An encoded scalar value is exactly one character, and decodes to itself. */
  lemma EncodedChar(v: scalar, t: bytes)
    ensures CharLen(Encode(v) + t) == |Encode(v)|
    ensures (Encode(v) + t)[|Encode(v)|..] == t
    ensures Scalar(Encode(v) + t) == v
  {
    var s := Encode(v) + t;
    assert s[|Encode(v)|..] == t;
    Sextets(v);
    if v < 0x80 {
    } else if v < 0x800 {
      assert s[0] == 0xC0 + v / 64 && s[1] == 0x80 + v % 64;
    } else if v < 0x1_0000 {
      assert s[0] == 0xE0 + v / 4096 && s[1] == 0x80 + v / 64 % 64 && s[2] == 0x80 + v % 64;
      assert IsThreeOctetHead(s[0], s[1]);
    } else {
      assert s[0] == 0xF0 + v / 262144 && s[1] == 0x80 + v / 4096 % 64;
      assert s[2] == 0x80 + v / 64 % 64 && s[3] == 0x80 + v % 64;
      assert IsFourOctetHead(s[0], s[1]);
    }
  }

  lemma {:induction false} EncodeAllWellFormed(vs: seq<scalar>)
    ensures WellFormed(EncodeAll(vs))
  {
    if vs != [] {
      EncodedChar(vs[0], EncodeAll(vs[1..]));
      EncodeAllWellFormed(vs[1..]);
    }
  }

  lemma {:induction false} DecodeAll(s: bytes) returns (vs: seq<scalar>)
    requires WellFormed(s)
    ensures EncodeAll(vs) == s
    decreases |s|
  {
    hide CharLen, Scalar, Encode;
    vs := [];
    if s != [] {
      var n := CharLen(s);
      var rest := DecodeAll(s[n..]);
      ScalarEncodes(s);
      vs := [Scalar(s)] + rest;
      assert vs[1..] == rest;
      assert s == s[..n] + s[n..];
    }
  }

  lemma WellFormedIsUtf8(s: bytes)
    ensures WellFormed(s) <==> IsUtf8(s)
  {
    if WellFormed(s) {
      var vs := DecodeAll(s);
      assert EncodeAll(vs) == s;
    }
    if IsUtf8(s) {
      var vs: seq<scalar> :| EncodeAll(vs) == s;
      EncodeAllWellFormed(vs);
    }
  }

  /** The automaton ends between two characters on exactly the octets that encode some text. */
  lemma AutomatonAcceptsUtf8(s: bytes)
    ensures Utf8Run(Ready, s) == Ready <==> IsUtf8(s)
  {
    RunIsWellFormed(s);
    WellFormedIsUtf8(s);
  }

  /** Each of the three generated tables does. */
  lemma TablesAcceptUtf8(s: bytes)
    ensures ValueRun(54, s) == 54 <==> IsUtf8(s)
    ensures TextRun(613, s) == 613 <==> IsUtf8(s)
    ensures BuilderCharRun(583, s) == 583 <==> IsUtf8(s)
  {
    AutomatonAcceptsUtf8(s);
    TableRunsAgree(Ready, s);
    hide IsUtf8, Utf8Run, ValueRun, TextRun, BuilderCharRun;
  }

  /** The rest of a character, from inside it. */
  predicate CharTail(u: Utf8State, t: bytes)
    decreases |t|
  {
    if u == Ready then t == []
    else t != [] && TailOctet(u, t[0]) != Bad && CharTail(TailOctet(u, t[0]), t[1..])
  }

  lemma CharHasTail(s: bytes)
    requires CharLen(s) > 0
    ensures LeadOctet(s[0]) != Bad
    ensures CharTail(LeadOctet(s[0]), s[1..CharLen(s)])
  {
    var n := CharLen(s);
    if n == 2 {
      assert s[1..n] == [s[1]];
      CharTail1(s[1]);
    } else if n == 3 {
      assert s[1..n] == [s[1]] + [s[2]];
      CharTail1(s[2]);
      assert ([s[1]] + [s[2]])[1..] == [s[2]];
    } else if n == 4 {
      assert s[1..n] == [s[1]] + ([s[2]] + [s[3]]);
      CharTail1(s[3]);
      assert ([s[2]] + [s[3]])[1..] == [s[3]];
      assert ([s[1]] + ([s[2]] + [s[3]]))[1..] == [s[2]] + [s[3]];
      assert CharTail(Tail2, [s[2]] + [s[3]]);
    }
  }

  lemma CharTail1(b: byte)
    requires IsTail(b)
    ensures CharTail(Tail1, [b])
  {
    assert [b][1..] == [];
  }

  /** A lead octet and the tail it asks for are one character. */
  lemma CharTailIsChar(b: byte, t: bytes)
    requires LeadOctet(b) != Bad && CharTail(LeadOctet(b), t)
    ensures CharLen([b] + t) == |t| + 1
  {
    TailLength(LeadOctet(b), t);
  }

  lemma TailLength(u: Utf8State, t: bytes)
    requires CharTail(u, t) && u != Bad
    ensures u == Ready ==> t == []
    ensures u == Tail1 ==> |t| == 1 && IsTail(t[0])
    ensures u in {Tail2, AfterE0, AfterED} ==> |t| == 2 && TailOctet(u, t[0]) == Tail1 && IsTail(t[1])
    ensures u in {AfterF0, AfterF1, AfterF4} ==>
              |t| == 3 && TailOctet(u, t[0]) == Tail2 && IsTail(t[1]) && IsTail(t[2])
    decreases |t|
  {
    if u != Ready {
      TailLength(TailOctet(u, t[0]), t[1..]);
    }
  }
}
