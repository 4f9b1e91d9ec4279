/**
 Escaping of structured data values: common.EscapeBytes, and what the parser and
 the builder undo when they delete the recorded backslashes.
 */
module Escaping {
  import opened Bytes
  import opened Utf8
  import opened Functions

  /** U+FFFD, which a range loop over a string yields for an octet that starts no character. */
  const REPLACEMENT: scalar := 0xFFFD

  /** The rune at the head of a non-empty string, and how many octets it takes. */
  function DecodeRune(s: bytes): (r: (scalar, nat))
    requires s != []
    ensures 1 <= r.1 <= |s|
  {
    if CharLen(s) > 0 then (Scalar(s), CharLen(s)) else (REPLACEMENT, 1)
  }

  function EscapeRune(c: scalar): bytes {
    (if c == 92 || c == 93 || c == 34 then [SLASH] else []) + Encode(c)
  }

  function Escape(v: bytes): bytes
    decreases |v|
  {
    if v == [] then [] else EscapeRune(DecodeRune(v).0) + Escape(v[DecodeRune(v).1..])
  }

  /** Adds a backslash before each `\`, `]` and `"`, rune by rune. */
  method EscapeBytes(value: bytes) returns (sb: bytes)
    ensures sb == Escape(value)
  {
    hide CharLen, Scalar, Encode, Escape;
    sb := [];
    var i := 0;
    assert value[0..] == value;
    while i < |value|
      invariant 0 <= i <= |value|
      invariant Escape(value) == sb + Escape(value[i..])
    {
      var (c, width) := DecodeRune(value[i..]);
      EscapeFirst(value[i..]);
      assert value[i..][width..] == value[i + width..];
      ghost var before := sb;
      if c == 92 || c == 93 || c == 34 {
        sb := sb + [SLASH];
      }
      sb := sb + Encode(c);
      assert sb == before + EscapeRune(c);
      i := i + width;
    }
    EscapeNothing();
    assert value[i..] == [];
  }

  // ------------------------------------------------------------------
  // Raw values: the PARAM-VALUE the parser and the builder accept

  /** Length of the escape pair or unescaped character that w starts with; 0 if none. */
  function UnitLen(w: bytes): (n: nat)
    ensures n <= |w|
  {
    if w == [] then 0
    else if w[0] == SLASH then (if |w| >= 2 && IsSpecial(w[1]) then 2 else 0)
    else if IsSpecial(w[0]) then 0
    else CharLen(w)
  }

  predicate ValidRaw(w: bytes)
    decreases |w|
  {
    w == [] || (UnitLen(w) > 0 && ValidRaw(w[UnitLen(w)..]))
  }

  /** The value a raw value stands for: every escape pair without its backslash. */
  function Unescape(w: bytes): bytes
    requires ValidRaw(w)
    decreases |w|
  {
    if w == [] then []
    else (if w[0] == SLASH then [w[1]] else w[..UnitLen(w)]) + Unescape(w[UnitLen(w)..])
  }

  /** Positions of the escaping backslashes, counted from base. */
  function Slashes(w: bytes, base: int): seq<int>
    requires ValidRaw(w)
    decreases |w|
  {
    if w == [] then []
    else (if w[0] == SLASH then [base] else []) + Slashes(w[UnitLen(w)..], base + UnitLen(w))
  }

  lemma {:induction false} SlashesWithin(w: bytes, base: int)
    requires ValidRaw(w)
    ensures Increasing(Slashes(w, base))
    ensures Within(Slashes(w, base), base, base + |w|)
    decreases |w|
  {
    if w != [] {
      var n := UnitLen(w);
      SlashesWithin(w[n..], base + n);
    }
  }

  /** Octets before the first position stay. */
  lemma KeepHead(head: bytes, rest: bytes, qs: seq<int>, base: int, hi: int)
    requires Within(qs, base + |head|, hi)
    ensures Without(head + rest, qs, base) == head + Without(rest, qs, base + |head|)
  {
    WithoutConcat(head, rest, qs, base);
    WithoutNone(head, qs, base);
  }

  /** The octet at the first position goes, the one after it stays. */
  lemma DropHead(b: byte, rest: bytes, qs: seq<int>, base: int, hi: int)
    requires Within(qs, base + 2, hi)
    ensures Without([SLASH, b] + rest, [base] + qs, base) == [b] + Without(rest, qs, base + 2)
  {
    var w := [SLASH, b] + rest;
    assert w[1..] == [b] + rest;
    WithoutAgree(w[1..], [base] + qs, qs, base + 1);
    KeepHead([b], rest, qs, base + 1, hi);
  }

  /** Deleting the recorded backslashes is unescaping. */
  lemma {:induction false} RemovalUnescapes(w: bytes, base: int)
    requires ValidRaw(w)
    ensures Without(w, Slashes(w, base), base) == Unescape(w)
    decreases |w|
  {
    hide CharLen, Without, Increasing, Within;
    if w == [] {
      WithoutNone(w, [], base);
    } else {
      var n := UnitLen(w);
      var rest := w[n..];
      var qs := Slashes(rest, base + n);
      SlashesWithin(rest, base + n);
      RemovalUnescapes(rest, base + n);
      if w[0] == SLASH {
        assert w == [SLASH, w[1]] + rest;
        DropHead(w[1], rest, qs, base, base + n + |rest|);
      } else {
        assert w == w[..n] + rest;
        assert Slashes(w, base) == [] + qs == qs;
        KeepHead(w[..n], rest, qs, base, base + n + |rest|);
      }
    }
  }

  /** A raw value is text, and so is the value it stands for. */
  lemma {:induction false} RawIsText(w: bytes)
    requires ValidRaw(w)
    ensures WellFormed(w) && WellFormed(Unescape(w))
    decreases |w|
  {
    if w != [] {
      var n := UnitLen(w);
      RawIsText(w[n..]);
      if w[0] == SLASH {
        assert w[1..][1..] == w[2..];
        assert WellFormed(w[1..]);
        assert Unescape(w)[1..] == Unescape(w[2..]);
      } else {
        var u := Unescape(w[n..]);
        assert w == w[..n] + w[n..];
        HeadChar(w[..n], w[n..], u);
      }
    }
  }

  /** A single character stays one whatever follows it. */
  lemma HeadChar(c: bytes, rest: bytes, other: bytes)
    requires c != [] && CharLen(c + rest) == |c|
    ensures CharLen(c + other) == |c| && (c + other)[|c|..] == other
    ensures (c + other)[..|c|] == c && (c + other)[0] == c[0]
    ensures Scalar(c + other) == Scalar(c + rest)
  {
    var s, t := c + rest, c + other;
    assert t[|c|..] == other && t[..|c|] == c;
    assert forall i :: 0 <= i < |c| ==> s[i] == c[i] && t[i] == c[i];
  }

  /** A scalar value that needs escaping is encoded as the one octet that does. */
  lemma SpecialScalar(s: bytes)
    requires CharLen(s) > 0
    ensures Scalar(s) in {34, 92, 93} <==> IsSpecial(s[0])
    ensures IsSpecial(s[0]) ==> CharLen(s) == 1
  {
  }

  lemma EscapeSpecial(b: byte, u: bytes)
    requires IsSpecial(b)
    ensures Escape([b] + u) == [SLASH, b] + Escape(u)
  {
    hide Escape;
    EscapeFirst([b] + u);
    assert ([b] + u)[1..] == u;
  }

  /** A character that needs no escaping is written as it was read. */
  lemma PlainRune(t: bytes)
    requires CharLen(t) > 0 && !IsSpecial(t[0])
    ensures EscapeRune(DecodeRune(t).0) == t[..CharLen(t)] && DecodeRune(t).1 == CharLen(t)
  {
    ScalarEncodes(t);
    SpecialScalar(t);
    hide Encode, Scalar, CharLen;
    assert [] + Encode(Scalar(t)) == Encode(Scalar(t));
  }

  lemma EscapeChar(c: bytes, u: bytes)
    requires CharLen(c) == |c| > 0 && !IsSpecial(c[0])
    ensures Escape(c + u) == c + Escape(u)
  {
    hide Escape, CharLen, DecodeRune, EscapeRune;
    var t := c + u;
    CharLenLocal(c, u);
    assert t[|c|..] == u && t[..|c|] == c && t[0] == c[0];
    PlainRune(t);
    EscapeFirst(t);
  }

  lemma EscapeFirst(v: bytes)
    requires v != []
    ensures Escape(v) == EscapeRune(DecodeRune(v).0) + Escape(v[DecodeRune(v).1..])
  {
  }

  lemma CharAlone(w: bytes)
    requires CharLen(w) > 0
    ensures CharLen(w[..CharLen(w)]) == CharLen(w) && w[..CharLen(w)][0] == w[0]
  {
  }

  /** Escaping undoes unescaping on every raw value that is accepted. */
  lemma {:induction false} EscapeUnescape(w: bytes)
    requires ValidRaw(w)
    ensures Escape(Unescape(w)) == w
    decreases |w|
  {
    hide CharLen, Scalar, Encode, Escape;
    if w == [] {
      EscapeNothing();
    } else {
      var n := UnitLen(w);
      var u := Unescape(w[n..]);
      EscapeUnescape(w[n..]);
      if w[0] == SLASH {
        EscapeSpecial(w[1], u);
        assert w == [SLASH, w[1]] + w[2..];
      } else {
        CharAlone(w);
        EscapeChar(w[..n], u);
        assert w == w[..n] + w[n..];
      }
    }
  }

  lemma EscapeNothing()
    ensures Escape([]) == []
  {
  }

  /** What is left of a string after octets that start no character became U+FFFD. */
  function Repair(v: bytes): bytes
    decreases |v|
  {
    if v == [] then [] else Encode(DecodeRune(v).0) + Repair(v[DecodeRune(v).1..])
  }

  lemma EscapedUnit(c: scalar, rest: bytes)
    ensures UnitLen(EscapeRune(c) + rest) == |EscapeRune(c)|
    ensures (EscapeRune(c) + rest)[|EscapeRune(c)|..] == rest
    ensures if c in {34, 92, 93} then EscapeRune(c) == [SLASH, c] && Encode(c) == [c]
            else EscapeRune(c) == Encode(c) && (EscapeRune(c) + rest)[0] != SLASH
  {
    var w := EscapeRune(c) + rest;
    assert w[|EscapeRune(c)|..] == rest;
    if c in {34, 92, 93} {
      assert EscapeRune(c) == [SLASH, c];
    } else {
      assert EscapeRune(c) == Encode(c);
      EncodedChar(c, rest);
      SpecialScalar(w);
    }
  }

  /**
   Escaping any octets at all gives a raw value that is accepted, and unescaping
   it gives the octets back, up to the repair of what was not text.
   */
  lemma {:induction false} UnescapeEscape(v: bytes)
    ensures ValidRaw(Escape(v)) && Unescape(Escape(v)) == Repair(v)
    decreases |v|
  {
    if v != [] {
      var (c, n) := DecodeRune(v);
      UnescapeEscape(v[n..]);
      EscapedUnit(c, Escape(v[n..]));
      if c !in {34, 92, 93} {
        assert Escape(v)[..|Encode(c)|] == Encode(c);
      }
    }
  }

  /** An octet that starts no character is written as U+FFFD. */
  lemma EscapeInvalid(v: bytes)
    requires v != [] && CharLen(v) == 0
    ensures Escape(v) == [0xEF, 0xBF, 0xBD] + Escape(v[1..])
  {
    hide Escape, CharLen;
    EscapeFirst(v);
    assert Encode(REPLACEMENT) == [0xEF, 0xBF, 0xBD];
    assert EscapeRune(REPLACEMENT) == [] + Encode(REPLACEMENT) == Encode(REPLACEMENT);
  }

  lemma {:induction false} RepairIsText(v: bytes)
    ensures WellFormed(Repair(v))
    ensures WellFormed(v) ==> Repair(v) == v
    decreases |v|
  {
    hide CharLen, Scalar, Encode;
    if v != [] {
      var (c, n) := DecodeRune(v);
      RepairIsText(v[n..]);
      EncodedChar(c, Repair(v[n..]));
      if CharLen(v) > 0 {
        ScalarEncodes(v);
        assert v == v[..n] + v[n..];
      }
    }
  }

  /** Escaping loses nothing exactly on well-formed UTF-8. */
  lemma EscapingRoundTrip(v: bytes)
    ensures ValidRaw(Escape(v))
    ensures Unescape(Escape(v)) == v <==> IsUtf8(v)
  {
    UnescapeEscape(v);
    RepairIsText(v);
    WellFormedIsUtf8(v);
  }

  /** The raw values that are accepted are the escaped texts. */
  lemma RawIsEscapedText(w: bytes)
    ensures ValidRaw(w) <==> exists v: bytes :: IsUtf8(v) && Escape(v) == w
  {
    hide ValidRaw, Escape, Unescape;
    if ValidRaw(w) {
      RawIsText(w);
      WellFormedIsUtf8(Unescape(w));
      EscapeUnescape(w);
    }
    if exists v: bytes :: IsUtf8(v) && Escape(v) == w {
      var v: bytes :| IsUtf8(v) && Escape(v) == w;
      EscapingRoundTrip(v);
    }
  }

  lemma PrependUnit(u: bytes, v: bytes)
    requires UnitLen(u) == |u| > 0 && ValidRaw(v)
    ensures ValidRaw(u + v)
  {
    if u[0] == SLASH {
      assert (u + v)[2..] == v;
    } else {
      CharLenLocal(u, v);
      assert (u + v)[|u|..] == v;
    }
  }

  lemma UnitAlone(w: bytes)
    requires UnitLen(w) > 0
    ensures UnitLen(w[..UnitLen(w)]) == UnitLen(w)
    ensures w[..UnitLen(w)][0] == w[0]
  {
  }
}
