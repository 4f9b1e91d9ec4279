/** Octets, the ASCII constants of the grammars, and Option. */
module Bytes {
  type byte = b: int | 0 <= b < 256
  type bytes = seq<byte>

  datatype Option<+T> = None | Some(value: T)

  const LF: byte := 10
  const CR: byte := 13
  const SP: byte := 32
  const DQ: byte := 34
  const STAR: byte := 42
  const PLUS: byte := 43
  const DASH: byte := 45
  const DOT: byte := 46
  const ZERO: byte := 48
  const NINE: byte := 57
  const COLON: byte := 58
  const LT: byte := 60
  const EQ: byte := 61
  const GT: byte := 62
  const UPPER_T: byte := 84
  const UPPER_Z: byte := 90
  const OPEN: byte := 91
  const SLASH: byte := 92
  const CLOSE: byte := 93

  predicate IsDigit(b: byte) {
    ZERO <= b <= NINE
  }

  predicate AllDigits(s: bytes) {
    forall i :: 0 <= i < |s| ==> IsDigit(s[i])
  }

  predicate First(s: bytes, b: byte) {
    s != [] && s[0] == b
  }

  /** PRINTUSASCII of section 6 of RFC 5424. */
  predicate IsGraph(b: byte) {
    33 <= b <= 126
  }

  /** Visible ASCII, in numbers. */
  predicate Visible(s: bytes) {
    forall i :: 0 <= i < |s| ==> 33 <= s[i] <= 126
  }

  /** The octets of an SD-NAME (section 6 of RFC 5424). */
  predicate IsNameChar(b: byte) {
    IsGraph(b) && b != EQ && b != CLOSE && b != DQ
  }

  /** The three octets a PARAM-VALUE must escape. */
  predicate IsSpecial(b: byte) {
    b == DQ || b == SLASH || b == CLOSE
  }

  /** Dropping the first octet of a concatenation. */
  lemma TailOfConcat(a: bytes, b: bytes)
    requires a != []
    ensures (a + b)[0] == a[0]
    ensures (a + b)[1..] == a[1..] + b
  {
    assert (a + b)[1..] == a[1..] + b;
  }

  function Ascii(s: string): (r: bytes)
    requires forall i :: 0 <= i < |s| ==> s[i] < 128 as char
    ensures |r| == |s|
  {
    seq(|s|, i requires 0 <= i < |s| => s[i] as int)
  }

  /** Where b first is in s; the length of s when it is not there. */
  function IndexOf(s: bytes, b: byte): (n: nat)
    ensures n <= |s| && b !in s[..n]
    ensures n < |s| ==> s[n] == b
    decreases |s|
  {
    if s == [] || s[0] == b then 0
    else
      assert s == [s[0]] + s[1..];
      1 + IndexOf(s[1..], b)
  }

  lemma {:induction false} IndexIs(s: bytes, b: byte, n: nat)
    requires n < |s| && s[n] == b && b !in s[..n]
    ensures IndexOf(s, b) == n
    decreases n
  {
    if n > 0 {
      assert s[0] == s[..n][0] && s[1..][..n - 1] == s[..n][1..];
      IndexIs(s[1..], b, n - 1);
    }
  }
}
