/** common/functions.go: decimal conversion, byte removal, escaping, range checks. */
module Functions {
  import opened Bytes

  // ------------------------------------------------------------------
  // Decimal numerals

  function Pow10(n: nat): (r: nat)
    ensures r >= 1
  {
    if n == 0 then 1 else 10 * Pow10(n - 1)
  }

  /** Positional value of a series of decimal code points, most significant first. */
  function Num(s: bytes): int {
    if s == [] then 0 else 10 * Num(s[..|s| - 1]) + s[|s| - 1] as int - 48
  }

  /** Decimal printing without leading zeros. */
  function Dec(n: nat): (s: bytes)
    ensures |s| > 0 && AllDigits(s)
  {
    if n < 10 then [48 + n] else Dec(n / 10) + [48 + n % 10]
  }

  lemma {:induction false} NumNonNegative(s: bytes)
    requires AllDigits(s)
    ensures 0 <= Num(s) < Pow10(|s|)
  {
    if s != [] { NumNonNegative(s[..|s| - 1]); }
  }

  lemma {:induction false} NumConcat(s: bytes, t: bytes)
    ensures Num(s + t) == Num(s) * Pow10(|t|) + Num(t)
  {
    if t == [] {
      assert s + t == s;
    } else {
      var h, d := t[..|t| - 1], t[|t| - 1];
      assert (s + t)[..|s + t| - 1] == s + h;
      NumConcat(s, h);
      assert 10 * (Num(s) * Pow10(|h|)) == Num(s) * (10 * Pow10(|h|));
    }
  }

  lemma NumPrepend(b: byte, s: bytes)
    ensures Num([b] + s) == (b as int - 48) * Pow10(|s|) + Num(s)
  {
    NumConcat([b], s);
    assert [b][..0] == [];
  }

  /** Reading back what decimal printing wrote. */
  lemma {:induction false} NumDec(n: nat)
    ensures Num(Dec(n)) == n
  {
    if n < 10 {
      assert Dec(n)[..0] == [];
    } else {
      NumDec(n / 10);
      assert Dec(n)[..|Dec(n)| - 1] == Dec(n / 10);
    }
  }

  /** Decimal printing yields canonical numerals and yields them all. */
  lemma {:induction false} DecNum(s: bytes)
    requires s != [] && AllDigits(s)
    requires |s| == 1 || s[0] != ZERO
    ensures Num(s) >= 0 && Dec(Num(s)) == s
    ensures |s| > 1 ==> Num(s) >= 10
  {
    var h := s[..|s| - 1];
    if |s| == 1 {
      assert h == [];
      assert Num(s) == s[0] as int - 48;
    } else {
      DecNum(h);
      assert Num(h) > 0 by {
        if |h| == 1 { assert h[..0] == []; }
      }
      var d := s[|s| - 1] as int - 48;
      assert Num(s) == 10 * Num(h) + d;
      assert Num(s) / 10 == Num(h) && Num(s) % 10 == d;
      assert s == h + [s[|s| - 1]];
    }
  }

  lemma {:induction false} DecLength(n: nat, k: nat)
    requires k >= 1 && n < Pow10(k)
    ensures |Dec(n)| <= k
  {
    if n >= 10 {
      assert k > 1 by { assert Pow10(0) == 1; }
      DecLength(n / 10, k - 1);
    }
  }

  lemma {:induction false} DecFirst(n: nat)
    ensures n > 0 ==> Dec(n)[0] != ZERO
  {
    if n >= 10 { DecFirst(n / 10); }
  }

  /** Number of digits at the head of s. */
  function DigitRun(s: bytes): (n: nat)
    ensures n <= |s| && AllDigits(s[..n])
    ensures n < |s| ==> !IsDigit(s[n])
    decreases |s|
  {
    if s == [] || !IsDigit(s[0]) then 0 else 1 + DigitRun(s[1..])
  }

  lemma {:induction false} DigitRunAtLeast(s: bytes, n: nat)
    requires n <= |s| && AllDigits(s[..n])
    ensures DigitRun(s) >= n
    decreases n
  {
    if n > 0 {
      assert s[0] == s[..n][0] && s[1..][..n - 1] == s[..n][1..];
      DigitRunAtLeast(s[1..], n - 1);
    }
  }

  lemma {:induction false} DigitRunIs(s: bytes, n: nat)
    requires n <= |s| && AllDigits(s[..n]) && (n < |s| ==> !IsDigit(s[n]))
    ensures DigitRun(s) == n
    decreases n
  {
    if n > 0 {
      assert s[0] == s[..n][0] && s[1..][..n - 1] == s[..n][1..];
      DigitRunIs(s[1..], n - 1);
    }
  }

  /**
   The conversion loop of the parser: right to left, with the weight of the
   current position.
   */
  method UnsafeUTF8DecimalCodePointsToInt(chars: bytes) returns (out: int)
    ensures out == Num(chars)
  {
    out := 0;
    var ord := 1;
    var i := |chars| - 1;
    while i >= 0
      invariant -1 <= i < |chars|
      invariant ord == Pow10(|chars| - 1 - i)
      invariant out == Num(chars[i + 1..])
    {
      var curchar: int := chars[i];
      assert chars[i..] == [chars[i]] + chars[i + 1..];
      NumPrepend(chars[i], chars[i + 1..]);
      out := out + (curchar - 48) * ord;
      ord := ord * 10;
      i := i - 1;
    }
    assert chars[0..] == chars;
  }

  // ------------------------------------------------------------------
  // Byte removal

  ghost predicate Increasing(ps: seq<int>) {
    forall i, j :: 0 <= i < j < |ps| ==> ps[i] < ps[j]
  }

  ghost predicate Within(ps: seq<int>, lo: int, hi: int) {
    forall i :: 0 <= i < |ps| ==> lo <= ps[i] < hi
  }

  /** The octets of data whose index, counted from base, is not among ps. */
  function Without(data: bytes, ps: seq<int>, base: int): bytes {
    if data == [] then []
    else (if base in ps then [] else [data[0]]) + Without(data[1..], ps, base + 1)
  }

  lemma {:induction false} WithoutConcat(a: bytes, b: bytes, ps: seq<int>, base: int)
    ensures Without(a + b, ps, base) == Without(a, ps, base) + Without(b, ps, base + |a|)
  {
    if a == [] {
      assert a + b == b;
    } else {
      TailOfConcat(a, b);
      WithoutConcat(a[1..], b, ps, base + 1);
    }
  }

  lemma {:induction false} WithoutAgree(data: bytes, ps: seq<int>, qs: seq<int>, base: int)
    requires forall k :: base <= k < base + |data| ==> (k in ps <==> k in qs)
    ensures Without(data, ps, base) == Without(data, qs, base)
  {
    if data != [] { WithoutAgree(data[1..], ps, qs, base + 1); }
  }

  lemma ShiftIn(ps: seq<int>, qs: seq<int>, k: int, d: int)
    requires |ps| == |qs| && forall i :: 0 <= i < |ps| ==> qs[i] == ps[i] + d
    ensures k in ps <==> k + d in qs
  {
    if k in ps {
      var i :| 0 <= i < |ps| && ps[i] == k;
      assert qs[i] == k + d;
    }
    if k + d in qs {
      var i :| 0 <= i < |qs| && qs[i] == k + d;
      assert ps[i] == k;
    }
  }

  /** Counting from elsewhere. */
  lemma {:induction false} WithoutShift(data: bytes, ps: seq<int>, qs: seq<int>, base: int, d: int)
    requires |ps| == |qs| && forall i :: 0 <= i < |ps| ==> qs[i] == ps[i] + d
    ensures Without(data, qs, base + d) == Without(data, ps, base)
  {
    ShiftIn(ps, qs, base, d);
    if data != [] { WithoutShift(data[1..], ps, qs, base + 1, d); }
  }

  lemma {:induction false} WithoutNone(data: bytes, ps: seq<int>, base: int)
    requires forall k :: base <= k < base + |data| ==> k !in ps
    ensures Without(data, ps, base) == data
  {
    if data != [] { WithoutNone(data[1..], ps, base + 1); }
  }

  /** The octets from the last removed position on, once i positions are gone. */
  ghost function Settled(positions: seq<int>, offset: int, i: nat): int
    requires i <= |positions|
  {
    if i == 0 then 0 else positions[i - 1] - offset + 1
  }

  /**
   Removes the octets at the given positions from a copy of data: every removal
   shifts what follows by one, so the i-th position is corrected by i.
   */
  method RemoveBytes(data: bytes, positions: seq<int>, offset: int) returns (cp: bytes)
    requires Increasing(positions)
    requires Within(positions, offset, offset + |data|)
    ensures cp == Without(data, positions, offset)
  {
    hide Without;
    cp := data;
    var i := 0;
    Start(data, positions, offset);
    while i < |positions|
      invariant 0 <= i <= |positions|
      invariant Removed(data, positions, offset, i, cp)
    {
      var at := positions[i] - i - offset;
      RemoveNext(data, positions, offset, i, cp);
      cp := cp[..at] + cp[at + 1..];
      i := i + 1;
    }
    Finish(data, positions, offset, cp);
  }

  /** cp is data after the removal of its first i positions. */
  ghost predicate Removed(data: bytes, ps: seq<int>, offset: int, i: nat, cp: bytes)
    requires i <= |ps|
  {
    var done := Settled(ps, offset, i);
    && i <= done <= |data|
    && |Without(data[..done], ps, offset)| == done - i
    && cp == Without(data[..done], ps, offset) + data[done..]
  }

  lemma Start(data: bytes, ps: seq<int>, offset: int)
    ensures Removed(data, ps, offset, 0, data)
  {
    assert data[..0] == [] && data[0..] == data;
  }

  lemma Finish(data: bytes, ps: seq<int>, offset: int, cp: bytes)
    requires Increasing(ps) && Within(ps, offset, offset + |data|)
    requires Removed(data, ps, offset, |ps|, cp)
    ensures cp == Without(data, ps, offset)
  {
    hide Without;
    var done := Settled(ps, offset, |ps|);
    AfterLast(ps, offset + done);
    hide Increasing, Within;
    assert data == data[..done] + data[done..];
    WithoutConcat(data[..done], data[done..], ps, offset);
    WithoutNone(data[done..], ps, offset + done);
  }

  lemma AfterLast(ps: seq<int>, lo: int)
    requires Increasing(ps) && (ps != [] ==> ps[|ps| - 1] < lo)
    ensures forall k :: lo <= k ==> k !in ps
  {
  }

  /** One round of RemoveBytes. */
  lemma RemoveNext(data: bytes, ps: seq<int>, offset: int, i: nat, cp: bytes)
    requires Increasing(ps) && Within(ps, offset, offset + |data|)
    requires i < |ps| && Removed(data, ps, offset, i, cp)
    ensures 0 <= ps[i] - i - offset < |cp|
    ensures Removed(data, ps, offset, i + 1, cp[..ps[i] - i - offset] + cp[ps[i] - i - offset + 1..])
  {
    hide Without;
    var done, d := Settled(ps, offset, i), ps[i] - offset;
    var kept := Without(data[..done], ps, offset);
    SkipTo(data, ps, offset, i, done);
    var at := d - i;
    assert |kept| + (d - done) == at;
    assert cp[..at] == kept + data[done..d];
    assert cp[at + 1..] == data[d + 1..];
  }

  /** Up to the i-th position everything stays, and the octet there goes. */
  lemma SkipTo(data: bytes, ps: seq<int>, offset: int, i: nat, done: nat)
    requires Increasing(ps) && Within(ps, offset, offset + |data|)
    requires i < |ps| && done <= ps[i] - offset && done == Settled(ps, offset, i)
    ensures Without(data[..ps[i] - offset + 1], ps, offset)
         == Without(data[..done], ps, offset) + data[done..ps[i] - offset]
  {
    var d := ps[i] - offset;
    Gap(ps, i, offset + done);
    hide Without, Increasing;
    KeepThenDrop(data[done..d], data[d], ps, offset + done, i);
    WithoutConcat(data[..done], data[done..d] + [data[d]], ps, offset);
    Pieces(data, done, d);
  }

  lemma KeepThenDrop(middle: bytes, b: byte, ps: seq<int>, base: int, i: nat)
    requires i < |ps| && ps[i] == base + |middle|
    requires forall k :: base <= k < ps[i] ==> k !in ps
    ensures Without(middle + [b], ps, base) == middle
  {
    assert Without([b], ps, ps[i]) == [];
    hide Without;
    WithoutNone(middle, ps, base);
    WithoutConcat(middle, [b], ps, base);
    assert middle + [] == middle;
  }

  lemma Pieces(data: bytes, lo: nat, d: nat)
    requires lo <= d < |data|
    ensures data[..d + 1] == data[..lo] + (data[lo..d] + [data[d]])
  {
  }

  lemma Gap(ps: seq<int>, i: nat, lo: int)
    requires Increasing(ps) && i < |ps|
    requires i > 0 ==> ps[i - 1] < lo
    ensures forall k :: lo <= k < ps[i] ==> k !in ps
  {
  }
}
