/**
 PRIVAL and VERSION (sections 6.2.1 and 6.2.2 of RFC 5424): the states of
 rfc5424/machine.go for them read exactly the canonical decimals in range, and the
 conversion and the narrowing give their value.
 */
module Numerals {
  import opened Bytes
  import opened Functions
  import opened Messages
  import opened Automaton
  import opened Completeness
  import opened Soundness

  /** Where v leads without leaving the states of the PRIVAL. */
  function ReadPrival(o: Options, c: Config, v: bytes): Option<Config>
    decreases |v|
  {
    if v == [] then (if IsPri(c.cs) then Some(c) else None)
    else if Step(o, c, v[0]).Go? && IsPri(Step(o, c, v[0]).c.cs) then ReadPrival(o, Step(o, c, v[0]).c, v[1..])
    else None
  }

  /** Where v leads without leaving the states of the VERSION. */
  function ReadVersionDigits(o: Options, c: Config, v: bytes): Option<Config>
    decreases |v|
  {
    if v == [] then (if c.cs.Version? then Some(c) else None)
    else if Step(o, c, v[0]).Go? && Step(o, c, v[0]).c.cs.Version? then
      ReadVersionDigits(o, Step(o, c, v[0]).c, v[1..])
    else None
  }

  lemma {:induction false} PrivalRest(o: Options, c: Config, v: bytes)
    requires IsPri(c.cs)
    ensures ReadPrival(o, c, v).Some? <==> AllDigits(v) && PriPath(c.cs, v)
    ensures ReadPrival(o, c, v).Some? ==> ReadPrival(o, c, v).value.token == c.token + v
    decreases |v|
  {
    hide Step, Num;
    if v == [] {
      assert c.token + v == c.token;
    } else {
      StepOnPri(o, c, v[0]);
      var x := StepPri(c, v[0]);
      if v[0] != GT && x.Go? {
        PrivalRest(o, x.c, v[1..]);
        assert c.token + [v[0]] + v[1..] == c.token + v;
      }
    }
  }

  lemma {:induction false} VersionRest(o: Options, c: Config, n: nat, v: bytes)
    requires c.cs == Version(n) && n <= 3
    ensures ReadVersionDigits(o, c, v).Some? <==> AllDigits(v) && n + |v| <= 3
    ensures ReadVersionDigits(o, c, v).Some? ==> ReadVersionDigits(o, c, v).value.token == c.token + v
    decreases |v|
  {
    hide Step, Num;
    if v == [] {
      assert c.token + v == c.token;
    } else {
      StepOnVersion(o, c, n, v[0]);
      var x := StepVersion(c, n, v[0]);
      if v[0] != SP && x.Go? {
        VersionRest(o, x.c, n + 1, v[1..]);
        assert c.token + [v[0]] + v[1..] == c.token + v;
      }
    }
  }

  /** The PRIVAL states read exactly the decimals of 0..191. */
  lemma PrivalIsDecimal(o: Options, c: Config, v: bytes)
    requires c.cs == PriFirst
    ensures ReadPrival(o, c, v).Some? <==> exists n: nat :: ValidPriority(n) && Dec(n) == v
    ensures ReadPrival(o, c, v).Some? ==>
              var d := ReadPrival(o, c, v).value;
              d.token == v && 0 <= Num(v) && Dec(Num(v)) == v && SetPrival(d).priority == Num(v)
  {
    hide Step, Dec, Num;
    if v != [] {
      StepOnPriFirst(o, c, v[0]);
      if IsDigit(v[0]) {
        PrivalRest(o, Step(o, c, v[0]).c, v[1..]);
        assert v == [v[0]] + v[1..];
        if PriPath(PriEntry(v[0]), v[1..]) && AllDigits(v) { PriNumeral(v[0], v[1..]); }
      }
    }
    forall n: nat | ValidPriority(n) && Dec(n) == v ensures ReadPrival(o, c, v).Some? {
      PriDigits(n);
      PrivalRest(o, Step(o, c, v[0]).c, v[1..]);
    }
  }

  /** The VERSION states read exactly the decimals of 1..999. */
  lemma VersionIsDecimal(o: Options, c: Config, v: bytes)
    requires c.cs == Body
    ensures ReadVersionDigits(o, c, v).Some? <==> exists n: nat :: ValidVersion(n) && Dec(n) == v
    ensures ReadVersionDigits(o, c, v).Some? ==>
              var d := ReadVersionDigits(o, c, v).value;
              d.token == v && 0 <= Num(v) && Dec(Num(v)) == v && SetVersion(d).version == Num(v)
  {
    hide Step, Dec, Num;
    if v != [] {
      StepOnBody(o, c, v[0]);
      if 49 <= v[0] <= 57 {
        VersionRest(o, Step(o, c, v[0]).c, 1, v[1..]);
        assert v == [v[0]] + v[1..];
        if AllDigits(v) && |v| <= 3 {
          DecNum(v);
          NumSmall(v);
        }
      }
    }
    forall n: nat | ValidVersion(n) && Dec(n) == v ensures ReadVersionDigits(o, c, v).Some? {
      VersionDigits(n);
      VersionRest(o, Step(o, c, v[0]).c, 1, v[1..]);
    }
  }
}
