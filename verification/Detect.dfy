/** auto/detect.go: telling RFC 3164 from RFC 5424 by the first octets. */
module Detection {
  import opened Bytes
  import opened Functions
  import opened Messages
  import opened Automaton
  import opened Grammar
  import opened Completeness
  import opened Soundness

  datatype Format = FormatRFC3164 | FormatRFC5424

  const MONTHS: seq<bytes> := [
    [74, 97, 110], [70, 101, 98], [77, 97, 114], [65, 112, 114], [77, 97, 121], [74, 117, 110],
    [74, 117, 108], [65, 117, 103], [83, 101, 112], [79, 99, 116], [78, 111, 118], [68, 101, 99]]

  predicate HasRFC3164MonthPrefix(input: bytes) {
    |input| >= 4 && input[3] == SP && input[..3] in MONTHS
  }

  /** A month name or the year and dash of a date. */
  function DetectWithoutPRI(input: bytes): Format {
    if HasRFC3164MonthPrefix(input) then FormatRFC3164
    else if |input| >= 5 && AllDigits(input[..4]) && input[4] == DASH then FormatRFC3164
    else FormatRFC5424
  }

  predicate IsLetter(b: byte) {
    65 <= b <= 90 || 97 <= b <= 122
  }

  /** The class of what follows a PRI: a VERSION has one to three digits, and no colon after it. */
  function DetectAfterPRI(rest: bytes): Format {
    if rest == [] then FormatRFC5424
    else if IsLetter(rest[0]) || rest[0] == SP || rest[0] == STAR || rest[0] == ZERO then FormatRFC3164
    else if !IsDigit(rest[0]) then FormatRFC5424
    else
      var n := DigitRun(rest);
      if n > 3 || (n < |rest| && rest[n] == COLON) then FormatRFC3164 else FormatRFC5424
  }

  function Detected(input: bytes): Format {
    if input == [] || input[0] != LT || IndexOf(input, GT) == |input| then DetectWithoutPRI(input)
    else DetectAfterPRI(input[IndexOf(input, GT) + 1..])
  }

  method Detect(input: bytes) returns (format: Format)
    ensures format == Detected(input)
  {
    hide DetectWithoutPRI, IndexOf, DigitRun;
    if |input| == 0 || input[0] != LT {
      return DetectWithoutPRI(input);
    }
    var pos := 0;
    while pos < |input| && input[pos] != GT
      invariant 0 <= pos <= |input| && GT !in input[..pos]
    {
      assert input[..pos + 1] == input[..pos] + [input[pos]];
      pos := pos + 1;
    }
    if pos >= |input| {
      assert input[..pos] == input;
      assert IndexOf(input, GT) == |input|;
      return DetectWithoutPRI(input);
    }
    IndexIs(input, GT, pos);
    pos := pos + 1;
    ghost var start := pos;
    ghost var rest := input[start..];
    if pos >= |input| {
      return FormatRFC5424;
    }
    var b := input[pos];
    if IsLetter(b) || b == SP || b == STAR {
      return FormatRFC3164;
    }
    if b == ZERO {
      return FormatRFC3164;
    }
    if 49 <= b <= NINE {
      var digitCount := 1;
      pos := pos + 1;
      while pos < |input| && ZERO <= input[pos] <= NINE
        invariant start < pos <= |input| && digitCount == pos - start
        invariant AllDigits(rest[..digitCount])
      {
        assert rest[..digitCount + 1] == rest[..digitCount] + [input[pos]];
        digitCount := digitCount + 1;
        pos := pos + 1;
      }
      DigitRunIs(rest, digitCount);
      if digitCount > 3 {
        return FormatRFC3164;
      }
      if pos < |input| {
        if input[pos] == SP {
          return FormatRFC5424;
        }
        if input[pos] == COLON {
          return FormatRFC3164;
        }
      }
      return FormatRFC5424;
    }
    return FormatRFC5424;
  }

  // ------------------------------------------------------------------
  // Agreement with the parser

  /** A VERSION and its space are never taken for RFC 3164. */
  lemma VersionDetected(version: nat, rest: bytes)
    requires ValidVersion(version)
    ensures var s := Dec(version) + [SP] + rest;
            DetectAfterPRI(s) == FormatRFC5424 && DetectWithoutPRI(s) == FormatRFC5424 && s[0] != LT
  {
    VersionDigits(version);
    hide Dec, Num;
    var d := Dec(version);
    var s := d + [SP] + rest;
    var n := |d|;
    assert s[..n] == d && s[n] == SP;
    DigitRunIs(s, n);
    assert forall m :: m in MONTHS ==> m[0] >= 65;
    if |s| >= 3 { assert s[..3][0] == d[0]; }
    if |s| >= 5 { assert s[..4][n] == SP; }
  }

  lemma PriDetected(pri: nat, rest: bytes)
    requires ValidPriority(pri)
    ensures Detected(PriText(Some(pri)) + rest) == DetectAfterPRI(rest)
  {
    PriDigits(pri);
    hide Dec, Num, DetectAfterPRI, PriPath;
    var d := Dec(pri);
    var s := PriText(Some(pri)) + rest;
    var n := |d| + 1;
    assert s[..n] == [LT] + d && s[n] == GT;
    forall i | 0 <= i < n ensures s[..n][i] != GT {
      if i > 0 { assert s[..n][i] == d[i - 1]; }
    }
    IndexIs(s, GT, n);
    assert s[n + 1..] == rest;
  }

  /** Every input that the RFC 5424 parser accepts is classified as RFC 5424. */
  lemma DetectionAgrees(o: Options, s: bytes)
    requires Parse(o, s).Accepted?
    ensures Detected(s) == FormatRFC5424
  {
    hide Parse, Dec, Detected, DetectAfterPRI, DetectWithoutPRI, ValidElements, SdText, MsgText, IsField, FieldsText;
    var t := Tree(o, s);
    var time := TimestampText(t.time);
    var rest := (time + [SP] + FieldsText(t)) + (SdText(t.elements) + MsgText(t.msg));
    var body := Dec(t.version) + [SP] + rest;
    assert HeaderText(t) + (SdText(t.elements) + MsgText(t.msg)) == body;
    VersionDetected(t.version, rest);
    if t.pri.Some? {
      PriDetected(t.pri.value, body);
    } else {
      assert s == body;
      NoPri(s);
    }
  }

  lemma NoPri(s: bytes)
    ensures s != [] && s[0] != LT ==> Detected(s) == DetectWithoutPRI(s)
  {
  }

  // ------------------------------------------------------------------
  // The shape of RFC 3164 inputs

  /** After a PRI: a month, a padded or unknown time, or a counter. */
  ghost predicate StartsOld(rest: bytes) {
    && rest != []
    && (|| 65 <= rest[0] <= 90 || 97 <= rest[0] <= 122 || rest[0] == 32 || rest[0] == 42 || rest[0] == 48
        || exists n: nat :: IsCounter(rest, n))
  }

  /** Four digits, or fewer before a colon. */
  predicate IsCounter(rest: bytes, n: nat) {
    1 <= n <= |rest| && AllDigits(rest[..n]) && (n == 4 || (n < 4 && n < |rest| && rest[n] == 58))
  }

  predicate IsMonth(m: bytes) {
    || m == Ascii("Jan") || m == Ascii("Feb") || m == Ascii("Mar") || m == Ascii("Apr")
    || m == Ascii("May") || m == Ascii("Jun") || m == Ascii("Jul") || m == Ascii("Aug")
    || m == Ascii("Sep") || m == Ascii("Oct") || m == Ascii("Nov") || m == Ascii("Dec")
  }

  /** Without a PRI: a month and a space, or a year and a dash. */
  predicate StartsOldTime(s: bytes) {
    || (|s| >= 4 && IsMonth(s[..3]) && s[3] == 32)
    || (|s| >= 5 && AllDigits(s[..4]) && s[4] == 45)
  }

  lemma MonthNames(m: bytes)
    ensures m in MONTHS <==> IsMonth(m)
  {
    hide Ascii;
    HalfYear();
    OtherHalf();
  }

  lemma HalfYear()
    ensures Ascii("Jan") == [74, 97, 110] && Ascii("Feb") == [70, 101, 98] && Ascii("Mar") == [77, 97, 114]
    ensures Ascii("Apr") == [65, 112, 114] && Ascii("May") == [77, 97, 121] && Ascii("Jun") == [74, 117, 110]
  {
  }

  lemma OtherHalf()
    ensures Ascii("Jul") == [74, 117, 108] && Ascii("Aug") == [65, 117, 103] && Ascii("Sep") == [83, 101, 112]
    ensures Ascii("Oct") == [79, 99, 116] && Ascii("Nov") == [78, 111, 118] && Ascii("Dec") == [68, 101, 99]
  {
  }

  lemma OldWithoutPri(s: bytes)
    ensures DetectWithoutPRI(s) == FormatRFC3164 <==> StartsOldTime(s)
  {
    hide IsMonth, MONTHS;
    if |s| >= 4 { MonthNames(s[..3]); }
  }

  lemma OldAfterPri(rest: bytes)
    ensures DetectAfterPRI(rest) == FormatRFC3164 <==> StartsOld(rest)
  {
    hide DigitRun;
    if rest != [] && IsDigit(rest[0]) && rest[0] != 48 {
      var n := DigitRun(rest);
      DigitRunEnds(rest);
      if DetectAfterPRI(rest) == FormatRFC3164 {
        assert IsCounter(rest, if n > 3 then 4 else n);
      }
      if m: nat :| IsCounter(rest, m) {
        if m == 4 { DigitRunAtLeast(rest, 4); } else { DigitRunIs(rest, m); }
      }
    } else if m: nat :| IsCounter(rest, m) {
      assert rest[..m][0] == rest[0];
    }
  }

  lemma DigitRunEnds(s: bytes)
    requires s != [] && IsDigit(s[0])
    ensures 1 <= DigitRun(s) <= |s| && AllDigits(s[..DigitRun(s)])
    ensures forall k :: 0 <= k <= DigitRun(s) ==> AllDigits(s[..k])
  {
    forall k | 0 <= k <= DigitRun(s) ensures AllDigits(s[..k]) {
      assert forall i :: 0 <= i < k ==> s[..k][i] == s[..DigitRun(s)][i];
    }
  }

  /** An input is taken for RFC 3164 exactly when it has one of these shapes. */
  lemma OldByShape(s: bytes)
    ensures Detected(s) == FormatRFC3164
       <==> if First(s, 60) && 62 in s then
              exists pri: bytes, rest: bytes :: 62 !in pri && s == pri + [62] + rest && StartsOld(rest)
            else StartsOldTime(s)
  {
    hide DetectAfterPRI, DetectWithoutPRI, StartsOld, StartsOldTime, IndexOf;
    var i := IndexOf(s, GT);
    OldWithoutPri(s);
    if First(s, 60) && 62 in s {
      assert s[..|s|] == s;
      OldAfterPri(s[i + 1..]);
      assert s == s[..i] + [62] + s[i + 1..];
      if pri: bytes, rest: bytes :| 62 !in pri && s == pri + [62] + rest && StartsOld(rest) {
        assert s[..|pri|] == pri && s[|pri| + 1..] == rest;
        IndexIs(s, GT, |pri|);
      }
    }
  }

  /** `<34>Oct 11` is RFC 3164. */
  lemma OldExample(rest: bytes)
    ensures Detected([60, 51, 52] + [62] + ([79, 99, 116, 32, 49, 49] + rest)) == FormatRFC3164
  {
    hide Detected, StartsOldTime, StartsOld;
    var pri: bytes, after := [60, 51, 52], [79, 99, 116, 32, 49, 49] + rest;
    var s := pri + [62] + after;
    assert s[0] == 60 && s[3] == 62;
    OldMonth(after);
    OldByShape(s);
  }

  lemma OldMonth(rest: bytes)
    requires rest != [] && 65 <= rest[0] <= 90
    ensures StartsOld(rest)
  {
  }
}
