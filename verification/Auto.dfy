/**
 auto/machine.go: a machine that tries the detected format, then the other one, then
 the detected format with best effort. The RFC 3164 machine is abstract: it takes an
 input and returns a message, or refuses it with an error and, with best effort, what it
 has of a message.
 */
module Auto {
  import opened Bytes
  import opened Automaton
  import opened Machines
  import opened Stability
  import opened Detection

  /** What an RFC 3164 message or error is does not matter here. */
  datatype LegacyOutcome<L, E> = Taken(message: L) | Refused(error: E, partial: Option<L>)

  /** The RFC 3164 parser under given settings. */
  datatype Legacy<!L, !E> = Legacy(parse: (seq<nat>, bytes) -> LegacyOutcome<L, E>)

  datatype LegacyReply<L, E> = LegacyReply(message: Option<L>, error: Option<E>)

  function LegacyAnswer<L, E>(g: Legacy<L, E>, settings: seq<nat>, bestEffort: bool, s: bytes): LegacyReply<L, E> {
    match g.parse(settings, s)
    case Taken(message) => LegacyReply(Some(message), None)
    case Refused(error, partial) => LegacyReply(if bestEffort then partial else None, Some(error))
  }

  class LegacyMachine<L, E> {
    const grammar: Legacy<L, E>
    var settings: seq<nat>
    var bestEffort: bool

    constructor (grammar: Legacy<L, E>)
      ensures this.grammar == grammar && settings == [] && !bestEffort
    {
      this.grammar := grammar;
      settings, bestEffort := [], false;
    }

    method Parse(input: bytes) returns (reply: LegacyReply<L, E>)
      ensures reply == LegacyAnswer(grammar, settings, bestEffort, input)
    {
      var outcome := grammar.parse(settings, input);
      if outcome.Refused? {
        return LegacyReply(if bestEffort then outcome.partial else None, Some(outcome.error));
      }
      return LegacyReply(Some(outcome.message), None);
    }
  }

  // ------------------------------------------------------------------
  // Options

  /** LegacyOnly stands for the options that only the RFC 3164 machine has. */
  datatype Effect = BestEffort | CompliantMsg | OptionalPriority | LegacyOnly(setting: nat)

  /** Applied to the other machine an option panics, unless SafeMachineOptions wrapped it: then it does nothing. */
  datatype MachineOption = MachineOption(effect: Effect, safe: bool)

  predicate IsModern(opts: seq<MachineOption>) {
    forall i :: 0 <= i < |opts| ==> opts[i].safe || !opts[i].effect.LegacyOnly?
  }

  predicate IsLegacy(opts: seq<MachineOption>) {
    forall i :: 0 <= i < |opts| ==> opts[i].safe || opts[i].effect.LegacyOnly? || opts[i].effect.BestEffort?
  }

  /** Wrapped options may be given to both machines, with the effect they had. */
  method SafeMachineOptions(opts: seq<MachineOption>) returns (wrapped: seq<MachineOption>)
    ensures |wrapped| == |opts| && IsModern(wrapped) && IsLegacy(wrapped)
    ensures forall i :: 0 <= i < |opts| ==> wrapped[i].effect == opts[i].effect && wrapped[i].safe
  {
    wrapped := [];
    for i := 0 to |opts|
      invariant |wrapped| == i
      invariant forall j :: 0 <= j < i ==> wrapped[j].effect == opts[j].effect && wrapped[j].safe
    {
      wrapped := wrapped + [opts[i].(safe := true)];
    }
  }

  /** One option applied to the RFC 5424 machine. */
  function With(o: Options, effect: Effect): Options {
    match effect
    case BestEffort => o.(bestEffort := true)
    case CompliantMsg => o.(compliantMsg := true)
    case OptionalPriority => o.(optionalPriority := true)
    case LegacyOnly(n) => o
  }

  function Configured(o: Options, opts: seq<MachineOption>): Options
    decreases |opts|
  {
    if opts == [] then o else Configured(With(o, opts[0].effect), opts[1..])
  }

  function Settings(opts: seq<MachineOption>): seq<nat> {
    if opts == [] then []
    else (if opts[0].effect.LegacyOnly? then [opts[0].effect.setting] else []) + Settings(opts[1..])
  }

  predicate Enables(opts: seq<MachineOption>) {
    opts != [] && (opts[0].effect.BestEffort? || Enables(opts[1..]))
  }

  function WithoutBestEffort(opts: seq<MachineOption>): seq<MachineOption> {
    if opts == [] then []
    else (if opts[0].effect.BestEffort? then [] else [opts[0]]) + WithoutBestEffort(opts[1..])
  }

  const PLAIN: Options := Options(false, false, false)

  /** The options without best effort configure the same machine, but a strict one. */
  lemma {:induction false} FilteredIsStrict(o: Options, opts: seq<MachineOption>)
    ensures Configured(o.(bestEffort := false), WithoutBestEffort(opts)) == Configured(o, opts).(bestEffort := false)
    ensures Settings(WithoutBestEffort(opts)) == Settings(opts)
    decreases |opts|
  {
    if opts != [] {
      var rest := WithoutBestEffort(opts[1..]);
      FilteredIsStrict(With(o, opts[0].effect), opts[1..]);
      if opts[0].effect.BestEffort? {
        assert [] + rest == rest;
      } else {
        assert ([opts[0]] + rest)[1..] == rest;
      }
    }
  }

  lemma {:induction false} FilteredOptions(opts: seq<MachineOption>)
    ensures !Enables(WithoutBestEffort(opts))
    ensures IsModern(opts) ==> IsModern(WithoutBestEffort(opts))
    ensures IsLegacy(opts) ==> IsLegacy(WithoutBestEffort(opts))
  {
    if opts != [] {
      var rest := WithoutBestEffort(opts[1..]);
      FilteredOptions(opts[1..]);
      if opts[0].effect.BestEffort? {
        assert [] + rest == rest;
      } else {
        assert ([opts[0]] + rest)[1..] == rest;
      }
    }
  }

  lemma {:induction false} EnablesBestEffort(o: Options, opts: seq<MachineOption>)
    ensures Configured(o, opts).bestEffort <==> o.bestEffort || Enables(opts)
    decreases |opts|
  {
    if opts != [] { EnablesBestEffort(With(o, opts[0].effect), opts[1..]); }
  }

  /** An option applied to an RFC 5424 machine. */
  method ApplyModern(m: Machine, opt: MachineOption)
    requires opt.safe || !opt.effect.LegacyOnly?
    modifies m
    ensures m.Opts() == With(old(m.Opts()), opt.effect)
  {
    match opt.effect {
      case BestEffort => m.WithBestEffort();
      case CompliantMsg => m.compliantMsg := true;
      case OptionalPriority => m.WithOptionalPriority();
      case LegacyOnly(n) =>
    }
  }

  /** An option applied to an RFC 3164 machine. */
  method ApplyLegacy<L, E>(m: LegacyMachine<L, E>, opt: MachineOption)
    requires opt.safe || opt.effect.LegacyOnly? || opt.effect.BestEffort?
    modifies m
    ensures m.settings == old(m.settings) + Settings([opt])
    ensures m.bestEffort == (old(m.bestEffort) || opt.effect.BestEffort?)
  {
    assert [opt][1..] == [];
    if opt.effect.BestEffort? {
      m.bestEffort := true;
    } else if opt.effect.LegacyOnly? {
      m.settings := m.settings + [opt.effect.setting];
    }
  }

  method NewModern(opts: seq<MachineOption>) returns (m: Machine)
    requires IsModern(opts)
    ensures fresh(m) && m.Opts() == Configured(PLAIN, opts)
  {
    m := new Machine();
    var i := 0;
    assert opts[0..] == opts;
    while i < |opts|
      invariant 0 <= i <= |opts|
      invariant Configured(m.Opts(), opts[i..]) == Configured(PLAIN, opts)
    {
      assert opts[i..][1..] == opts[i + 1..];
      ApplyModern(m, opts[i]);
      i := i + 1;
    }
    assert opts[i..] == [];
  }

  lemma NoOptions()
    ensures Settings([]) == [] && WithoutBestEffort([]) == [] && !Enables([])
  {
  }

  lemma NextOption(opts: seq<MachineOption>, i: nat)
    requires i < |opts|
    ensures Settings(opts[i..]) == Settings([opts[i]]) + Settings(opts[i + 1..])
    ensures Enables(opts[i..]) == (opts[i].effect.BestEffort? || Enables(opts[i + 1..]))
    ensures WithoutBestEffort(opts[i..])
         == (if opts[i].effect.BestEffort? then [] else [opts[i]]) + WithoutBestEffort(opts[i + 1..])
  {
    assert opts[i..][1..] == opts[i + 1..];
    assert [opts[i]][1..] == [];
  }

  lemma Moved<T>(a: seq<T>, b: seq<T>, c: seq<T>)
    ensures a + (b + c) == a + b + c
  {
  }

  method NewLegacy<L, E>(grammar: Legacy<L, E>, opts: seq<MachineOption>) returns (m: LegacyMachine<L, E>)
    requires IsLegacy(opts)
    ensures fresh(m) && m.grammar == grammar
    ensures m.settings == Settings(opts) && m.bestEffort == Enables(opts)
  {
    hide Settings, Enables;
    m := new LegacyMachine(grammar);
    var i := 0;
    assert opts[0..] == opts;
    while i < |opts|
      invariant 0 <= i <= |opts|
      invariant m.settings + Settings(opts[i..]) == Settings(opts)
      invariant (m.bestEffort || Enables(opts[i..])) == Enables(opts)
    {
      NextOption(opts, i);
      Moved(m.settings, Settings([opts[i]]), Settings(opts[i + 1..]));
      ApplyLegacy(m, opts[i]);
      i := i + 1;
    }
    NoOptions();
    assert opts[i..] == [];
  }

  /** Probes a fresh RFC 5424 machine with each option; an option that panics there is kept. */
  method FilterBestEffort(opts: seq<MachineOption>) returns (filtered: seq<MachineOption>)
    ensures filtered == WithoutBestEffort(opts)
  {
    hide WithoutBestEffort;
    filtered := [];
    var i := 0;
    assert opts[0..] == opts;
    while i < |opts|
      invariant 0 <= i <= |opts|
      invariant filtered + WithoutBestEffort(opts[i..]) == WithoutBestEffort(opts)
    {
      NextOption(opts, i);
      var enables := false;
      if opts[i].safe || !opts[i].effect.LegacyOnly? {
        var probe := new Machine();
        ApplyModern(probe, opts[i]);
        enables := probe.bestEffort;
      }
      Moved(filtered, if enables then [] else [opts[i]], WithoutBestEffort(opts[i + 1..]));
      if !enables {
        filtered := filtered + [opts[i]];
      }
      i := i + 1;
    }
    NoOptions();
    assert opts[i..] == [];
  }

  method StrictModern(opts: seq<MachineOption>) returns (m: Machine)
    requires IsModern(opts)
    ensures fresh(m) && m.Opts() == Configured(PLAIN, opts).(bestEffort := false)
  {
    FilteredIsStrict(PLAIN, opts);
    FilteredOptions(opts);
    var filtered := FilterBestEffort(opts);
    m := NewModern(filtered);
  }

  method StrictLegacy<L, E>(grammar: Legacy<L, E>, opts: seq<MachineOption>) returns (m: LegacyMachine<L, E>)
    requires IsLegacy(opts)
    ensures fresh(m) && m.grammar == grammar && m.settings == Settings(opts) && !m.bestEffort
  {
    FilteredIsStrict(PLAIN, opts);
    FilteredOptions(opts);
    var filtered := FilterBestEffort(opts);
    m := NewLegacy(grammar, filtered);
  }

  // ------------------------------------------------------------------
  // The machine

  /** The error of one of the two machines. */
  datatype AutoError<E> = OfModern(modern: Option<(ErrorKind, nat)>) | OfLegacy(legacy: Option<E>)

  /** A message of either format, with its error if any, or an error with the input. */
  datatype AutoReply<L, E> =
    | Modern(reply: Reply)
    | Old(old3164: LegacyReply<L, E>)
    | Failed(error: AutoError<E>, raw: bytes)

  datatype AutoConfig<!L, !E> = AutoConfig(
    modern: Options, grammar: Legacy<L, E>, settings: seq<nat>, noFallback: bool, bestEffort: bool)

  /** What Parse returns: the detected format strictly, the other one, the detected one with best effort. */
  function AutoAnswer<L, E>(k: AutoConfig<L, E>, s: bytes): AutoReply<L, E> {
    var modern := Answer(k.modern, Parse(k.modern, s));
    var legacy := LegacyAnswer(k.grammar, k.settings, false, s);
    if Detected(s) == FormatRFC5424 then
      var salvaged := Answer(k.modern.(bestEffort := true), Parse(k.modern.(bestEffort := true), s));
      if modern.message.Some? then Modern(modern)
      else if !k.noFallback && legacy.message.Some? then Old(legacy)
      else if k.bestEffort && salvaged.message.Some? then Modern(salvaged)
      else Failed(OfModern(modern.error), s)
    else
      var salvaged := LegacyAnswer(k.grammar, k.settings, true, s);
      if legacy.message.Some? then Old(legacy)
      else if !k.noFallback && modern.message.Some? then Modern(modern)
      else if k.bestEffort && salvaged.message.Some? then Old(salvaged)
      else Failed(OfLegacy(legacy.error), s)
  }

  class AutoMachine<L, E> {
    const grammar: Legacy<L, E>
    const rfc3164Opts: seq<MachineOption>
    const rfc5424Opts: seq<MachineOption>
    const noFallback: bool
    var bestEffort: bool
    var m3164: LegacyMachine<L, E>
    var m5424: Machine
    var m3164BE: LegacyMachine?<L, E>
    var m5424BE: Machine?

    /** The first two machines are strict, the others have the same options and best effort. */
    ghost predicate Valid()
      reads this, m3164, m5424, m3164BE, m5424BE
    {
      && IsLegacy(rfc3164Opts) && IsModern(rfc5424Opts)
      && m3164.grammar == grammar && m3164.settings == Settings(rfc3164Opts) && !m3164.bestEffort
      && m5424.Opts() == Configured(PLAIN, rfc5424Opts).(bestEffort := false)
      && (bestEffort || (!Enables(rfc3164Opts) && !Enables(rfc5424Opts)))
      && (bestEffort ==>
            && m3164BE != null && m5424BE != null && m5424BE != m5424
            && m3164BE.grammar == grammar && m3164BE.settings == m3164.settings && m3164BE.bestEffort
            && m5424BE.Opts() == m5424.Opts().(bestEffort := true))
    }

    ghost function Configuration(): AutoConfig<L, E>
      reads this, m3164, m5424
    {
      AutoConfig(m5424.Opts(), grammar, m3164.settings, noFallback, bestEffort)
    }

    /** Best effort among the options of either machine is promoted, and filtered from the strict ones. */
    constructor (grammar: Legacy<L, E>, rfc3164Opts: seq<MachineOption>, rfc5424Opts: seq<MachineOption>, noFallback: bool)
      requires IsLegacy(rfc3164Opts) && IsModern(rfc5424Opts)
      ensures Valid() && fresh(m3164) && fresh(m5424)
      ensures m3164BE != null ==> fresh(m3164BE)
      ensures m5424BE != null ==> fresh(m5424BE)
      ensures Configuration()
           == AutoConfig(Configured(PLAIN, rfc5424Opts).(bestEffort := false), grammar, Settings(rfc3164Opts), noFallback,
                     Enables(rfc3164Opts) || Enables(rfc5424Opts))
    {
      hide Configured, Settings, Enables, WithoutBestEffort, IsModern, IsLegacy;
      this.grammar, this.noFallback := grammar, noFallback;
      this.rfc3164Opts, this.rfc5424Opts := rfc3164Opts, rfc5424Opts;
      var strict3164 := NewLegacy(grammar, rfc3164Opts);
      var strict5424 := NewModern(rfc5424Opts);
      EnablesBestEffort(PLAIN, rfc5424Opts);
      bestEffort, m3164BE, m5424BE := false, null, null;
      if strict3164.bestEffort || strict5424.bestEffort {
        bestEffort := true;
        strict3164.bestEffort := true;
        strict5424.WithBestEffort();
        m3164BE, m5424BE := strict3164, strict5424;
        strict3164 := StrictLegacy(grammar, rfc3164Opts);
        strict5424 := StrictModern(rfc5424Opts);
      }
      m3164, m5424 := strict3164, strict5424;
    }

    method WithBestEffort()
      requires Valid()
      modifies this`bestEffort, this`m3164BE, this`m5424BE
      ensures Valid() && Configuration() == old(Configuration()).(bestEffort := true)
    {
      if bestEffort {
        return;
      }
      bestEffort := true;
      m3164BE := NewLegacy(grammar, rfc3164Opts);
      m3164BE.bestEffort := true;
      m5424BE := NewModern(rfc5424Opts);
      m5424BE.WithBestEffort();
    }

    method Parse(input: bytes) returns (reply: AutoReply<L, E>)
      requires Valid()
      modifies m5424, m5424BE
      ensures Valid() && Configuration() == old(Configuration())
      ensures reply == AutoAnswer(Configuration(), input)
    {
      hide Automaton.Parse, Answer, Detected, Configured, Settings;
      var format := Detect(input);
      if format == FormatRFC5424 {
        var modern := m5424.Parse(input);
        if modern.message.Some? {
          return Modern(modern);
        }
        if !noFallback {
          var legacy := m3164.Parse(input);
          if legacy.message.Some? {
            return Old(legacy);
          }
        }
        if bestEffort {
          var salvaged := m5424BE.Parse(input);
          if salvaged.message.Some? {
            return Modern(salvaged);
          }
        }
        return Failed(OfModern(modern.error), input);
      } else {
        var legacy := m3164.Parse(input);
        if legacy.message.Some? {
          return Old(legacy);
        }
        if !noFallback {
          var modern := m5424.Parse(input);
          if modern.message.Some? {
            return Modern(modern);
          }
        }
        if bestEffort {
          var salvaged := m3164BE.Parse(input);
          if salvaged.message.Some? {
            return Old(salvaged);
          }
        }
        return Failed(OfLegacy(legacy.error), input);
      }
    }
  }

  // ------------------------------------------------------------------
  // What the three attempts amount to

  /** The parsers of the detected format and, with fallback, of the other one. */
  predicate StrictlyAccepted<L, E>(k: AutoConfig<L, E>, s: bytes) {
    var modern, legacy := Parse(k.modern, s).Accepted?, k.grammar.parse(k.settings, s).Taken?;
    if Detected(s) == FormatRFC5424 then modern || (!k.noFallback && legacy) else legacy || (!k.noFallback && modern)
  }

  predicate Errorless<L, E>(r: AutoReply<L, E>) {
    match r
    case Modern(reply) => reply.error.None?
    case Old(legacy) => legacy.error.None?
    case Failed(error, raw) => false
  }

  /** An input that the RFC 5424 parser accepts gives its message, whatever else is configured. */
  lemma ModernWins<L, E>(k: AutoConfig<L, E>, s: bytes)
    requires !k.modern.bestEffort && Parse(k.modern, s).Accepted?
    ensures AutoAnswer(k, s) == Modern(Reply(Some(Parse(k.modern, s).out.Export()), None))
  {
    hide Parse, Detected;
    DetectionAgrees(k.modern, s);
  }

  /** There is no error exactly when one of the strict parsers in use accepts. */
  lemma ErrorlessIffAccepted<L, E>(k: AutoConfig<L, E>, s: bytes)
    requires !k.modern.bestEffort
    ensures Errorless(AutoAnswer(k, s)) <==> StrictlyAccepted(k, s)
  {
    hide Run, Detected;
    var lax := k.modern.(bestEffort := true);
    OptionUnread(lax, Initial(lax, s, [], []), s, 0, false);
  }

  /** Best effort changes only what would have failed, and never into a success. */
  lemma BestEffortIsLast<L, E>(k: AutoConfig<L, E>, s: bytes)
    requires !k.modern.bestEffort && !k.bestEffort
    ensures var with, without := AutoAnswer(k.(bestEffort := true), s), AutoAnswer(k, s);
            && (!without.Failed? ==> with == without)
            && (without.Failed? ==> !Errorless(with))
  {
    hide Parse, Detected;
    ErrorlessIffAccepted(k, s);
    ErrorlessIffAccepted(k.(bestEffort := true), s);
  }

  /** The error of the parser that is tried last when all are. */
  function LastError<L, E>(k: AutoConfig<L, E>, s: bytes): AutoError<E> {
    var modern := Answer(k.modern, Parse(k.modern, s));
    var legacy := LegacyAnswer(k.grammar, k.settings, false, s);
    var lax := k.modern.(bestEffort := true);
    if Detected(s) == FormatRFC5424 then
      if k.bestEffort then OfModern(Answer(lax, Parse(lax, s)).error)
      else if !k.noFallback then OfLegacy(legacy.error)
      else OfModern(modern.error)
    else if k.bestEffort then OfLegacy(LegacyAnswer(k.grammar, k.settings, true, s).error)
    else if !k.noFallback then OfModern(modern.error)
    else OfLegacy(legacy.error)
  }

  /** A failure reports the error of the first parser tried; it is that of the last one exactly without fallback or with best effort. */
  lemma FirstErrorReported<L, E>(k: AutoConfig<L, E>, s: bytes)
    requires !k.modern.bestEffort && AutoAnswer(k, s).Failed?
    ensures AutoAnswer(k, s).raw == s
    ensures AutoAnswer(k, s).error == LastError(k, s) <==> k.noFallback || k.bestEffort
  {
    hide Run, Detected;
    var lax := k.modern.(bestEffort := true);
    OptionUnread(lax, Initial(lax, s, [], []), s, 0, false);
  }

  /** Without best effort and with fallback, the empty input fails with another error than the last one. */
  lemma NotTheLastError<L, E>(k: AutoConfig<L, E>)
    requires !k.modern.bestEffort && !k.noFallback && !k.bestEffort && k.grammar.parse(k.settings, []).Refused?
    ensures AutoAnswer(k, []).Failed? && AutoAnswer(k, []).error != LastError(k, [])
  {
    assert Detected([]) == FormatRFC5424;
    assert Parse(k.modern, []).Rejected?;
    hide Parse, Detected;
    FirstErrorReported(k, []);
  }

  /** The RFC 3164 parser's message, when it is asked and the RFC 5424 parser has refused. */
  lemma LegacyTaken<L, E>(k: AutoConfig<L, E>, s: bytes, message: L)
    requires !k.modern.bestEffort && Parse(k.modern, s).Rejected? && k.grammar.parse(k.settings, s) == Taken(message)
    requires Detected(s) == FormatRFC3164 || !k.noFallback
    ensures AutoAnswer(k, s) == Old(LegacyReply(Some(message), None))
  {
    hide Parse, Detected;
  }

  /**
   When every strict parser in use refuses: with best effort what the parser of the
   detected format has of a message, and its error; else that error and the input.
   */
  lemma ThirdAttempt<L, E>(k: AutoConfig<L, E>, s: bytes)
    requires !k.modern.bestEffort && !StrictlyAccepted(k, s)
    ensures Detected(s) == FormatRFC5424 ==>
              && Parse(k.modern, s).Rejected?
              && AutoAnswer(k, s)
              == if k.bestEffort && Begins(k.modern, s) then
                   Modern(Reply(Some(Parse(k.modern, s).out.Export()), Some((Parse(k.modern, s).kind, Parse(k.modern, s).col))))
                 else
                   Failed(OfModern(Some((Parse(k.modern, s).kind, Parse(k.modern, s).col))), s)
    ensures Detected(s) == FormatRFC3164 ==>
              && k.grammar.parse(k.settings, s).Refused?
              && AutoAnswer(k, s)
              == if k.bestEffort && k.grammar.parse(k.settings, s).partial.Some? then
                   Old(LegacyReply(k.grammar.parse(k.settings, s).partial, Some(k.grammar.parse(k.settings, s).error)))
                 else
                   Failed(OfLegacy(Some(k.grammar.parse(k.settings, s).error)), s)
  {
    hide Run, Detected, Begins;
    var lax := k.modern.(bestEffort := true);
    OptionUnread(lax, Initial(lax, s, [], []), s, 0, false);
    if Parse(k.modern, s).Rejected? { MinimalOnRejection(k.modern, s); }
    if Detected(s) == FormatRFC3164 && Parse(k.modern, s).Accepted? { DetectionAgrees(k.modern, s); }
  }
}
