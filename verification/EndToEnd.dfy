/**
 From the builder over a framed stream to the parser and back: the RFC 5424 machine as
 the inner parser of octetcounting/parser.go and nontransparent/parser.go.
 */
module EndToEnd {
  import opened Bytes
  import opened Messages
  import opened Automaton
  import opened Grammar
  import opened Builder
  import opened RoundTrip
  import OctetCounting
  import NonTransparent

  /** What the stream may carry: a message that String prints and the parser takes back. */
  ghost predicate Sendable(o: Options, m: Message) {
    && m.priority.Some? && m.Valid() && RealTime(m)
    && (o.compliantMsg && m.message.Some? ==> IsCompliant(m.message.value))
  }

  ghost predicate AllSendable(o: Options, builds: seq<seq<Call>>) {
    forall i :: 0 <= i < |builds| ==> Sendable(o, ApplyAll(EMPTY, builds[i]))
  }

  /** The texts that String prints for what the calls build. */
  ghost function Texts(o: Options, builds: seq<seq<Call>>): (ts: seq<bytes>)
    requires AllSendable(o, builds)
    ensures |ts| == |builds|
    ensures forall i :: 0 <= i < |builds| ==> ts[i] == Printed(ApplyAll(EMPTY, builds[i]))
  {
    seq(|builds|, i requires 0 <= i < |builds| => Printed(ApplyAll(EMPTY, builds[i])))
  }

  lemma PrintedStarts(m: Message)
    requires m.priority.Some? && RealTime(m)
    ensures Printed(m) != [] && Printed(m)[0] == LT
  {
  }

  lemma ParsesBack(o: Options, calls: seq<Call>)
    requires Sendable(o, ApplyAll(EMPTY, calls))
    ensures Answer(o, Parse(o, Printed(ApplyAll(EMPTY, calls)))) == Reply(Some(ApplyAll(EMPTY, calls)), None)
  {
    hide Parse, Printed, ApplyAll, IsCompliant;
    RoundTrip.RoundTrip(o, calls);
  }

  // ------------------------------------------------------------------
  // Octet counting

  function CountedInner(o: Options): bytes -> OctetCounting.Inner<Message, (ErrorKind, nat)> {
    s => var r := Answer(o, Parse(o, s)); OctetCounting.Inner(r.message, r.error)
  }

  /** NewParser: the RFC 5424 machine, and nothing stripped. */
  function CountedSetup(o: Options, maxMessageLength: int): OctetCounting.Setup<Message, (ErrorKind, nat)> {
    OctetCounting.Setup(CountedInner(o), o.bestEffort, false, maxMessageLength)
  }

  function Frames(texts: seq<bytes>, newlines: seq<bool>): (fs: seq<OctetCounting.Frame>)
    requires |texts| == |newlines|
    ensures |fs| == |texts|
    ensures forall i :: 0 <= i < |texts| ==> fs[i] == OctetCounting.Frame(texts[i], newlines[i])
  {
    seq(|texts|, i requires 0 <= i < |texts| => OctetCounting.Frame(texts[i], newlines[i]))
  }

  /** What is built, printed, framed by octet counting and parsed comes back, message for message. */
  lemma CountedStream(o: Options, maxMessageLength: int, size: nat, builds: seq<seq<Call>>, newlines: seq<bool>)
    requires builds != [] && |newlines| == |builds| && !newlines[|newlines| - 1] && AllSendable(o, builds)
    requires var max := CountedSetup(o, maxMessageLength).MaxLen();
             && max <= OctetCounting.MAX_INT && size >= max + 20
             && forall i :: 0 <= i < |builds| ==> |Texts(o, builds)[i]| <= max
    ensures var text := OctetCounting.StreamText(Frames(Texts(o, builds), newlines));
            var rs := OctetCounting.Results(CountedSetup(o, maxMessageLength), size, OctetCounting.Lexing(text, 0, false));
            && |rs| == |builds|
            && forall i :: 0 <= i < |builds| ==> rs[i] == OctetCounting.Result(Some(ApplyAll(EMPTY, builds[i])), None)
  {
    hide OctetCounting.Results, OctetCounting.Parsed, OctetCounting.Fits, Printed, ApplyAll;
    hide CountedSetup, OctetCounting.StreamText, Sendable, Texts, Frames, CountedInner;
    var k, texts := CountedSetup(o, maxMessageLength), Texts(o, builds);
    var fs := Frames(texts, newlines);
    forall i | 0 <= i < |fs|
      ensures OctetCounting.Fits(k.MaxLen(), fs[i].payload)
      ensures OctetCounting.Parsed(k, fs[i].payload) == OctetCounting.Result(Some(ApplyAll(EMPTY, builds[i])), None)
    {
      CountedMessage(o, maxMessageLength, builds[i]);
    }
    CountedRead(k, size, fs);
  }

  lemma CountedMessage(o: Options, maxMessageLength: int, calls: seq<Call>)
    requires Sendable(o, ApplyAll(EMPTY, calls))
    ensures var k, m := CountedSetup(o, maxMessageLength), ApplyAll(EMPTY, calls);
            && OctetCounting.Parsed(k, Printed(m)) == OctetCounting.Result(Some(m), None)
            && (|Printed(m)| <= k.MaxLen() ==> OctetCounting.Fits(k.MaxLen(), Printed(m)))
  {
    PrintedStarts(ApplyAll(EMPTY, calls));
    ParsesBack(o, calls);
    hide Printed, ApplyAll, Parse, Sendable;
  }

  lemma CountedRead<M, E>(k: OctetCounting.Setup<M, E>, size: nat, fs: seq<OctetCounting.Frame>)
    requires fs != [] && !fs[|fs| - 1].newline
    requires k.MaxLen() <= OctetCounting.MAX_INT && size >= k.MaxLen() + 20
    requires forall i :: 0 <= i < |fs| ==> OctetCounting.Fits(k.MaxLen(), fs[i].payload)
    requires forall i :: 0 <= i < |fs| ==> OctetCounting.Parsed(k, fs[i].payload).error.None?
    ensures var rs := OctetCounting.Results(k, size, OctetCounting.Lexing(OctetCounting.StreamText(fs), 0, false));
            |rs| == |fs| && forall i :: 0 <= i < |fs| ==> rs[i] == OctetCounting.Parsed(k, fs[i].payload)
  {
    hide OctetCounting.Results, OctetCounting.Delivered, OctetCounting.Parsed, OctetCounting.Fits;
    OctetCounting.FramingRoundTrip(k, size, fs, false);
    OctetCounting.AllDelivered(k, fs);
  }

  // ------------------------------------------------------------------
  // Non-transparent framing

  function TrailedInner(o: Options): bytes -> NonTransparent.Inner<Message, (ErrorKind, nat)> {
    s => var r := Answer(o, Parse(o, s)); NonTransparent.Inner(r.message, r.error)
  }

  lemma TrailedMessage(o: Options, trailer: byte, calls: seq<Call>)
    requires Sendable(o, ApplyAll(EMPTY, calls)) && trailer !in Printed(ApplyAll(EMPTY, calls))
    ensures NonTransparent.CanSend(trailer, Printed(ApplyAll(EMPTY, calls)))
    ensures TrailedInner(o)(Printed(ApplyAll(EMPTY, calls))) == NonTransparent.Inner(Some(ApplyAll(EMPTY, calls)), None)
  {
    hide Printed, ApplyAll, Parse;
    PrintedStarts(ApplyAll(EMPTY, calls));
    ParsesBack(o, calls);
  }

  /** The same over trailers, for texts without the trailer. */
  lemma TrailedStream(o: Options, t: NonTransparent.TrailerType, builds: seq<seq<Call>>)
    requires builds != [] && AllSendable(o, builds)
    requires forall i :: 0 <= i < |builds| ==> NonTransparent.TrailerOctet(t) !in Texts(o, builds)[i]
    ensures var trailer := NonTransparent.TrailerOctet(t);
            var chunks := NonTransparent.Framed(trailer, Texts(o, builds));
            var end := NonTransparent.ExecAll(trailer, chunks, NonTransparent.Accumulator(1, [], []));
            var rs := NonTransparent.Results(TrailedInner(o), NonTransparent.Flushed(trailer, end).handed);
            && |rs| == |builds|
            && forall i :: 0 <= i < |builds| ==> rs[i] == NonTransparent.Inner(Some(ApplyAll(EMPTY, builds[i])), None)
  {
    hide NonTransparent.ExecAll, NonTransparent.Flushed, NonTransparent.CanSend, TrailedInner, Printed, ApplyAll, Sendable;
    var texts := Texts(o, builds);
    forall i | 0 <= i < |builds|
      ensures NonTransparent.CanSend(NonTransparent.TrailerOctet(t), texts[i])
      ensures TrailedInner(o)(texts[i]) == NonTransparent.Inner(Some(ApplyAll(EMPTY, builds[i])), None)
    {
      TrailedMessage(o, NonTransparent.TrailerOctet(t), builds[i]);
    }
    NonTransparent.FramingRoundTrip(t, texts);
  }
}
