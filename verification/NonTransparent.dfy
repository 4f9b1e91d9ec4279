/**
 nontransparent/parser.go: the accumulator of candidates in non-transparent framing
 (section 3.4.2 of RFC 6587). The reader yields chunks; Exec runs over each, then
 OnCompletion is called once.
 */
module NonTransparent {
  import opened Bytes

  datatype TrailerType = LineFeed | Null

  function TrailerOctet(t: TrailerType): byte {
    if t == LineFeed then LF else 0
  }

  /** The state number, the candidate so far, and what the inner parser was given. */
  datatype Accumulator = Accumulator(cs: nat, candidate: bytes, handed: seq<bytes>)

  /** process: one trailer at the end is not part of the message. */
  function Trimmed(trailer: byte, candidate: bytes): bytes {
    if candidate != [] && candidate[|candidate| - 1] == trailer then candidate[..|candidate| - 1] else candidate
  }

  function Flushed(trailer: byte, a: Accumulator): Accumulator {
    if a.candidate == [] then a
    else a.(candidate := Trimmed(trailer, a.candidate), handed := a.handed + [Trimmed(trailer, a.candidate)])
  }

  /** One octet of a chunk. */
  function Step(trailer: byte, chunk: bytes, a: Accumulator, b: byte): Accumulator {
    if a.cs == 0 || (a.cs == 1 && b != LT) then a.(cs := 0)
    else if b == LT && a.cs != 2 then Flushed(trailer, a).(cs := 2, candidate := [])
    else if b == trailer then a.(cs := 3, candidate := a.candidate + chunk)
    else a.(cs := 2)
  }

  function ExecFrom(trailer: byte, chunk: bytes, a: Accumulator, p: nat): Accumulator
    requires p <= |chunk|
    decreases |chunk| - p
  {
    if p == |chunk| then a else ExecFrom(trailer, chunk, Step(trailer, chunk, a, chunk[p]), p + 1)
  }

  function ExecAll(trailer: byte, chunks: seq<bytes>, a: Accumulator): Accumulator
    decreases |chunks|
  {
    if chunks == [] then a else ExecAll(trailer, chunks[1..], ExecFrom(trailer, chunks[0], a, 0))
  }

  datatype Inner<M, E> = Inner(message: Option<M>, error: Option<E>)

  /** The results for what the inner parser was given. */
  function Results<M, E>(internal: bytes -> Inner<M, E>, handed: seq<bytes>): seq<Inner<M, E>> {
    seq(|handed|, i requires 0 <= i < |handed| => internal(handed[i]))
  }

  class Machine<M, E> {
    const internal: bytes -> Inner<M, E>
    const trailertyp: TrailerType
    const trailer: byte
    var cs: nat
    var candidate: bytes
    var emitted: seq<Inner<M, E>>
    ghost var handed: seq<bytes>

    constructor (internal: bytes -> Inner<M, E>, trailertyp: TrailerType)
      ensures Valid() && State() == Accumulator(1, [], []) && emitted == []
      ensures this.internal == internal && trailer == TrailerOctet(trailertyp)
    {
      this.internal, this.trailertyp := internal, trailertyp;
      trailer := TrailerOctet(trailertyp);
      cs, candidate, emitted, handed := 1, [], [], [];
    }

    ghost predicate Valid()
      reads this
    {
      trailer == TrailerOctet(trailertyp) && cs <= 3 && emitted == Results(internal, handed)
    }

    ghost function State(): Accumulator
      reads this
    {
      Accumulator(cs, candidate, handed)
    }

    method Process()
      requires Valid() && candidate != []
      modifies this
      ensures Valid() && State() == Flushed(trailer, old(State()))
    {
      var lastByte := |candidate| - 1;
      if candidate[lastByte] == trailer {
        candidate := candidate[..lastByte];
      }
      emitted := emitted + [internal(candidate)];
      handed := handed + [candidate];
    }

    /** The octet is the trailer that was chosen. */
    predicate IsTrailer(b: byte)
    {
      (b == LF && trailertyp == LineFeed) || (b == 0 && trailertyp == Null)
    }

    method Exec(data: bytes)
      requires Valid()
      modifies this
      ensures Valid() && State() == ExecFrom(trailer, data, old(State()), 0)
    {
      hide Flushed;
      var p, pe := 0, |data|;
      while p != pe
        invariant 0 <= p <= pe && Valid()
        invariant ExecFrom(trailer, data, State(), p) == ExecFrom(trailer, data, old(State()), 0)
      {
        ghost var before := State();
        if cs == 0 || (cs == 1 && data[p] != LT) {
          ErrorStays(trailer, data, State(), p);
          cs := 0;
          break;
        } else if data[p] == LT && cs != 2 {
          NothingToFlush(trailer, State());
          if |candidate| > 0 {
            Process();
          }
          candidate := [];
          cs := 2;
        } else if IsTrailer(data[p]) {
          candidate := candidate + data;
          cs := 3;
        } else {
          cs := 2;
        }
        assert State() == Step(trailer, data, before, data[p]);
        p := p + 1;
      }
    }

    /** The last candidate is not cleared. */
    method OnCompletion()
      requires Valid()
      modifies this
      ensures Valid() && State() == Flushed(trailer, old(State()))
    {
      if |candidate| > 0 {
        Process();
      }
    }

    /** One Exec for each chunk, then OnCompletion, on a machine that has parsed nothing. */
    method Parse(chunks: seq<bytes>)
      requires Valid() && State() == Accumulator(1, [], [])
      modifies this
      ensures Valid()
      ensures State() == Flushed(trailer, ExecAll(trailer, chunks, Accumulator(1, [], [])))
      ensures emitted == Results(internal, Flushed(trailer, ExecAll(trailer, chunks, Accumulator(1, [], []))).handed)
    {
      hide Flushed;
      var i := 0;
      assert chunks[0..] == chunks;
      while i < |chunks|
        invariant 0 <= i <= |chunks| && Valid()
        invariant ExecAll(trailer, chunks[i..], State()) == ExecAll(trailer, chunks, Accumulator(1, [], []))
      {
        assert chunks[i..][1..] == chunks[i + 1..];
        Exec(chunks[i]);
        i := i + 1;
      }
      assert chunks[i..] == [];
      OnCompletion();
    }
  }

  lemma NothingToFlush(trailer: byte, a: Accumulator)
    ensures a.candidate == [] ==> Flushed(trailer, a) == a
  {
  }

  /** An error drops the rest of the chunk. */
  lemma {:induction false} ErrorStays(trailer: byte, chunk: bytes, a: Accumulator, p: nat)
    requires p < |chunk| && (a.cs == 0 || (a.cs == 1 && chunk[p] != LT))
    ensures ExecFrom(trailer, chunk, a, p) == a.(cs := 0)
    decreases |chunk| - p
  {
    if p + 1 < |chunk| { ErrorStays(trailer, chunk, a.(cs := 0), p + 1); }
  }

  // ------------------------------------------------------------------
  // Chunks that end with a trailer

  /** A chunk of a reader that splits after each trailer. */
  predicate IsChunk(trailer: byte, chunk: bytes) {
    chunk != [] && chunk[|chunk| - 1] == trailer && trailer !in chunk[..|chunk| - 1]
  }

  predicate Starts(chunk: bytes) {
    chunk != [] && chunk[0] == LT
  }

  function Starting(chunks: seq<bytes>): nat {
    if chunks == [] then 0 else (if Starts(chunks[0]) then 1 else 0) + Starting(chunks[1..])
  }

  function Concat(chunks: seq<bytes>): bytes {
    if chunks == [] then [] else chunks[0] + Concat(chunks[1..])
  }

  /** Each message with its trailer put back. */
  function Restored(trailer: byte, handed: seq<bytes>): bytes {
    if handed == [] then [] else handed[0] + [trailer] + Restored(trailer, handed[1..])
  }

  lemma {:induction false} RestoredAppend(trailer: byte, handed: seq<bytes>, last: bytes)
    ensures Restored(trailer, handed + [last]) == Restored(trailer, handed) + (last + [trailer])
    decreases |handed|
  {
    if handed == [] {
      assert [] + [last] == [last] && [last][1..] == [];
    } else {
      assert (handed + [last])[1..] == handed[1..] + [last];
      RestoredAppend(trailer, handed[1..], last);
    }
  }

  /** Inside a message nothing happens up to the trailer. */
  lemma {:induction false} InMessage(trailer: byte, chunk: bytes, a: Accumulator, p: nat)
    requires IsChunk(trailer, chunk) && p < |chunk| && (a.cs == 2 || (a.cs == 3 && chunk[p] != LT))
    requires trailer == LF || trailer == 0
    ensures ExecFrom(trailer, chunk, a, p) == a.(cs := 3, candidate := a.candidate + chunk)
    decreases |chunk| - p
  {
    if p + 1 < |chunk| {
      assert chunk[p] == chunk[..|chunk| - 1][p];
      InMessage(trailer, chunk, a.(cs := 2), p + 1);
    }
  }

  /** A chunk continues the candidate, or ends it and starts the next one. */
  lemma ChunkTaken(trailer: byte, chunk: bytes, a: Accumulator)
    requires IsChunk(trailer, chunk) && (trailer == LF || trailer == 0)
    requires a.cs == 3 || (a.cs == 1 && Starts(chunk))
    ensures ExecFrom(trailer, chunk, a, 0)
         == if Starts(chunk) then Flushed(trailer, a).(cs := 3, candidate := chunk)
            else a.(candidate := a.candidate + chunk)
  {
    if Starts(chunk) {
      var b := Flushed(trailer, a).(cs := 2, candidate := []);
      assert [] + chunk == chunk;
      assert |chunk| > 1;
      InMessage(trailer, chunk, b, 1);
    } else {
      InMessage(trailer, chunk, a, 0);
    }
  }

  predicate AllStart(handed: seq<bytes>) {
    forall i :: 0 <= i < |handed| ==> Starts(handed[i])
  }

  /** Between two chunks: the candidate is a message with its trailer. */
  predicate Gathered(trailer: byte, a: Accumulator) {
    && a.cs == 3 && |a.candidate| >= 2 && a.candidate[|a.candidate| - 1] == trailer
    && Starts(a.candidate) && AllStart(a.handed)
  }

  lemma ProcessGathered(trailer: byte, a: Accumulator)
    requires Gathered(trailer, a)
    ensures Restored(trailer, Flushed(trailer, a).handed) == Restored(trailer, a.handed) + a.candidate
    ensures |Flushed(trailer, a).handed| == |a.handed| + 1 && AllStart(Flushed(trailer, a).handed)
  {
    var m := Trimmed(trailer, a.candidate);
    RestoredAppend(trailer, a.handed, m);
    assert m + [trailer] == a.candidate;
  }

  lemma {:induction false} ExecAllKeeps(trailer: byte, chunks: seq<bytes>, a: Accumulator)
    requires (trailer == LF || trailer == 0) && forall i :: 0 <= i < |chunks| ==> IsChunk(trailer, chunks[i])
    requires Gathered(trailer, a)
    ensures var b := ExecAll(trailer, chunks, a);
            && Gathered(trailer, b)
            && Restored(trailer, b.handed) + b.candidate == Restored(trailer, a.handed) + a.candidate + Concat(chunks)
            && |b.handed| == |a.handed| + Starting(chunks)
    decreases |chunks|
  {
    hide Flushed, ExecFrom;
    if chunks == [] {
      assert a.candidate + [] == a.candidate;
    } else {
      var c := ExecFrom(trailer, chunks[0], a, 0);
      ChunkTaken(trailer, chunks[0], a);
      ProcessGathered(trailer, a);
      if Starts(chunks[0]) { StartsLong(trailer, chunks[0]); }
      ExecAllKeeps(trailer, chunks[1..], c);
      Reassociate(Restored(trailer, a.handed), a.candidate, chunks[0], Concat(chunks[1..]));
    }
  }

  lemma StartsLong(trailer: byte, chunk: bytes)
    requires IsChunk(trailer, chunk) && Starts(chunk) && trailer != LT
    ensures |chunk| >= 2
  {
  }

  lemma Reassociate(a: bytes, b: bytes, c: bytes, d: bytes)
    ensures a + (b + c) + d == a + b + (c + d)
    ensures (a + b) + c + d == a + b + (c + d)
  {
  }

  /**
   Conservation: the messages handed to the inner parser, each with its one trailer put
   back, are the input; there is one for each chunk that starts with `<`, and it does so too.
   */
  lemma Conservation(t: TrailerType, chunks: seq<bytes>)
    requires chunks != [] && Starts(chunks[0])
    requires forall i :: 0 <= i < |chunks| ==> IsChunk(TrailerOctet(t), chunks[i])
    ensures var trailer := TrailerOctet(t);
            var handed := Flushed(trailer, ExecAll(trailer, chunks, Accumulator(1, [], []))).handed;
            Restored(trailer, handed) == Concat(chunks) && |handed| == Starting(chunks) && AllStart(handed)
  {
    hide Flushed, ExecFrom;
    var trailer, a := TrailerOctet(t), Accumulator(1, [], []);
    NothingToFlush(trailer, a);
    StartsLong(trailer, chunks[0]);
    ChunkTaken(trailer, chunks[0], a);
    var b := Accumulator(3, chunks[0], []);
    assert Gathered(trailer, b);
    assert ExecAll(trailer, chunks, a) == ExecAll(trailer, chunks[1..], b);
    ExecAllKeeps(trailer, chunks[1..], b);
    hide ExecAll, IsChunk;
    ProcessGathered(trailer, ExecAll(trailer, chunks[1..], b));
    assert [] + chunks[0] + Concat(chunks[1..]) == Concat(chunks);
  }

  function Framed(trailer: byte, messages: seq<bytes>): seq<bytes> {
    if messages == [] then [] else [messages[0] + [trailer]] + Framed(trailer, messages[1..])
  }

  predicate CanSend(trailer: byte, message: bytes) {
    Starts(message) && trailer !in message
  }

  lemma ChunkOfMessage(trailer: byte, message: bytes)
    requires CanSend(trailer, message)
    ensures var chunk := message + [trailer];
            IsChunk(trailer, chunk) && Starts(chunk) && Trimmed(trailer, chunk) == message
  {
    var chunk := message + [trailer];
    assert chunk[..|chunk| - 1] == message;
  }

  lemma {:induction false} FramedHanded(trailer: byte, messages: seq<bytes>, a: Accumulator, last: bytes)
    requires trailer == LF || trailer == 0
    requires CanSend(trailer, last) && forall i :: 0 <= i < |messages| ==> CanSend(trailer, messages[i])
    requires a.cs == 3 && a.candidate == last + [trailer]
    ensures Flushed(trailer, ExecAll(trailer, Framed(trailer, messages), a)).handed == a.handed + [last] + messages
    decreases |messages|
  {
    hide ExecFrom, CanSend, Trimmed, IsChunk, Starts;
    ChunkOfMessage(trailer, last);
    if messages == [] {
      assert a.handed + [last] + [] == a.handed + [last];
    } else {
      var m, chunks := messages[0], Framed(trailer, messages);
      ChunkOfMessage(trailer, m);
      ChunkTaken(trailer, m + [trailer], a);
      assert chunks[1..] == Framed(trailer, messages[1..]);
      FramedHanded(trailer, messages[1..], Accumulator(3, m + [trailer], a.handed + [last]), m);
      assert a.handed + [last] + [m] + messages[1..] == a.handed + [last] + messages;
    }
  }

  /** Messages that start with `<` and have no trailer inside are handed on one by one. */
  lemma FramingRoundTrip(t: TrailerType, messages: seq<bytes>)
    requires messages != [] && forall i :: 0 <= i < |messages| ==> CanSend(TrailerOctet(t), messages[i])
    ensures var trailer := TrailerOctet(t);
            Flushed(trailer, ExecAll(trailer, Framed(trailer, messages), Accumulator(1, [], []))).handed == messages
  {
    hide ExecFrom, CanSend, IsChunk, Starts, Flushed;
    var trailer, m, a := TrailerOctet(t), messages[0], Accumulator(1, [], []);
    var chunks := Framed(trailer, messages);
    ChunkOfMessage(trailer, m);
    ChunkTaken(trailer, m + [trailer], a);
    NothingToFlush(trailer, a);
    assert chunks[1..] == Framed(trailer, messages[1..]);
    FramedHanded(trailer, messages[1..], Accumulator(3, m + [trailer], []), m);
    assert [] + [m] + messages[1..] == messages;
  }

  /** `<1>a` and `<2>b`, with a line feed or a NUL after each, are handed on without it. */
  lemma TwoMessages()
    ensures Flushed(TrailerOctet(LineFeed), ExecAll(TrailerOctet(LineFeed),
              [[60, 49, 62, 97, 10], [60, 50, 62, 98, 10]], Accumulator(1, [], []))).handed
         == [[60, 49, 62, 97], [60, 50, 62, 98]]
    ensures Flushed(TrailerOctet(Null), ExecAll(TrailerOctet(Null),
              [[60, 49, 62, 97, 0], [60, 50, 62, 98, 0]], Accumulator(1, [], []))).handed
         == [[60, 49, 62, 97], [60, 50, 62, 98]]
  {
    var messages: seq<bytes> := [[60, 49, 62, 97], [60, 50, 62, 98]];
    TwoFramed(messages[0], messages[1], 10);
    TwoFramed(messages[0], messages[1], 0);
    assert messages[0] + [10] == [60, 49, 62, 97, 10] && messages[1] + [10] == [60, 50, 62, 98, 10];
    assert messages[0] + [0] == [60, 49, 62, 97, 0] && messages[1] + [0] == [60, 50, 62, 98, 0];
    hide Flushed, ExecAll, Framed;
    FramingRoundTrip(LineFeed, messages);
    FramingRoundTrip(Null, messages);
  }

  lemma TwoFramed(m: bytes, n: bytes, trailer: byte)
    ensures Framed(trailer, [m, n]) == [m + [trailer], n + [trailer]]
  {
    var ms := [m, n];
    assert ms[1..] == [n] && [n][1..] == [];
    assert Framed(trailer, [n]) == [n + [trailer]];
  }

  /** Without a `<` at the start nothing is ever handed on. */
  lemma NeverStarted(t: TrailerType, chunks: seq<bytes>)
    requires chunks != [] && chunks[0] != [] && !Starts(chunks[0])
    ensures Flushed(TrailerOctet(t), ExecAll(TrailerOctet(t), chunks, Accumulator(1, [], []))).handed == []
  {
    ErrorStays(TrailerOctet(t), chunks[0], Accumulator(1, [], []), 0);
    NothingMore(TrailerOctet(t), chunks[1..]);
  }

  lemma {:induction false} NothingMore(trailer: byte, chunks: seq<bytes>)
    ensures ExecAll(trailer, chunks, Accumulator(0, [], [])) == Accumulator(0, [], [])
    decreases |chunks|
  {
    if chunks != [] {
      if chunks[0] != [] { ErrorStays(trailer, chunks[0], Accumulator(0, [], []), 0); }
      NothingMore(trailer, chunks[1..]);
    }
  }

  /** A chunk without its trailer is lost: it only hands on the candidate before it, if it starts with `<`. */
  lemma UnterminatedChunk(trailer: byte, chunk: bytes, a: Accumulator)
    requires chunk != [] && trailer !in chunk && trailer != LT && a.cs == 3
    ensures ExecFrom(trailer, chunk, a, 0)
         == if Starts(chunk) then Flushed(trailer, a).(cs := 2, candidate := []) else a.(cs := 2)
  {
    hide Flushed;
    InsideChunk(trailer, chunk, if Starts(chunk) then Flushed(trailer, a).(cs := 2, candidate := []) else a.(cs := 2), 1);
  }

  lemma {:induction false} InsideChunk(trailer: byte, chunk: bytes, a: Accumulator, p: nat)
    requires p <= |chunk| && trailer !in chunk && a.cs == 2
    ensures ExecFrom(trailer, chunk, a, p) == a
    decreases |chunk| - p
  {
    if p < |chunk| { InsideChunk(trailer, chunk, a, p + 1); }
  }
}
