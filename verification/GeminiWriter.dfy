/** The Gemini writer. */
module GeminiWriter {
  import opened Wrappers
  import opened SseFraming
  import opened StreamWriters

  datatype Event = DeltaChunk(text: Bytes) | FinalChunk(usage: Usage) | DoneLine

  datatype State = State(usage: Usage, completed: bool, out: seq<Event>)

  const NO_USAGE := Usage(0, 0, 0)
  const INITIAL := State(NO_USAGE, false, [])

  function Finish(s: State): State {
    if s.completed then s else s.(completed := true, out := s.out + [FinalChunk(s.usage), DoneLine])
  }

  function Step(s: State, f: Frame): State {
    match f
    case Text(c) => s.(usage := c.usage.GetOr(s.usage), out := s.out + [DeltaChunk(c.text)])
    case Done => Finish(s)
    case Ignored => s
    case Close => Finish(s)
  }

  function Handle(decode: Decoder): (State, Bytes) -> State {
    (s: State, e: Bytes) => Step(s, Classify(decode, e))
  }

  // State and buffer of a fresh writer after the given Write calls.
  function Feeding(decode: Decoder, chunks: seq<Bytes>): (State, Bytes) {
    Feed(Handle(decode), INITIAL, [], chunks)
  }

  function Run(fs: seq<Frame>): State {
    if fs == [] then INITIAL else Step(Run(fs[..|fs| - 1]), fs[|fs| - 1])
  }

  class Writer {
    const decode: Decoder
    var buf: Bytes
    var completedOnce: bool
    var promptTokens: int
    var candidatesTokens: int
    var totalTokens: int
    var out: seq<Event>

    function Contents(): State
      reads this
    {
      State(Usage(promptTokens, candidatesTokens, totalTokens), completedOnce, out)
    }

    constructor (decode: Decoder)
      ensures this.decode == decode && buf == [] && Contents() == INITIAL
    {
      this.decode := decode;
      buf, completedOnce, promptTokens, candidatesTokens, totalTokens, out := [], false, 0, 0, 0, [];
    }

    method Write(p: Bytes) returns (n: nat)
      modifies this
      ensures n == |p|
      ensures (Contents(), buf) == Feed(Handle(decode), old(Contents()), old(buf), [p])
    {
      buf := buf + p;
      ghost var f := Split(buf);
      ghost var seen: seq<Bytes> := [];
      assert [] + f.events == f.events;
      while true
        invariant f == Frames(seen + Split(buf).events, Split(buf).rest)
        invariant Contents() == Fold(Handle(decode), old(Contents()), seen)
        decreases |buf|
      {
        var idx := IndexBlank(buf);
        if idx < 0 {
          break;
        }
        SplitHead(buf);
        var event := buf[..idx];
        AppendAssoc(seen, [event], Split(buf[idx + 2..]).events);
        assert (seen + [event])[..|seen|] == seen;
        seen := seen + [event];
        buf := buf[idx + 2..];
        HandleSSEEvent(event);
      }
      assert seen + [] == seen;
      n := |p|;
    }

    /** A sequence of Write calls on one writer is the feeding of its chunks, one after the other. */
    method WriteAll(chunks: seq<Bytes>)
      modifies this
      ensures (Contents(), buf) == Feed(Handle(decode), old(Contents()), old(buf), chunks)
      ensures old(Contents()) == INITIAL && old(buf) == [] ==> (Contents(), buf) == Feeding(decode, chunks)
    {
      hide Handle;
      for i := 0 to |chunks|
        invariant Feed(Handle(decode), Contents(), buf, chunks[i..]) ==
                  Feed(Handle(decode), old(Contents()), old(buf), chunks)
      {
        FeedCons(Handle(decode), Contents(), buf, chunks[i..]);
        assert chunks[i..][1..] == chunks[i + 1..];
        var n := Write(chunks[i]);
      }
    }

    method HandleSSEEvent(event: Bytes)
      modifies this
      ensures buf == old(buf) && Contents() == Handle(decode)(old(Contents()), event)
    {
      var line := Payload(event);
      assert Handle(decode)(old(Contents()), event) == Step(old(Contents()), Classify(decode, event));
      if line == DONE {
        EmitFinalChunk();
        return;
      }
      var chunk := decode(line);
      if chunk.None? {
        return;
      }
      if chunk.value.usage.Some? {
        var u := chunk.value.usage.value;
        promptTokens, candidatesTokens, totalTokens := u.prompt, u.completion, u.total;
      }
      out := out + [DeltaChunk(chunk.value.text)];
      assert Classify(decode, event) == Text(chunk.value);
    }

    method EmitFinalChunk()
      modifies this
      ensures buf == old(buf) && Contents() == Finish(old(Contents()))
    {
      if completedOnce {
        return;
      }
      completedOnce := true;
      out := out + [FinalChunk(Usage(promptTokens, candidatesTokens, totalTokens)), DoneLine];
    }

    method WriteDone()
      modifies this
      ensures buf == old(buf) && Contents() == Step(old(Contents()), Close)
    {
      EmitFinalChunk();
    }
  }

  // ---- Every input ------------------------------------------------------------------------------

  // The usage of the last usage-bearing chunk, or zeros.
  function LastUsage(fs: seq<Frame>): Usage {
    if fs == [] then NO_USAGE
    else match fs[|fs| - 1]
         case Text(c) => c.usage.GetOr(LastUsage(fs[..|fs| - 1]))
         case _ => LastUsage(fs[..|fs| - 1])
  }

  function Deltas(texts: seq<Bytes>): (r: seq<Event>)
    ensures |r| == |texts| && forall i | 0 <= i < |r| :: r[i] == DeltaChunk(texts[i])
  {
    seq(|texts|, i requires 0 <= i < |texts| => DeltaChunk(texts[i]))
  }

  lemma DeltasSnoc(texts: seq<Bytes>, t: Bytes)
    ensures Deltas(texts + [t]) == Deltas(texts) + [DeltaChunk(t)]
  {
  }

  // `k` is the first frame that ends the stream.
  ghost predicate FirstEnd(fs: seq<Frame>, k: nat) {
    k < |fs| && Ends(fs[k]) && forall i | 0 <= i < k :: !Ends(fs[i])
  }

  lemma {:induction false} OpenStream(fs: seq<Frame>)
    requires forall i | 0 <= i < |fs| :: !Ends(fs[i])
    ensures Run(fs) == State(LastUsage(fs), false, Deltas(Texts(fs)))
  {
    if fs != [] {
      var init, f := fs[..|fs| - 1], fs[|fs| - 1];
      OpenStream(init);
      assert !Ends(f);
      if f.Text? {
        DeltasSnoc(Texts(init), f.chunk.text);
      } else {
        assert Texts(init) + [] == Texts(init);
      }
    }
  }

  /** Whatever arrives: one delta chunk per text, and at the first [DONE] or WriteDone, and only there, the
      final chunk with the usage of the last usage-bearing chunk before it, followed by the [DONE] line. */
  lemma {:induction false} ClosedStream(fs: seq<Frame>, k: nat)
    requires FirstEnd(fs, k)
    ensures var before := Deltas(Texts(fs[..k]));
            && Run(fs).completed
            && |Texts(fs[..k])| <= |Texts(fs)|
            && Run(fs).out == before + [FinalChunk(LastUsage(fs[..k])), DoneLine] +
                              Deltas(Texts(fs)[|Texts(fs[..k])|..])
            && Texts(fs)[..|Texts(fs[..k])|] == Texts(fs[..k])
    decreases |fs|
  {
    var n := |fs| - 1;
    var init, f := fs[..n], fs[n];
    var p := |Texts(fs[..k])|;
    assert fs[..n + 1] == fs;
    if k == n {
      forall i | 0 <= i < |init| ensures !Ends(init[i]) {
        assert init[i] == fs[i];
      }
      OpenStream(init);
      assert Texts(fs) == Texts(init) + [];
      assert Run(fs).out == Deltas(Texts(init)) + [FinalChunk(LastUsage(init)), DoneLine];
      assert Deltas(Texts(fs)[p..]) == [];
    } else {
      assert init[..k] == fs[..k];
      assert FirstEnd(init, k) by {
        assert init[k] == fs[k];
        forall i | 0 <= i < k ensures !Ends(init[i]) {
          assert init[i] == fs[i];
        }
      }
      ClosedStream(init, k);
      match f
      case Text(c) =>
        assert Texts(fs) == Texts(init) + [c.text];
        assert Texts(fs)[p..] == Texts(init)[p..] + [c.text];
        DeltasSnoc(Texts(init)[p..], c.text);
      case _ =>
        assert Texts(fs) == Texts(init) + [];
    }
  }

  lemma {:induction false} FoldIsRun(decode: Decoder, events: seq<Bytes>)
    ensures Fold(Handle(decode), INITIAL, events) == Run(FramesOf(decode, events))
    decreases |events|
  {
    if events != [] {
      FoldIsRun(decode, events[..|events| - 1]);
      FramesOfInit(decode, events);
    }
  }
}
