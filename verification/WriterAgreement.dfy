/** The three writers side by side. */
module WriterAgreement {
  import opened SseFraming
  import opened StreamWriters
  import A = AnthropicWriter
  import R = ResponsesWriter
  import G = GeminiWriter

  function GeminiTexts(out: seq<G.Event>): seq<Bytes> {
    if out == [] then []
    else GeminiTexts(out[..|out| - 1]) + match out[|out| - 1] { case DeltaChunk(t) => [t] case _ => [] }
  }

  lemma GeminiTextsSnoc(out: seq<G.Event>, e: G.Event)
    ensures GeminiTexts(out + [e]) == GeminiTexts(out) + match e { case DeltaChunk(t) => [t] case _ => [] }
  {
    assert (out + [e])[..|out|] == out;
  }

  lemma GeminiFinish(s: G.State)
    ensures GeminiTexts(G.Finish(s).out) == GeminiTexts(s.out)
  {
    hide GeminiTexts;
    var last := G.FinalChunk(s.usage);
    GeminiTextsSnoc(s.out, last);
    GeminiTextsSnoc(s.out + [last], G.DoneLine);
    assert s.out + [last] + [G.DoneLine] == s.out + [last, G.DoneLine];
  }

  lemma GeminiStep(s: G.State, f: Frame)
    ensures GeminiTexts(G.Step(s, f).out) == GeminiTexts(s.out) + match f { case Text(c) => [c.text] case _ => [] }
  {
    hide GeminiTexts;
    if f.Text? {
      GeminiTextsSnoc(s.out, G.DeltaChunk(f.chunk.text));
    } else {
      GeminiFinish(s);
    }
  }

  lemma {:induction false} GeminiDeltas(fs: seq<Frame>)
    ensures GeminiTexts(G.Run(fs).out) == Texts(fs)
  {
    if fs != [] {
      var init, f := fs[..|fs| - 1], fs[|fs| - 1];
      GeminiDeltas(init);
      GeminiStep(G.Run(init), f);
    }
  }

  /** Whatever arrives, the three writers deliver the same delta texts in the same order. */
  lemma SameTexts(fs: seq<Frame>)
    ensures A.DeltaTexts(A.Run(fs).out) == R.Summarise(R.Run(fs).out).texts == GeminiTexts(G.Run(fs).out) == Texts(fs)
  {
    A.DeltasAreTexts(fs);
    R.EveryInput(fs);
    GeminiDeltas(fs);
  }

  // Chunk payloads that the upstream encoder can send and the decoder accepts.
  predicate Chat(decode: Decoder, payloads: seq<Bytes>) {
    forall i | 0 <= i < |payloads| :: PlainPayload(payloads[i]) && payloads[i] != DONE && decode(payloads[i]).Some?
  }

  // The usage in the last payload that has one, or zeros.
  function LastUsageOf(decode: Decoder, payloads: seq<Bytes>): Usage
    requires Chat(decode, payloads)
  {
    if payloads == [] then G.NO_USAGE
    else
      var init, last := payloads[..|payloads| - 1], payloads[|payloads| - 1];
      decode(last).value.usage.GetOr(LastUsageOf(decode, init))
  }

  lemma {:induction false} UsageOfFrames(decode: Decoder, payloads: seq<Bytes>, fs: seq<Frame>)
    requires Chat(decode, payloads) && |fs| == |payloads|
    requires forall i | 0 <= i < |fs| :: fs[i] == Text(decode(payloads[i]).value)
    ensures G.LastUsage(fs) == LastUsageOf(decode, payloads)
  {
    if fs != [] {
      var n := |fs| - 1;
      UsageOfFrames(decode, payloads[..n], fs[..n]);
    }
  }

  // The three outcomes of an encoded stream.
  ghost predicate WholeMessage(decode: Decoder, payloads: seq<Bytes>, chunks: seq<Bytes>)
    requires Chat(decode, payloads)
  {
    var (s, buf) := A.Feeding(decode, chunks);
    buf == [] && A.Recognise(s.out) == A.Complete && A.DeltaTexts(s.out) == TextsOf(decode, payloads)
  }

  ghost predicate WholeResponse(decode: Decoder, payloads: seq<Bytes>, chunks: seq<Bytes>)
    requires Chat(decode, payloads)
  {
    var (s, buf) := R.Feeding(decode, chunks);
    buf == [] && R.Recognise(s.out) == R.Whole && R.Summarise(s.out).texts == TextsOf(decode, payloads)
  }

  ghost predicate WholeGemini(decode: Decoder, payloads: seq<Bytes>, chunks: seq<Bytes>)
    requires Chat(decode, payloads)
  {
    var (s, buf) := G.Feeding(decode, chunks);
    && buf == []
    && s.out == G.Deltas(TextsOf(decode, payloads)) + [G.FinalChunk(LastUsageOf(decode, payloads)), G.DoneLine]
  }

  /** End to end: an encoded Chat stream ending in [DONE], cut into Write calls differently for each writer, comes
      out as one complete message, one whole response and one closed Gemini stream over the same texts, the last with
      the last usage in the stream. */
  lemma {:induction false} EncodedStreams(decode: Decoder, payloads: seq<Bytes>,
                                          a: seq<Bytes>, r: seq<Bytes>, g: seq<Bytes>)
    requires Chat(decode, payloads)
    requires Concat(a) == Concat(r) == Concat(g) == Encode(payloads + [DONE])
    ensures WholeMessage(decode, payloads, a) && WholeResponse(decode, payloads, r) && WholeGemini(decode, payloads, g)
  {
    hide A.Run, R.Run, G.Run, Texts, Encode, Split, A.Recognise, R.Recognise, R.Summarise, A.DeltaTexts;
    hide CleanEnd, Feed, Fold, G.LastUsage, TextsOf, LastUsageOf, Concat;
    var fs := StreamFrames(decode, payloads);
    var lines := DataLines(payloads + [DONE]);
    ChunkingIndependence(A.Handle(decode), A.INITIAL, a, a);
    ChunkingIndependence(R.Handle(decode), R.INITIAL, r, r);
    ChunkingIndependence(G.Handle(decode), G.INITIAL, g, g);
    A.FoldIsRun(decode, lines);
    R.FoldIsRun(decode, lines);
    G.FoldIsRun(decode, lines);
    A.MessageExactly(fs);
    R.ResponseExactly(fs);
    SameTexts(fs);
    GeminiEnd(fs, |payloads|);
    UsageOfFrames(decode, payloads, fs[..|payloads|]);
  }

  lemma GeminiEnd(fs: seq<Frame>, n: nat)
    requires n + 1 == |fs| && CleanEndAt(fs, n) && Texts(fs) == Texts(fs[..n])
    ensures G.Run(fs).out == G.Deltas(Texts(fs)) + [G.FinalChunk(G.LastUsage(fs[..n])), G.DoneLine]
  {
    hide G.Run, Texts;
    G.ClosedStream(fs, n);
    var t := Texts(fs);
    assert t[|t|..] == [];
  }
}
