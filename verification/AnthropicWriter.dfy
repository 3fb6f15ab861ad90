/** The Anthropic Messages writer. */
module AnthropicWriter {
  import opened Wrappers
  import opened SseFraming
  import opened StreamWriters

  datatype Event =
    | MessageStart | ContentBlockStart | Ping
    | Delta(text: Bytes)
    | ContentBlockStop | MessageDelta(outputTokens: nat) | MessageStop

  datatype State = State(started: bool, text: Bytes, outputTokens: nat, completed: bool, out: seq<Event>)

  const INITIAL := State(false, [], 0, false, [])
  const PREAMBLE := [MessageStart, ContentBlockStart, Ping]

  function Start(s: State): State {
    if s.started then s else s.(started := true, out := s.out + PREAMBLE)
  }

  function Stop(s: State): State {
    if s.completed then s else s.(completed := true, out := s.out + [MessageStop])
  }

  function Finish(s: State): State {
    var t := Start(s);
    var tokens := if t.outputTokens == 0 then (|t.text| + 3) / 4 else t.outputTokens;
    Stop(t.(out := t.out + [ContentBlockStop, MessageDelta(tokens)]))
  }

  function Emit(s: State, text: Bytes): State {
    var t := Start(s);
    t.(text := t.text + text, out := t.out + [Delta(text)])
  }

  function Step(s: State, f: Frame): State {
    match f
    case Text(c) => Emit(s, c.text)
    case Done => Finish(s)
    case Ignored => s
    case Close => Stop(s)
  }

  function Handle(decode: Decoder): (State, Bytes) -> State {
    (s: State, e: Bytes) => Step(s, Classify(decode, e))
  }

  // State and buffer of a fresh writer after the given Write calls.
  function Feeding(decode: Decoder, chunks: seq<Bytes>): (State, Bytes) {
    Feed(Handle(decode), INITIAL, [], chunks)
  }

  function Run(fs: seq<Frame>): State {
    if fs == [] then INITIAL else Step(Run(fs[..|fs| - 1]), fs[|fs| - 1])
  }

  /** The writer object: a byte buffer in front of the translation. */
  class Writer {
    const decode: Decoder
    var buf: Bytes
    var firstWriteDone: bool
    var accumulatedText: Bytes
    var outputTokens: nat
    var completedOnce: bool
    var out: seq<Event>

    function Contents(): State
      reads this
    {
      State(firstWriteDone, accumulatedText, outputTokens, completedOnce, out)
    }

    constructor (decode: Decoder)
      ensures this.decode == decode && buf == [] && Contents() == INITIAL
    {
      this.decode := decode;
      buf, firstWriteDone, accumulatedText, outputTokens, completedOnce, out := [], false, [], 0, false, [];
    }

    method Write(p: Bytes) returns (n: nat)
      modifies this
      ensures n == |p|
      ensures (Contents(), buf) == Feed(Handle(decode), old(Contents()), old(buf), [p])
    {
      buf := buf + p;
      ghost var f := Split(buf);
      ghost var seen: seq<Bytes> := [];
      assert [] + f.events == f.events;
      while true
        invariant f == Frames(seen + Split(buf).events, Split(buf).rest)
        invariant Contents() == Fold(Handle(decode), old(Contents()), seen)
        decreases |buf|
      {
        var idx := IndexBlank(buf);
        if idx < 0 {
          break;
        }
        SplitHead(buf);
        var event := buf[..idx];
        AppendAssoc(seen, [event], Split(buf[idx + 2..]).events);
        assert (seen + [event])[..|seen|] == seen;
        seen := seen + [event];
        buf := buf[idx + 2..];
        HandleSSEEvent(event);
      }
      assert seen + [] == seen;
      n := |p|;
    }

    /** A sequence of Write calls on one writer is the feeding of its chunks, one after the other. */
    method WriteAll(chunks: seq<Bytes>)
      modifies this
      ensures (Contents(), buf) == Feed(Handle(decode), old(Contents()), old(buf), chunks)
      ensures old(Contents()) == INITIAL && old(buf) == [] ==> (Contents(), buf) == Feeding(decode, chunks)
    {
      hide Handle;
      for i := 0 to |chunks|
        invariant Feed(Handle(decode), Contents(), buf, chunks[i..]) ==
                  Feed(Handle(decode), old(Contents()), old(buf), chunks)
      {
        FeedCons(Handle(decode), Contents(), buf, chunks[i..]);
        assert chunks[i..][1..] == chunks[i + 1..];
        var n := Write(chunks[i]);
      }
    }

    method HandleSSEEvent(event: Bytes)
      modifies this
      ensures buf == old(buf) && Contents() == Handle(decode)(old(Contents()), event)
    {
      var line := Payload(event);
      assert Handle(decode)(old(Contents()), event) == Step(old(Contents()), Classify(decode, event));
      if line == DONE {
        EmitDone();
        return;
      }
      var chunk := decode(line);
      if chunk.None? {
        assert Classify(decode, event) == Ignored;
        return;
      }
      var deltaText := chunk.value.text;
      if !firstWriteDone {
        firstWriteDone := true;
        out := out + PREAMBLE;
      }
      accumulatedText := accumulatedText + deltaText;
      out := out + [Delta(deltaText)];
      assert Classify(decode, event) == Text(chunk.value);
    }

    method EmitDone()
      modifies this
      ensures buf == old(buf) && Contents() == Finish(old(Contents()))
    {
      if !firstWriteDone {
        firstWriteDone := true;
        out := out + PREAMBLE;
      }
      var tokens := outputTokens;
      if tokens == 0 {
        tokens := (|accumulatedText| + 3) / 4;
      }
      out := out + [ContentBlockStop, MessageDelta(tokens)];
      EmitMessageStop();
    }

    method EmitMessageStop()
      modifies this
      ensures buf == old(buf) && Contents() == Stop(old(Contents()))
    {
      if completedOnce {
        return;
      }
      completedOnce := true;
      out := out + [MessageStop];
    }

    method WriteDone()
      modifies this
      ensures buf == old(buf) && Contents() == Step(old(Contents()), Close)
    {
      EmitMessageStop();
    }
  }

  // ---- Every input ------------------------------------------------------------------------------

  function CountStop(out: seq<Event>): nat {
    if out == [] then 0
    else CountStop(out[..|out| - 1]) + if out[|out| - 1].MessageStop? then 1 else 0
  }

  lemma {:induction false} CountStopAppend(a: seq<Event>, b: seq<Event>)
    ensures CountStop(a + b) == CountStop(a) + CountStop(b)
    decreases |b|
  {
    if b == [] {
      assert a + b == a;
    } else {
      CountStopAppend(a, b[..|b| - 1]);
      assert (a + b)[..|a + b| - 1] == a + b[..|b| - 1];
    }
  }

  lemma CountStopSnoc(out: seq<Event>, e: Event)
    ensures CountStop(out + [e]) == CountStop(out) + if e.MessageStop? then 1 else 0
  {
    assert (out + [e])[..|out|] == out;
  }

  lemma CountStopStart(s: State)
    ensures CountStop(Start(s).out) == CountStop(s.out)
  {
    CountStopAppend(s.out, PREAMBLE);
    CountStopSnoc([], MessageStart);
    CountStopSnoc([MessageStart], ContentBlockStart);
    CountStopSnoc([MessageStart, ContentBlockStart], Ping);
    assert [] + [MessageStart] == [MessageStart];
    assert [MessageStart] + [ContentBlockStart] + [Ping] == PREAMBLE;
  }

  lemma CountStopFinish(s: State)
    ensures CountStop(Finish(s).out) == CountStop(s.out) + if s.completed then 0 else 1
  {
    hide CountStop;
    CountStopStart(s);
    var t := Start(s);
    var tokens := if t.outputTokens == 0 then (|t.text| + 3) / 4 else t.outputTokens;
    var u := t.out + [ContentBlockStop] + [MessageDelta(tokens)];
    assert u == t.out + [ContentBlockStop, MessageDelta(tokens)];
    CountStopSnoc(t.out, ContentBlockStop);
    CountStopSnoc(t.out + [ContentBlockStop], MessageDelta(tokens));
    CountStopSnoc(u, MessageStop);
  }

  /** Whatever arrives, message_stop is emitted once if some [DONE] or WriteDone arrived, else never. */
  lemma {:induction false} StopOnce(fs: seq<Frame>)
    ensures Run(fs).completed <==> HasEnd(fs)
    ensures CountStop(Run(fs).out) == if HasEnd(fs) then 1 else 0
  {
    if fs != [] {
      var init, f := fs[..|fs| - 1], fs[|fs| - 1];
      StopOnce(init);
      HasEndSnoc(fs);
      var s := Run(init);
      assert Run(fs) == Step(s, f);
      hide CountStop, Run, HasEnd;
      match f
      case Text(c) =>
        CountStopStart(s);
        CountStopSnoc(Start(s).out, Delta(c.text));
      case Done =>
        CountStopFinish(s);
      case Ignored =>
      case Close =>
        CountStopSnoc(s.out, MessageStop);
    }
  }

  function DeltaTexts(out: seq<Event>): seq<Bytes> {
    if out == [] then []
    else DeltaTexts(out[..|out| - 1]) + match out[|out| - 1] { case Delta(t) => [t] case _ => [] }
  }

  lemma DeltaTextsSnoc(out: seq<Event>, e: Event)
    ensures DeltaTexts(out + [e]) == DeltaTexts(out) + match e { case Delta(t) => [t] case _ => [] }
  {
    assert (out + [e])[..|out|] == out;
  }

  lemma DeltaTextsPreamble(out: seq<Event>)
    ensures DeltaTexts(out + PREAMBLE) == DeltaTexts(out)
  {
    DeltaTextsSnoc(out, MessageStart);
    DeltaTextsSnoc(out + [MessageStart], ContentBlockStart);
    DeltaTextsSnoc(out + [MessageStart] + [ContentBlockStart], Ping);
    assert out + PREAMBLE == out + [MessageStart] + [ContentBlockStart] + [Ping];
  }

  lemma DeltaTextsStart(s: State)
    ensures DeltaTexts(Start(s).out) == DeltaTexts(s.out)
  {
    DeltaTextsPreamble(s.out);
  }

  lemma DeltaTextsFinish(s: State)
    ensures DeltaTexts(Finish(s).out) == DeltaTexts(s.out)
  {
    hide DeltaTexts;
    DeltaTextsStart(s);
    var t := Start(s);
    var tokens := if t.outputTokens == 0 then (|t.text| + 3) / 4 else t.outputTokens;
    var u := t.out + [ContentBlockStop] + [MessageDelta(tokens)];
    assert u == t.out + [ContentBlockStop, MessageDelta(tokens)];
    DeltaTextsSnoc(t.out, ContentBlockStop);
    DeltaTextsSnoc(t.out + [ContentBlockStop], MessageDelta(tokens));
    DeltaTextsSnoc(u, MessageStop);
  }

  /** Text conservation: the deltas are the chunk texts, one each and in order, and the accumulated text is
      their concatenation. */
  lemma {:induction false} DeltasAreTexts(fs: seq<Frame>)
    ensures DeltaTexts(Run(fs).out) == Texts(fs)
    ensures Run(fs).text == JoinTexts(Texts(fs)) && Run(fs).outputTokens == 0
  {
    if fs != [] {
      var init, f := fs[..|fs| - 1], fs[|fs| - 1];
      DeltasAreTexts(init);
      var s := Run(init);
      assert Run(fs) == Step(s, f);
      assert Texts(init) + [] == Texts(init);
      match f
      case Text(c) =>
        hide DeltaTexts, JoinTexts, Run;
        DeltaTextsStart(s);
        DeltaTextsSnoc(Start(s).out, Delta(c.text));
        JoinTextsSnoc(Texts(init), c.text);
      case Done =>
        hide DeltaTexts, JoinTexts, Run;
        DeltaTextsFinish(s);
      case Ignored =>
      case Close =>
        DeltaTextsSnoc(s.out, MessageStop);
    }
  }

  // ---- Exactly what each frame adds ----------------------------------------------------------------

  lemma {:induction false} StartedExactly(fs: seq<Frame>)
    ensures Run(fs).started <==> Opened(fs)
  {
    if fs != [] {
      var init, f := fs[..|fs| - 1], fs[|fs| - 1];
      StartedExactly(init);
      OpenedSnoc(init, f);
      assert fs == init + [f];
      hide Opened;
    }
  }

  // What `f` adds after `fs`, said by what has arrived and not by the writer's state.
  ghost function Emitted(fs: seq<Frame>, f: Frame): seq<Event> {
    var opening := if Opened(fs) then [] else [MessageStart, ContentBlockStart, Ping];
    var closing := if HasEnd(fs) then [] else [MessageStop];
    match f
    case Text(c) => opening + [Delta(c.text)]
    case Done => opening + [ContentBlockStop, MessageDelta((|JoinTexts(Texts(fs))| + 3) / 4)] + closing
    case Ignored => []
    case Close => closing
  }

  lemma StepEmits(s: State, f: Frame)
    ensures var opening := if s.started then [] else [MessageStart, ContentBlockStart, Ping];
            var closing := if s.completed then [] else [MessageStop];
            var tokens := if s.outputTokens == 0 then (|s.text| + 3) / 4 else s.outputTokens;
            Step(s, f).out == s.out +
              match f
              case Text(c) => opening + [Delta(c.text)]
              case Done => opening + [ContentBlockStop, MessageDelta(tokens)] + closing
              case Ignored => []
              case Close => closing
  {
    var opening := if s.started then [] else PREAMBLE;
    var closing := if s.completed then [] else [MessageStop];
    assert Start(s).out == s.out + opening;
    match f
    case Text(c) => AppendEvents(s.out, opening, [Delta(c.text)], []);
    case Done =>
      var tokens := if s.outputTokens == 0 then (|s.text| + 3) / 4 else s.outputTokens;
      AppendEvents(s.out, opening, [ContentBlockStop, MessageDelta(tokens)], closing);
    case Ignored =>
    case Close =>
  }

  lemma AppendEvents(out: seq<Event>, a: seq<Event>, b: seq<Event>, c: seq<Event>)
    ensures out + a + b + c == out + (a + b + c) && out + a + b == out + (a + b) && out + a + b + [] == out + a + b
  {
  }

  /** For any input each frame adds exactly its own events: the opening ones at the first chunk or [DONE], a delta per
      chunk, the closing ones with the estimate of the text so far at each [DONE], message_stop at the first end. */
  lemma EmitsExactly(fs: seq<Frame>, f: Frame)
    ensures Run(fs + [f]).out == Run(fs).out + Emitted(fs, f)
  {
    StartedExactly(fs);
    StopOnce(fs);
    DeltasAreTexts(fs);
    assert (fs + [f])[..|fs|] == fs;
    hide Opened, HasEnd, Texts, JoinTexts, CountStop, DeltaTexts;
    assert Run(fs + [f]) == Step(Run(fs), f);
    hide Run, Step;
    StepEmits(Run(fs), f);
  }

  // ---- The message grammar ------------------------------------------------------------------------

  // A recogniser for one Anthropic message: what has been read, and the text bytes in it.
  datatype Reading =
    | Nothing | Started | BlockOpen
    | Body(bytes: nat) | Stopped(bytes: nat) | Counted | Complete
    | Malformed

  function Read(r: Reading, e: Event): Reading {
    match (r, e)
    case (Nothing, MessageStart) => Started
    case (Started, ContentBlockStart) => BlockOpen
    case (BlockOpen, Ping) => Body(0)
    case (Body(n), Delta(t)) => Body(n + |t|)
    case (Body(n), ContentBlockStop) => Stopped(n)
    case (Stopped(n), MessageDelta(k)) => if 4 * k >= n && 4 * k < n + 4 then Counted else Malformed
    case (Counted, MessageStop) => Complete
    case _ => Malformed
  }

  function Recognise(out: seq<Event>): Reading {
    if out == [] then Nothing else Read(Recognise(out[..|out| - 1]), out[|out| - 1])
  }

  lemma RecogniseSnoc(out: seq<Event>, e: Event)
    ensures Recognise(out + [e]) == Read(Recognise(out), e)
  {
    assert (out + [e])[..|out|] == out;
  }

  lemma RecognisePreamble(out: seq<Event>)
    ensures Recognise(out + PREAMBLE) == Read(Read(Read(Recognise(out), MessageStart), ContentBlockStart), Ping)
  {
    RecogniseSnoc(out, MessageStart);
    RecogniseSnoc(out + [MessageStart], ContentBlockStart);
    RecogniseSnoc(out + [MessageStart] + [ContentBlockStart], Ping);
    assert out + PREAMBLE == out + [MessageStart] + [ContentBlockStart] + [Ping];
  }

  lemma RecogniseFinish(s: State)
    requires s.outputTokens == 0
    ensures var t := Start(s);
            var r := Read(Read(Recognise(t.out), ContentBlockStop), MessageDelta((|t.text| + 3) / 4));
            Recognise(Finish(s).out) == if t.completed then r else Read(r, MessageStop)
  {
    var t := Start(s);
    var tokens := (|t.text| + 3) / 4;
    RecogniseSnoc(t.out, ContentBlockStop);
    RecogniseSnoc(t.out + [ContentBlockStop], MessageDelta(tokens));
    assert t.out + [ContentBlockStop, MessageDelta(tokens)] == t.out + [ContentBlockStop] + [MessageDelta(tokens)];
    RecogniseSnoc(t.out + [ContentBlockStop, MessageDelta(tokens)], MessageStop);
  }

  // Where the output stands: still open, complete, or beyond repair.
  ghost predicate Tracks(ended: bool, clean: bool, s: State) {
    var r := Recognise(s.out);
    && s.completed == ended && s.outputTokens == 0
    && (clean ==> ended && s.started)
    && (!ended ==> if s.started then r == Body(|s.text|) else r == Nothing && s.text == [])
    && (ended ==> r == if clean then Complete else Malformed)
  }

  lemma TracksText(ended: bool, clean: bool, s: State, text: Bytes)
    requires Tracks(ended, clean, s)
    ensures Tracks(ended, false, Emit(s, text))
  {
    hide Recognise;
    RecognisePreamble(s.out);
    RecogniseSnoc(Start(s).out, Delta(text));
  }

  lemma TracksFinish(ended: bool, clean: bool, s: State)
    requires Tracks(ended, clean, s)
    ensures Tracks(true, !ended, Finish(s))
  {
    hide Recognise;
    RecognisePreamble(s.out);
    RecogniseFinish(s);
  }

  lemma TracksStop(ended: bool, clean: bool, s: State)
    requires Tracks(ended, clean, s)
    ensures Tracks(true, clean, Stop(s))
  {
    RecogniseSnoc(s.out, MessageStop);
  }

  lemma {:induction false} TracksRun(fs: seq<Frame>)
    ensures Tracks(HasEnd(fs), CleanEnd(fs), Run(fs))
  {
    if fs == [] {
      CleanHasEnd([]);
    } else {
      var init, f := fs[..|fs| - 1], fs[|fs| - 1];
      TracksRun(init);
      HasEndSnoc(fs);
      CleanEndSnoc(fs);
      var s, ended, clean := Run(init), HasEnd(init), CleanEnd(init);
      match f
      case Text(c) => TracksText(ended, clean, s, c.text);
      case Done => TracksFinish(ended, clean, s);
      case Ignored =>
      case Close => TracksStop(ended, clean, s);
    }
  }

  /** The output is one complete message, with the token count a quarter of the text rounded up, exactly when
      chunks are followed by one [DONE] and nothing but redundant WriteDone calls after it. */
  lemma MessageExactly(fs: seq<Frame>)
    ensures Recognise(Run(fs).out) == Complete <==> CleanEnd(fs)
  {
    TracksRun(fs);
    CleanHasEnd(fs);
  }

  /** A second [DONE] spoils the message. */
  lemma SecondDone()
    ensures Recognise(Run([Done, Done]).out) == Malformed
  {
    var fs := [Done, Done];
    assert Ends(fs[0]);
    TracksRun(fs);
  }

  lemma {:induction false} FoldIsRun(decode: Decoder, events: seq<Bytes>)
    ensures Fold(Handle(decode), INITIAL, events) == Run(FramesOf(decode, events))
    decreases |events|
  {
    if events != [] {
      FoldIsRun(decode, events[..|events| - 1]);
      FramesOfInit(decode, events);
    }
  }
}
