/** The OpenAI Responses writer. */
module ResponsesWriter {
  import opened Wrappers
  import opened SseFraming
  import opened StreamWriters

  datatype Event = Created | ItemAdded | TextDelta(delta: Bytes) | TextDone(text: Bytes) | Completed

  datatype State = State(started: bool, text: Bytes, completed: bool, out: seq<Event>)

  const INITIAL := State(false, [], false, [])
  const PREAMBLE := [Created, ItemAdded]

  function Start(s: State): State {
    if s.started then s else s.(started := true, out := s.out + PREAMBLE)
  }

  function Complete(s: State): State {
    if s.completed then s else s.(completed := true, out := s.out + [Completed])
  }

  function Step(s: State, f: Frame): State {
    match f
    case Text(c) => var t := Start(s); t.(text := t.text + c.text, out := t.out + [TextDelta(c.text)])
    case Done => var t := Start(s); Complete(t.(out := t.out + [TextDone(t.text)]))
    case Ignored => s
    case Close => Complete(s)
  }

  function Handle(decode: Decoder): (State, Bytes) -> State {
    (s: State, e: Bytes) => Step(s, Classify(decode, e))
  }

  // State and buffer of a fresh writer after the given Write calls.
  function Feeding(decode: Decoder, chunks: seq<Bytes>): (State, Bytes) {
    Feed(Handle(decode), INITIAL, [], chunks)
  }

  function Run(fs: seq<Frame>): State {
    if fs == [] then INITIAL else Step(Run(fs[..|fs| - 1]), fs[|fs| - 1])
  }

  class Writer {
    const decode: Decoder
    var buf: Bytes
    var firstWriteDone: bool
    var accumulatedText: Bytes
    var completedOnce: bool
    var out: seq<Event>

    function Contents(): State
      reads this
    {
      State(firstWriteDone, accumulatedText, completedOnce, out)
    }

    constructor (decode: Decoder)
      ensures this.decode == decode && buf == [] && Contents() == INITIAL
    {
      this.decode := decode;
      buf, firstWriteDone, accumulatedText, completedOnce, out := [], false, [], false, [];
    }

    method Write(p: Bytes) returns (n: nat)
      modifies this
      ensures n == |p|
      ensures (Contents(), buf) == Feed(Handle(decode), old(Contents()), old(buf), [p])
    {
      buf := buf + p;
      ghost var f := Split(buf);
      ghost var seen: seq<Bytes> := [];
      assert [] + f.events == f.events;
      while true
        invariant f == Frames(seen + Split(buf).events, Split(buf).rest)
        invariant Contents() == Fold(Handle(decode), old(Contents()), seen)
        decreases |buf|
      {
        var idx := IndexBlank(buf);
        if idx < 0 {
          break;
        }
        SplitHead(buf);
        var event := buf[..idx];
        AppendAssoc(seen, [event], Split(buf[idx + 2..]).events);
        assert (seen + [event])[..|seen|] == seen;
        seen := seen + [event];
        buf := buf[idx + 2..];
        HandleSSEEvent(event);
      }
      assert seen + [] == seen;
      n := |p|;
    }

    /** A sequence of Write calls on one writer is the feeding of its chunks, one after the other. */
    method WriteAll(chunks: seq<Bytes>)
      modifies this
      ensures (Contents(), buf) == Feed(Handle(decode), old(Contents()), old(buf), chunks)
      ensures old(Contents()) == INITIAL && old(buf) == [] ==> (Contents(), buf) == Feeding(decode, chunks)
    {
      hide Handle;
      for i := 0 to |chunks|
        invariant Feed(Handle(decode), Contents(), buf, chunks[i..]) ==
                  Feed(Handle(decode), old(Contents()), old(buf), chunks)
      {
        FeedCons(Handle(decode), Contents(), buf, chunks[i..]);
        assert chunks[i..][1..] == chunks[i + 1..];
        var n := Write(chunks[i]);
      }
    }

    method HandleSSEEvent(event: Bytes)
      modifies this
      ensures buf == old(buf) && Contents() == Handle(decode)(old(Contents()), event)
    {
      var line := Payload(event);
      assert Handle(decode)(old(Contents()), event) == Step(old(Contents()), Classify(decode, event));
      if line == DONE {
        EmitDone();
        return;
      }
      var chunk := decode(line);
      if chunk.None? {
        return;
      }
      var deltaText := chunk.value.text;
      if !firstWriteDone {
        firstWriteDone := true;
        out := out + PREAMBLE;
      }
      accumulatedText := accumulatedText + deltaText;
      out := out + [TextDelta(deltaText)];
      assert Classify(decode, event) == Text(chunk.value);
    }

    method EmitDone()
      modifies this
      ensures buf == old(buf) && Contents() == Step(old(Contents()), Done)
    {
      if !firstWriteDone {
        firstWriteDone := true;
        out := out + PREAMBLE;
      }
      out := out + [TextDone(accumulatedText)];
      EmitCompleted();
    }

    method EmitCompleted()
      modifies this
      ensures buf == old(buf) && Contents() == Step(old(Contents()), Close)
    {
      if completedOnce {
        return;
      }
      completedOnce := true;
      out := out + [Completed];
    }

    method WriteDone()
      modifies this
      ensures buf == old(buf) && Contents() == Step(old(Contents()), Close)
    {
      EmitCompleted();
    }
  }

  // ---- Every input ------------------------------------------------------------------------------

  // One pass over the output: the delta texts, the completions, and whether every done text so far was the
  // concatenation of the deltas before it.
  datatype Summary = Summary(texts: seq<Bytes>, completions: nat, faithful: bool)

  function Add(a: Summary, e: Event): Summary {
    match e
    case TextDelta(t) => a.(texts := a.texts + [t])
    case TextDone(t) => a.(faithful := a.faithful && t == JoinTexts(a.texts))
    case Completed => a.(completions := a.completions + 1)
    case _ => a
  }

  function Summarise(out: seq<Event>): Summary {
    if out == [] then Summary([], 0, true) else Add(Summarise(out[..|out| - 1]), out[|out| - 1])
  }

  lemma SummariseSnoc(out: seq<Event>, e: Event)
    ensures Summarise(out + [e]) == Add(Summarise(out), e)
  {
    assert (out + [e])[..|out|] == out;
  }

  lemma SummariseStart(s: State)
    ensures Summarise(Start(s).out) == Summarise(s.out)
  {
    SummariseSnoc(s.out, Created);
    SummariseSnoc(s.out + [Created], ItemAdded);
    assert s.out + PREAMBLE == s.out + [Created] + [ItemAdded];
  }

  ghost predicate Tracks(ended: bool, texts: seq<Bytes>, s: State) {
    && s.completed == ended && s.text == JoinTexts(texts)
    && Summarise(s.out) == Summary(texts, if ended then 1 else 0, true)
  }

  lemma TracksText(ended: bool, texts: seq<Bytes>, s: State, c: Chunk)
    requires Tracks(ended, texts, s)
    ensures Tracks(ended, texts + [c.text], Step(s, Text(c)))
  {
    hide Summarise, JoinTexts;
    SummariseStart(s);
    SummariseSnoc(Start(s).out, TextDelta(c.text));
    JoinTextsSnoc(texts, c.text);
  }

  lemma TracksDone(ended: bool, texts: seq<Bytes>, s: State)
    requires Tracks(ended, texts, s)
    ensures Tracks(true, texts, Step(s, Done))
  {
    hide Summarise, JoinTexts;
    SummariseStart(s);
    SummariseSnoc(Start(s).out, TextDone(s.text));
    SummariseSnoc(Start(s).out + [TextDone(s.text)], Completed);
  }

  /** Whatever arrives: the deltas are the chunk texts in order, every done text is the concatenation of the
      deltas before it, and response.completed is emitted once if some [DONE] or WriteDone arrived, else never. */
  lemma {:induction false} EveryInput(fs: seq<Frame>)
    ensures Tracks(HasEnd(fs), Texts(fs), Run(fs))
  {
    if fs != [] {
      var init, f := fs[..|fs| - 1], fs[|fs| - 1];
      EveryInput(init);
      HasEndSnoc(fs);
      var s := Run(init);
      assert Texts(init) + [] == Texts(init);
      match f
      case Text(c) => TracksText(HasEnd(init), Texts(init), s, c);
      case Done => TracksDone(HasEnd(init), Texts(init), s);
      case Ignored =>
      case Close => SummariseSnoc(s.out, Completed);
    }
  }

  // ---- Exactly what each frame adds ----------------------------------------------------------------

  lemma {:induction false} StartedExactly(fs: seq<Frame>)
    ensures Run(fs).started <==> Opened(fs)
  {
    if fs != [] {
      var init, f := fs[..|fs| - 1], fs[|fs| - 1];
      StartedExactly(init);
      OpenedSnoc(init, f);
      assert fs == init + [f];
      hide Opened;
    }
  }

  // What `f` adds after `fs`, said by what has arrived and not by the writer's state.
  ghost function Emitted(fs: seq<Frame>, f: Frame): seq<Event> {
    var opening := if Opened(fs) then [] else [Created, ItemAdded];
    var closing := if HasEnd(fs) then [] else [Completed];
    match f
    case Text(c) => opening + [TextDelta(c.text)]
    case Done => opening + [TextDone(JoinTexts(Texts(fs)))] + closing
    case Ignored => []
    case Close => closing
  }

  lemma StepEmits(s: State, f: Frame)
    ensures var opening := if s.started then [] else [Created, ItemAdded];
            var closing := if s.completed then [] else [Completed];
            Step(s, f).out == s.out +
              match f
              case Text(c) => opening + [TextDelta(c.text)]
              case Done => opening + [TextDone(s.text)] + closing
              case Ignored => []
              case Close => closing
  {
    var opening := if s.started then [] else PREAMBLE;
    var closing := if s.completed then [] else [Completed];
    assert Start(s).out == s.out + opening;
    match f
    case Text(c) => AppendEvents(s.out, opening, [TextDelta(c.text)], []);
    case Done => AppendEvents(s.out, opening, [TextDone(s.text)], closing);
    case Ignored =>
    case Close =>
  }

  lemma AppendEvents(out: seq<Event>, a: seq<Event>, b: seq<Event>, c: seq<Event>)
    ensures out + a + b + c == out + (a + b + c) && out + a + b == out + (a + b) && out + a + b + [] == out + a + b
  {
  }

  /** For any input each frame adds exactly its own events: the opening ones at the first chunk or [DONE], a delta per
      chunk, the whole text so far at each [DONE], response.completed at the first end. */
  lemma EmitsExactly(fs: seq<Frame>, f: Frame)
    ensures Run(fs + [f]).out == Run(fs).out + Emitted(fs, f)
  {
    StartedExactly(fs);
    EveryInput(fs);
    assert (fs + [f])[..|fs|] == fs;
    hide Opened, HasEnd, Texts, JoinTexts, Summarise;
    assert Run(fs + [f]) == Step(Run(fs), f);
    hide Run, Step;
    StepEmits(Run(fs), f);
  }

  // ---- The response grammar -----------------------------------------------------------------------

  // A recogniser for one response: what has been read, and the text delivered so far.
  datatype Reading = Nothing | Announced | Body(text: Bytes) | Closing | Whole | Malformed

  function Read(r: Reading, e: Event): Reading {
    match (r, e)
    case (Nothing, Created) => Announced
    case (Announced, ItemAdded) => Body([])
    case (Body(t), TextDelta(d)) => Body(t + d)
    case (Body(t), TextDone(d)) => if t == d then Closing else Malformed
    case (Closing, Completed) => Whole
    case _ => Malformed
  }

  function Recognise(out: seq<Event>): Reading {
    if out == [] then Nothing else Read(Recognise(out[..|out| - 1]), out[|out| - 1])
  }

  lemma RecogniseSnoc(out: seq<Event>, e: Event)
    ensures Recognise(out + [e]) == Read(Recognise(out), e)
  {
    assert (out + [e])[..|out|] == out;
  }

  lemma RecognisePreamble(out: seq<Event>)
    ensures Recognise(out + PREAMBLE) == Read(Read(Recognise(out), Created), ItemAdded)
  {
    RecogniseSnoc(out, Created);
    RecogniseSnoc(out + [Created], ItemAdded);
    assert out + PREAMBLE == out + [Created] + [ItemAdded];
  }

  // Where the output stands: still open, whole, or beyond repair.
  ghost predicate Follows(ended: bool, clean: bool, s: State) {
    var r := Recognise(s.out);
    && s.completed == ended && (clean ==> ended && s.started)
    && (!ended ==> if s.started then r == Body(s.text) else r == Nothing && s.text == [])
    && (ended ==> r == if clean then Whole else Malformed)
  }

  lemma FollowsText(ended: bool, clean: bool, s: State, c: Chunk)
    requires Follows(ended, clean, s)
    ensures Follows(ended, false, Step(s, Text(c)))
  {
    hide Recognise;
    RecognisePreamble(s.out);
    RecogniseSnoc(Start(s).out, TextDelta(c.text));
  }

  lemma FollowsDone(ended: bool, clean: bool, s: State)
    requires Follows(ended, clean, s)
    ensures Follows(true, !ended, Step(s, Done))
  {
    hide Recognise;
    RecognisePreamble(s.out);
    var t := Start(s);
    RecogniseSnoc(t.out, TextDone(t.text));
    RecogniseSnoc(t.out + [TextDone(t.text)], Completed);
  }

  lemma {:induction false} FollowsRun(fs: seq<Frame>)
    ensures Follows(HasEnd(fs), CleanEnd(fs), Run(fs))
  {
    if fs == [] {
      CleanHasEnd([]);
    } else {
      var init, f := fs[..|fs| - 1], fs[|fs| - 1];
      FollowsRun(init);
      HasEndSnoc(fs);
      CleanEndSnoc(fs);
      var s, ended, clean := Run(init), HasEnd(init), CleanEnd(init);
      match f
      case Text(c) => FollowsText(ended, clean, s, c);
      case Done => FollowsDone(ended, clean, s);
      case Ignored =>
      case Close => RecogniseSnoc(s.out, Completed);
    }
  }

  /** The output is one whole response, in event order and with the delivered text repeated at its end, exactly
      when chunks are followed by one [DONE] and nothing but redundant WriteDone calls after it. */
  lemma ResponseExactly(fs: seq<Frame>)
    ensures Recognise(Run(fs).out) == Whole <==> CleanEnd(fs)
  {
    FollowsRun(fs);
    CleanHasEnd(fs);
  }

  /** Text after [DONE] spoils the response. */
  lemma TextAfterDone(c: Chunk)
    ensures Recognise(Run([Done, Text(c)]).out) == Malformed
  {
    var fs := [Done, Text(c)];
    assert Ends(fs[0]);
    FollowsRun(fs);
  }

  lemma {:induction false} FoldIsRun(decode: Decoder, events: seq<Bytes>)
    ensures Fold(Handle(decode), INITIAL, events) == Run(FramesOf(decode, events))
    decreases |events|
  {
    if events != [] {
      FoldIsRun(decode, events[..|events| - 1]);
      FramesOfInit(decode, events);
    }
  }
}
