/**
 The three stream writers: Chat-format server-sent events in, Anthropic, Responses and Gemini events out.

 Decoding one JSON payload is the parameter `decode`. A downstream write always succeeds here; an emitted
 event is one element of `out`, with the fields the writer computes and without the fixed ones.
 */
module StreamWriters {
  import opened Wrappers
  import opened SseFraming

  datatype Usage = Usage(prompt: int, completion: int, total: int)
  datatype Chunk = Chunk(text: Bytes, usage: Option<Usage>)
  type Decoder = Bytes -> Option<Chunk>

  // What reaches a writer: a decoded chunk, the [DONE] sentinel, anything else, or a WriteDone call.
  datatype Frame = Text(chunk: Chunk) | Done | Ignored | Close

  function Classify(decode: Decoder, event: Bytes): Frame {
    var line := Payload(event);
    if line == DONE then Done
    else match decode(line)
         case None => Ignored
         case Some(chunk) => Text(chunk)
  }

  /** What an event is to a writer: the end if its payload is the sentinel, whatever the decoder makes of that; a chunk
      if the decoder accepts any other payload; otherwise nothing. */
  lemma ClassifyExactly(decode: Decoder, event: Bytes)
    ensures Classify(decode, event).Done? <==> Payload(event) == DONE
    ensures forall c :: Classify(decode, event) == Text(c) <==>
                          Payload(event) != DONE && decode(Payload(event)) == Some(c)
    ensures Classify(decode, event).Ignored? <==> Payload(event) != DONE && decode(Payload(event)).None?
  {
  }

  // ---- Frames -----------------------------------------------------------------------------------

  function Texts(fs: seq<Frame>): seq<Bytes> {
    if fs == [] then []
    else Texts(fs[..|fs| - 1]) + match fs[|fs| - 1] { case Text(c) => [c.text] case _ => [] }
  }

  function JoinTexts(ts: seq<Bytes>): Bytes {
    if ts == [] then [] else JoinTexts(ts[..|ts| - 1]) + ts[|ts| - 1]
  }

  lemma JoinTextsSnoc(ts: seq<Bytes>, t: Bytes)
    ensures JoinTexts(ts + [t]) == JoinTexts(ts) + t
  {
    assert (ts + [t])[..|ts|] == ts;
  }

  predicate Ends(f: Frame) {
    f.Done? || f.Close?
  }

  ghost predicate HasEnd(fs: seq<Frame>) {
    exists i :: 0 <= i < |fs| && Ends(fs[i])
  }

  lemma HasEndSnoc(fs: seq<Frame>)
    requires fs != []
    ensures HasEnd(fs) <==> HasEnd(fs[..|fs| - 1]) || Ends(fs[|fs| - 1])
  {
    var init := fs[..|fs| - 1];
    if HasEnd(init) {
      var i :| 0 <= i < |init| && Ends(init[i]);
      assert Ends(fs[i]);
    }
    if HasEnd(fs) && !Ends(fs[|fs| - 1]) {
      var i :| 0 <= i < |fs| && Ends(fs[i]);
      assert Ends(init[i]);
    }
  }

  // Something was emitted before: a chunk or a [DONE] arrived.
  ghost predicate Opened(fs: seq<Frame>) {
    exists i :: 0 <= i < |fs| && (fs[i].Text? || fs[i].Done?)
  }

  lemma OpenedSnoc(fs: seq<Frame>, f: Frame)
    ensures Opened(fs + [f]) <==> Opened(fs) || f.Text? || f.Done?
  {
    var all := fs + [f];
    assert all[|fs|] == f;
    if i :| 0 <= i < |fs| && (fs[i].Text? || fs[i].Done?) {
      assert all[i] == fs[i];
    }
    if i :| 0 <= i < |all| && (all[i].Text? || all[i].Done?) {
      assert i < |fs| ==> fs[i] == all[i];
    }
  }

  // Chunks, then one [DONE], then at most redundant WriteDone calls; unrecognised events anywhere.
  ghost predicate CleanEndAt(fs: seq<Frame>, k: nat) {
    && k < |fs| && fs[k].Done?
    && (forall i | 0 <= i < k :: fs[i].Text? || fs[i].Ignored?)
    && (forall i | k < i < |fs| :: fs[i].Close? || fs[i].Ignored?)
  }

  ghost predicate CleanEnd(fs: seq<Frame>) {
    exists k: nat :: CleanEndAt(fs, k)
  }

  lemma CleanEndSnoc(fs: seq<Frame>)
    requires fs != []
    ensures var init, f := fs[..|fs| - 1], fs[|fs| - 1];
            CleanEnd(fs) <==> (CleanEnd(init) && (f.Close? || f.Ignored?)) || (!HasEnd(init) && f.Done?)
  {
    var init, f := fs[..|fs| - 1], fs[|fs| - 1];
    if CleanEnd(fs) {
      var k: nat :| CleanEndAt(fs, k);
      if k < |init| {
        assert CleanEndAt(init, k);
      } else {
        assert !HasEnd(init);
      }
    }
    if CleanEnd(init) && (f.Close? || f.Ignored?) {
      var k: nat :| CleanEndAt(init, k);
      assert CleanEndAt(fs, k);
    }
    if !HasEnd(init) && f.Done? {
      forall i | 0 <= i < |init| ensures fs[i].Text? || fs[i].Ignored? {
        assert !Ends(init[i]);
      }
      assert CleanEndAt(fs, |init|);
    }
  }

  lemma CleanHasEnd(fs: seq<Frame>)
    ensures CleanEnd(fs) ==> HasEnd(fs)
  {
    if CleanEnd(fs) {
      var k: nat :| CleanEndAt(fs, k);
      assert Ends(fs[k]);
    }
  }

  // ---- From bytes to frames -----------------------------------------------------------------------

  function FramesOf(decode: Decoder, events: seq<Bytes>): (fs: seq<Frame>)
    ensures |fs| == |events| && forall i | 0 <= i < |fs| :: fs[i] == Classify(decode, events[i])
  {
    seq(|events|, i requires 0 <= i < |events| => Classify(decode, events[i]))
  }

  lemma FramesOfInit(decode: Decoder, events: seq<Bytes>)
    requires events != []
    ensures FramesOf(decode, events)[..|events| - 1] == FramesOf(decode, events[..|events| - 1])
  {
  }

  function TextsOf(decode: Decoder, payloads: seq<Bytes>): seq<Bytes>
    requires forall i | 0 <= i < |payloads| :: decode(payloads[i]).Some?
  {
    seq(|payloads|, i requires 0 <= i < |payloads| => decode(payloads[i]).value.text)
  }

  lemma {:induction false} TextsOfFrames(decode: Decoder, payloads: seq<Bytes>, fs: seq<Frame>)
    requires |fs| == |payloads|
    requires forall i | 0 <= i < |payloads| :: decode(payloads[i]).Some? && fs[i] == Text(decode(payloads[i]).value)
    ensures Texts(fs) == TextsOf(decode, payloads)
  {
    if fs != [] {
      var n := |fs| - 1;
      TextsOfFrames(decode, payloads[..n], fs[..n]);
    }
  }

  // The frames of an encoded stream: its chunks, then [DONE].
  lemma StreamFrames(decode: Decoder, payloads: seq<Bytes>) returns (fs: seq<Frame>)
    requires forall i | 0 <= i < |payloads| :: PlainPayload(payloads[i]) && payloads[i] != DONE
    requires forall i | 0 <= i < |payloads| :: decode(payloads[i]).Some?
    ensures Split(Encode(payloads + [DONE])) == Frames(DataLines(payloads + [DONE]), [])
    ensures fs == FramesOf(decode, DataLines(payloads + [DONE]))
    ensures CleanEnd(fs) && CleanEndAt(fs, |payloads|)
    ensures forall i | 0 <= i < |payloads| :: fs[i] == Text(decode(payloads[i]).value)
    ensures Texts(fs) == Texts(fs[..|payloads|]) == TextsOf(decode, payloads)
  {
    var all := payloads + [DONE];
    assert PlainPayload(DONE);
    EncodeRoundTrip(all);
    fs := FramesOf(decode, DataLines(all));
    var n := |payloads|;
    forall i | 0 <= i < n ensures fs[i] == Text(decode(payloads[i]).value) {
      assert Payload(DataLines(all)[i]) == all[i];
    }
    assert Payload(DataLines(all)[n]) == all[n];
    assert CleanEndAt(fs, n);
    TextsOfFrames(decode, payloads, fs[..n]);
    assert Texts(fs) == Texts(fs[..n]) + [];
  }
}
