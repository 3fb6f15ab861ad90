/**
 Cutting a byte stream into events at blank lines, independently of how the bytes arrive.

 The three stream writers share one buffer discipline: append the new bytes, then repeatedly take
 everything before the first "\n\n" as an event. `Split` is the one-shot meaning of that loop.
 */
module SseFraming {
  newtype byte = x: int | 0 <= x < 256
  type Bytes = seq<byte>

  const LF: byte := 10
  const BLANK: Bytes := [LF, LF]

  predicate BlankAt(b: Bytes, i: nat) {
    i + 1 < |b| && b[i] == LF && b[i + 1] == LF
  }

  // `i` is where the first blank line of `b` starts.
  ghost predicate FirstBlank(b: Bytes, i: nat) {
    BlankAt(b, i) && forall j | 0 <= j < i :: !BlankAt(b, j)
  }

  ghost predicate NoBlank(b: Bytes) {
    forall j | 0 <= j < |b| :: !BlankAt(b, j)
  }

  function IndexFrom(b: Bytes, i: nat): (r: int)
    requires i <= |b|
    ensures r < 0 ==> forall j | i <= j < |b| :: !BlankAt(b, j)
    ensures r >= 0 ==> i <= r && BlankAt(b, r) && forall j | i <= j < r :: !BlankAt(b, j)
    decreases |b| - i
  {
    if i == |b| then -1 else if BlankAt(b, i) then i else IndexFrom(b, i + 1)
  }

  // bytes.Index for the two-byte separator.
  function IndexBlank(b: Bytes): (r: int)
    ensures r < 0 ==> NoBlank(b)
    ensures r >= 0 ==> FirstBlank(b, r)
  {
    IndexFrom(b, 0)
  }

  datatype Frames = Frames(events: seq<Bytes>, rest: Bytes)

  function Split(b: Bytes): Frames
    decreases |b|
  {
    var i := IndexBlank(b);
    if i < 0 then Frames([], b)
    else var tail := Split(b[i + 2..]); Frames([b[..i]] + tail.events, tail.rest)
  }

  // ---- What Split means ---------------------------------------------------------------------------

  function Join(events: seq<Bytes>): Bytes {
    if events == [] then [] else events[0] + BLANK + Join(events[1..])
  }

  // Each event ends at the first blank line after its start, and none is left over.
  ghost predicate Framed(b: Bytes, f: Frames) {
    && b == Join(f.events) + f.rest
    && NoBlank(f.rest)
    && forall k | 0 <= k < |f.events| :: FirstBlank(f.events[k] + BLANK, |f.events[k]|)
  }

  lemma FirstBlankStays(e: Bytes, x: Bytes)
    requires FirstBlank(e + BLANK, |e|)
    ensures FirstBlank(e + BLANK + x, |e|)
  {
    var b := e + BLANK;
    forall j | 0 <= j < |e| ensures !BlankAt(b + x, j) {
      assert (b + x)[j] == b[j] && (b + x)[j + 1] == b[j + 1];
      assert !BlankAt(b, j);
    }
  }

  lemma FirstBlankAlone(b: Bytes, i: nat)
    requires FirstBlank(b, i)
    ensures FirstBlank(b[..i] + BLANK, i) && b == b[..i] + BLANK + b[i + 2..]
  {
    forall j | 0 <= j < i ensures !BlankAt(b[..i] + BLANK, j) {
      assert (b[..i] + BLANK)[j] == b[j] && (b[..i] + BLANK)[j + 1] == b[j + 1];
      assert !BlankAt(b, j);
    }
  }

  lemma FramedCons(e: Bytes, f: Frames, tail: Bytes)
    requires Framed(tail, f) && FirstBlank(e + BLANK, |e|)
    ensures Framed(e + BLANK + tail, Frames([e] + f.events, f.rest))
  {
    hide FirstBlank, NoBlank;
    var g := Frames([e] + f.events, f.rest);
    assert g.events[1..] == f.events;
    calc {
      e + BLANK + tail;
      e + BLANK + (Join(f.events) + f.rest);
      (e + BLANK + Join(f.events)) + f.rest;
      Join(g.events) + f.rest;
    }
  }

  lemma {:induction false} SplitFrames(b: Bytes)
    ensures Framed(b, Split(b))
    decreases |b|
  {
    hide FirstBlank, NoBlank;
    var i := IndexBlank(b);
    if i >= 0 {
      var tail := b[i + 2..];
      FirstBlankAlone(b, i);
      SplitFrames(tail);
      hide Framed;
      FramedCons(b[..i], Split(tail), tail);
    }
  }

  lemma FirstBlankUnique(b: Bytes, i: nat)
    requires FirstBlank(b, i)
    ensures IndexBlank(b) == i
  {
    var j := IndexBlank(b);
    assert j >= 0 by {
      assert BlankAt(b, i);
    }
    assert BlankAt(b, j) && BlankAt(b, i);
  }

  lemma {:induction false} FramedIsSplit(b: Bytes, f: Frames)
    requires Framed(b, f)
    ensures f == Split(b)
    decreases |f.events|
  {
    if f.events == [] {
      assert b == f.rest;
    } else {
      var e, g := f.events[0], Frames(f.events[1..], f.rest);
      var tail := Join(g.events) + g.rest;
      assert FirstBlank(e + BLANK, |e|);
      assert Framed(tail, g) by { hide FirstBlank, NoBlank; }
      HeadFirst(b, e, tail);
      FramedIsSplit(tail, g);
      hide FirstBlank, NoBlank, Framed, Join;
      SplitHead(b);
    }
  }

  lemma HeadFirst(b: Bytes, e: Bytes, tail: Bytes)
    requires b == e + BLANK + tail && FirstBlank(e + BLANK, |e|)
    ensures IndexBlank(b) == |e| && b[..|e|] == e && b[|e| + 2..] == tail
  {
    FirstBlankStays(e, tail);
    FirstBlankUnique(b, |e|);
  }

  /** A framing of `b` is unique, and Split finds it. */
  lemma SplitExactly(b: Bytes, f: Frames)
    ensures f == Split(b) <==> Framed(b, f)
  {
    SplitFrames(b);
    if Framed(b, f) {
      FramedIsSplit(b, f);
    }
  }

  // ---- Feeding bytes piecewise ----------------------------------------------------------------------

  lemma IndexAppend(a: Bytes, b: Bytes)
    requires IndexBlank(a) >= 0
    ensures IndexBlank(a + b) == IndexBlank(a)
  {
    var i := IndexBlank(a);
    forall j | 0 <= j <= i ensures BlankAt(a + b, j) <==> BlankAt(a, j) {
      assert (a + b)[j] == a[j] && (a + b)[j + 1] == a[j + 1];
    }
  }

  lemma SplitHead(b: Bytes)
    requires IndexBlank(b) >= 0
    ensures var i := IndexBlank(b);
            var tail := Split(b[i + 2..]);
            Split(b) == Frames([b[..i]] + tail.events, tail.rest)
  {
  }

  // The events of `a`, then those of what was left over followed by `b`.
  lemma {:induction false} SplitAppend(a: Bytes, b: Bytes)
    ensures var f := Split(a);
            var g := Split(f.rest + b);
            Split(a + b) == Frames(f.events + g.events, g.rest)
    decreases |a|
  {
    hide FirstBlank, NoBlank;
    var i := IndexBlank(a);
    if i < 0 {
      assert Split(a) == Frames([], a);
      assert [] + Split(a + b).events == Split(a + b).events;
    } else {
      SplitAppend(a[i + 2..], b);
      SplitAppendHead(a, b, i);
    }
  }

  lemma SplitAppendHead(a: Bytes, b: Bytes, i: nat)
    requires i == IndexBlank(a)
    requires var f := Split(a[i + 2..]);
             var g := Split(f.rest + b);
             Split(a[i + 2..] + b) == Frames(f.events + g.events, g.rest)
    ensures var f := Split(a);
            var g := Split(f.rest + b);
            Split(a + b) == Frames(f.events + g.events, g.rest)
  {
    hide Split, FirstBlank, NoBlank;
    IndexAppend(a, b);
    SplitHead(a);
    SplitHead(a + b);
    AppendSlices(a, b, i);
    var f := Split(a[i + 2..]);
    var g := Split(f.rest + b);
    AppendAssoc([a[..i]], f.events, g.events);
  }

  lemma AppendSlices(a: Bytes, b: Bytes, i: nat)
    requires i + 2 <= |a|
    ensures (a + b)[..i] == a[..i] && (a + b)[i + 2..] == a[i + 2..] + b
  {
  }

  lemma AppendAssoc(a: seq<Bytes>, b: seq<Bytes>, c: seq<Bytes>)
    ensures a + (b + c) == a + b + c
  {
  }

  function Fold<S>(step: (S, Bytes) -> S, s: S, events: seq<Bytes>): S
    decreases |events|
  {
    if events == [] then s
    else step(Fold(step, s, events[..|events| - 1]), events[|events| - 1])
  }

  lemma {:induction false} FoldAppend<S>(step: (S, Bytes) -> S, s: S, a: seq<Bytes>, b: seq<Bytes>)
    ensures Fold(step, s, a + b) == Fold(step, Fold(step, s, a), b)
    decreases |b|
  {
    if b == [] {
      assert a + b == a;
    } else {
      FoldAppend(step, s, a, b[..|b| - 1]);
      assert (a + b)[..|a + b| - 1] == a + b[..|b| - 1];
    }
  }

  // State and buffer after a sequence of Write calls.
  function Feed<S>(step: (S, Bytes) -> S, s: S, buf: Bytes, chunks: seq<Bytes>): (S, Bytes)
    decreases |chunks|
  {
    if chunks == [] then (s, buf)
    else var f := Split(buf + chunks[0]); Feed(step, Fold(step, s, f.events), f.rest, chunks[1..])
  }

  lemma FeedCons<S>(step: (S, Bytes) -> S, s: S, buf: Bytes, chunks: seq<Bytes>)
    requires chunks != []
    ensures var (t, rest) := Feed(step, s, buf, [chunks[0]]);
            Feed(step, s, buf, chunks) == Feed(step, t, rest, chunks[1..])
  {
    var f := Split(buf + chunks[0]);
    assert Feed(step, s, buf, [chunks[0]]) == Feed(step, Fold(step, s, f.events), f.rest, []);
  }

  function Concat(chunks: seq<Bytes>): Bytes {
    if chunks == [] then [] else chunks[0] + Concat(chunks[1..])
  }

  lemma {:induction false} FeedIsSplit<S>(step: (S, Bytes) -> S, s: S, buf: Bytes, chunks: seq<Bytes>)
    requires NoBlank(buf)
    ensures var f := Split(buf + Concat(chunks));
            Feed(step, s, buf, chunks) == (Fold(step, s, f.events), f.rest)
    decreases |chunks|
  {
    if chunks == [] {
      assert buf + Concat(chunks) == buf;
    } else {
      var f := Split(buf + chunks[0]);
      SplitFrames(buf + chunks[0]);
      var s1 := Fold(step, s, f.events);
      FeedIsSplit(step, s1, f.rest, chunks[1..]);
      SplitAppend(buf + chunks[0], Concat(chunks[1..]));
      assert buf + chunks[0] + Concat(chunks[1..]) == buf + Concat(chunks);
      var g := Split(f.rest + Concat(chunks[1..]));
      FoldAppend(step, s, f.events, g.events);
    }
  }

  /** However the same bytes are cut into Write calls, a writer ends in the same state with the same leftover
      buffer: that of one Split over the whole stream. */
  lemma ChunkingIndependence<S>(step: (S, Bytes) -> S, s: S, one: seq<Bytes>, two: seq<Bytes>)
    requires Concat(one) == Concat(two)
    ensures Feed(step, s, [], one) == Feed(step, s, [], two)
    ensures Feed(step, s, [], one) == (Fold(step, s, Split(Concat(one)).events), Split(Concat(one)).rest)
  {
    FeedIsSplit(step, s, [], one);
    FeedIsSplit(step, s, [], two);
    assert [] + Concat(one) == Concat(one);
    assert [] + Concat(two) == Concat(two);
  }

  // ---- The payload of an event ----------------------------------------------------------------------

  const DATA: Bytes := [100, 97, 116, 97, 58, 32]      // "data: "
  const DONE: Bytes := [91, 68, 79, 78, 69, 93]        // "[DONE]"

  predicate IsSpace(b: byte) {
    b == 9 || b == 10 || b == 11 || b == 12 || b == 13 || b == 32
  }

  function TrimLeft(b: Bytes): Bytes {
    if b != [] && IsSpace(b[0]) then TrimLeft(b[1..]) else b
  }

  function TrimRight(b: Bytes): Bytes {
    if b != [] && IsSpace(b[|b| - 1]) then TrimRight(b[..|b| - 1]) else b
  }

  function Payload(event: Bytes): Bytes {
    var line := TrimRight(TrimLeft(event));
    if DATA <= line then line[|DATA|..] else line
  }

  // Tab, line feed, vertical tab, form feed, carriage return and space.
  predicate White(b: byte) {
    9 <= b <= 13 || b == 32
  }

  ghost predicate AllSpace(b: Bytes) {
    forall i | 0 <= i < |b| :: White(b[i])
  }

  lemma {:induction false} TrimLeftIs(left: Bytes, rest: Bytes)
    requires AllSpace(left) && (rest == [] || !IsSpace(rest[0]))
    ensures TrimLeft(left + rest) == rest
    decreases |left|
  {
    if left == [] {
      assert left + rest == rest;
    } else {
      TrimLeftIs(left[1..], rest);
      assert (left + rest)[0] == left[0] && (left + rest)[1..] == left[1..] + rest;
    }
  }

  lemma {:induction false} TrimRightIs(core: Bytes, right: Bytes)
    requires AllSpace(right) && (core == [] || !IsSpace(core[|core| - 1]))
    ensures TrimRight(core + right) == core
    decreases |right|
  {
    if right == [] {
      assert core + right == core;
    } else {
      var n := |right| - 1;
      TrimRightIs(core, right[..n]);
      assert (core + right)[|core + right| - 1] == right[n];
      assert (core + right)[..|core + right| - 1] == core + right[..n];
    }
  }

  /** The payload of an event, whatever surrounds it: without the white space at both ends, and without a leading
      "data: " if it then has one. */
  lemma PayloadIs(left: Bytes, core: Bytes, right: Bytes)
    requires AllSpace(left) && AllSpace(right)
    requires core != [] && !White(core[0]) && !White(core[|core| - 1])
    ensures Payload(left + core + right) == if DATA <= core then core[|DATA|..] else core
  {
    assert left + core + right == left + (core + right);
    assert (core + right)[0] == core[0];
    TrimLeftIs(left, core + right);
    TrimRightIs(core, right);
  }

  lemma PayloadOfSpace(event: Bytes)
    requires AllSpace(event)
    ensures Payload(event) == []
  {
    TrimLeftIs(event, []);
    assert event + [] == event;
  }

  // A payload that the upstream encoder can produce: non-empty, no line feed, no space at the end.
  predicate PlainPayload(p: Bytes) {
    p != [] && LF !in p && !IsSpace(p[|p| - 1])
  }

  function Encode(payloads: seq<Bytes>): Bytes {
    if payloads == [] then [] else DATA + payloads[0] + BLANK + Encode(payloads[1..])
  }

  function DataLines(payloads: seq<Bytes>): (r: seq<Bytes>)
    ensures |r| == |payloads| && forall i | 0 <= i < |r| :: r[i] == DATA + payloads[i]
  {
    seq(|payloads|, i requires 0 <= i < |payloads| => DATA + payloads[i])
  }

  lemma {:induction false} EncodeIsJoin(payloads: seq<Bytes>)
    ensures Encode(payloads) == Join(DataLines(payloads))
  {
    if payloads != [] {
      EncodeIsJoin(payloads[1..]);
      assert DataLines(payloads)[1..] == DataLines(payloads[1..]);
    }
  }

  lemma DataLineFrames(p: Bytes)
    requires LF !in p
    ensures FirstBlank(DATA + p + BLANK, |DATA + p|)
  {
    var e := DATA + p;
    forall j | 0 <= j < |e| ensures !BlankAt(e + BLANK, j) {
      if j >= |DATA| {
        assert e[j] == p[j - |DATA|];
      }
    }
  }

  lemma {:induction false} TrimRightShortens(b: Bytes)
    ensures TrimRight(b) <= b && (b != [] && IsSpace(b[|b| - 1]) ==> |TrimRight(b)| < |b|)
    ensures b != [] && !IsSpace(b[0]) ==> TrimRight(b) != []
    ensures TrimRight(b) != [] ==> !IsSpace(TrimRight(b)[|TrimRight(b)| - 1])
  {
    if b != [] && IsSpace(b[|b| - 1]) {
      TrimRightShortens(b[..|b| - 1]);
    }
  }

  /** A data line gives back its payload exactly when the payload is not empty and does not end in white space. */
  lemma PayloadExactly(p: Bytes)
    requires LF !in p
    ensures Payload(DATA + p) == p <==> PlainPayload(p)
  {
    var e := DATA + p;
    assert e[0] == 100 && TrimLeft(e) == e;
    TrimRightShortens(e);
    var line := TrimRight(e);
    if p != [] && !IsSpace(p[|p| - 1]) {
      assert e[|e| - 1] == p[|p| - 1];
      assert line == e && e[|DATA|..] == p;
    } else {
      assert IsSpace(e[|e| - 1]) by {
        assert e[|e| - 1] == if p == [] then DATA[5] else p[|p| - 1];
      }
      assert |line| < |e|;
      assert !(DATA <= line) && p != [] ==> line != p;
    }
  }

  // Each data line of an encoded stream is one event.
  lemma {:induction false} EncodeFrames(payloads: seq<Bytes>)
    requires forall i | 0 <= i < |payloads| :: LF !in payloads[i]
    ensures Split(Encode(payloads)) == Frames(DataLines(payloads), [])
  {
    hide FirstBlank, Split, Join, Encode;
    EncodeIsJoin(payloads);
    forall i | 0 <= i < |payloads| ensures FirstBlank(DataLines(payloads)[i] + BLANK, |DataLines(payloads)[i]|) {
      DataLineFrames(payloads[i]);
    }
    var f := Frames(DataLines(payloads), []);
    assert Join(f.events) + [] == Join(f.events);
    assert NoBlank([]);
    SplitExactly(Encode(payloads), f);
  }

  /** Round trip: framing and stripping an encoded Chat stream gives back its payloads, with nothing left over. */
  lemma {:induction false} EncodeRoundTrip(payloads: seq<Bytes>)
    requires forall i | 0 <= i < |payloads| :: PlainPayload(payloads[i])
    ensures Split(Encode(payloads)) == Frames(DataLines(payloads), [])
    ensures forall i | 0 <= i < |payloads| :: Payload(DataLines(payloads)[i]) == payloads[i]
  {
    EncodeFrames(payloads);
    hide Payload, Split, Encode;
    forall i | 0 <= i < |payloads| ensures Payload(DataLines(payloads)[i]) == payloads[i] {
      PayloadExactly(payloads[i]);
    }
  }
}
