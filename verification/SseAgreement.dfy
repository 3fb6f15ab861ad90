/**
 The gateway's framing against the standard's.

 The gateway cuts at LF LF only and takes one payload per event. On streams of events with any number of data lines it
 reads what the standard reads exactly when every event has one data line, not empty and not ending in white space.
 */
module SseAgreement {
  import opened SseFraming
  import opened SseStandard

  // Every line feed inside a block is followed by a field name.
  ghost predicate InnerFeeds(b: Bytes) {
    forall j | 0 <= j < |b| && b[j] == LF :: j + 1 < |b| && b[j + 1] == DATA[0]
  }

  lemma {:induction false} BlockFeeds(lines: seq<Bytes>)
    requires DataEvent(lines)
    ensures InnerFeeds(Block(lines)) && Block(lines)[|Block(lines)| - 1] != LF
    decreases |lines|
  {
    var init, last := lines[..|lines| - 1], lines[|lines| - 1];
    var d, b := DATA + last, Block(lines);
    assert OneLine(last) && LF !in d;
    assert b[|b| - 1] == d[|d| - 1];
    if init != [] {
      BlockFeeds(init);
      var c := Block(init);
      assert b == c + [LF] + d;
      forall j | 0 <= j < |b| && b[j] == LF ensures j + 1 < |b| && b[j + 1] == DATA[0] {
        LastFeed(c, d, j);
        assert if j < |c| then c[j] == LF else b[j + 1] == d[0];
      }
    } else {
      assert b == d;
    }
  }

  lemma BlockFrames(lines: seq<Bytes>)
    requires DataEvent(lines)
    ensures FirstBlank(Block(lines) + BLANK, |Block(lines)|)
  {
    hide Block;
    BlockFeeds(lines);
    var b := Block(lines);
    forall j | 0 <= j < |b| ensures !BlankAt(b + BLANK, j) {
      assert (b + BLANK)[j] == b[j];
      assert j + 1 < |b| ==> (b + BLANK)[j + 1] == b[j + 1];
    }
  }

  lemma StreamFrames(events: seq<seq<Bytes>>)
    requires DataEvents(events)
    ensures Split(Stream(events)) == Frames(Blocks(events), [])
  {
    hide FirstBlank, Split, Join, Block;
    forall i | 0 <= i < |events| ensures FirstBlank(Blocks(events)[i] + BLANK, |Blocks(events)[i]|) {
      BlockFrames(events[i]);
    }
    var f := Frames(Blocks(events), []);
    assert Join(f.events) + [] == Join(f.events);
    assert NoBlank([]);
    SplitExactly(Stream(events), f);
  }

  // Trimming reaches only as far as the last byte that is no space.
  lemma {:induction false} TrimAppend(a: Bytes, b: Bytes)
    requires TrimRight(b) != []
    ensures TrimRight(a + b) == a + TrimRight(b)
    decreases |b|
  {
    assert (a + b)[|a + b| - 1] == b[|b| - 1];
    if IsSpace(b[|b| - 1]) {
      TrimAppend(a, b[..|b| - 1]);
      assert (a + b)[..|a + b| - 1] == a + b[..|b| - 1];
    }
  }

  // A trimmed data line is never its own value.
  lemma TrimmedLine(value: Bytes)
    ensures TrimRight(DATA + value) != [] && TrimRight(DATA + value) != value
  {
    hide TrimRight;
    TrimmedPrefix(DATA, value);
  }

  lemma TrimmedPrefix(prefix: Bytes, value: Bytes)
    requires prefix != [] && !IsSpace(prefix[0])
    ensures TrimRight(prefix + value) != [] && TrimRight(prefix + value) != value
  {
    hide TrimRight, IsSpace;
    var e := prefix + value;
    assert e[0] == prefix[0];
    TrimRightShortens(e);
    if value != [] && !IsSpace(value[|value| - 1]) {
      Untrimmed(prefix, value);
    }
  }

  lemma Untrimmed(prefix: Bytes, value: Bytes)
    requires value != [] && !IsSpace(value[|value| - 1])
    ensures |TrimRight(prefix + value)| == |prefix| + |value|
  {
    assert (prefix + value)[|prefix + value| - 1] == value[|value| - 1];
  }

  // The last line feed of a + LF + t is the one before t.
  lemma LastFeed(a: Bytes, t: Bytes, i: nat)
    requires LF !in t && i < |a + [LF] + t|
    ensures (a + [LF] + t)[i] == LF ==> i <= |a|
  {
    if i > |a| {
      assert (a + [LF] + t)[i] == t[i - |a| - 1];
    }
  }

  lemma LastSegment(a: Bytes, t: Bytes, b: Bytes, u: Bytes)
    requires LF !in t && LF !in u && a + [LF] + t == b + [LF] + u
    ensures t == u
  {
    var x, y := a + [LF] + t, b + [LF] + u;
    assert x[|a|] == LF && y[|b|] == LF;
    LastFeed(a, t, |b|);
    LastFeed(b, u, |a|);
    assert t == x[|a| + 1..] && u == y[|b| + 1..];
  }

  /** The gateway's payload of an event is the standard's data exactly when the event has one data line whose value is
      not empty and does not end in white space. */
  lemma {:induction false} EventExactly(lines: seq<Bytes>)
    requires DataEvent(lines)
    ensures Payload(Block(lines)) == Joined(lines) <==> |lines| == 1 && PlainPayload(lines[0])
  {
    var init, last := lines[..|lines| - 1], lines[|lines| - 1];
    assert OneLine(last);
    if init == [] {
      PayloadExactly(last);
    } else {
      hide OneLine, PlainPayload;
      BlockStart(init);
      ManyLines(Block(init), Joined(init), last);
    }
  }

  lemma ManyLines(block: Bytes, joined: Bytes, last: Bytes)
    requires DATA <= block && LF !in last
    ensures Payload(block + [LF] + (DATA + last)) != joined + [LF] + last
  {
    var e, d := block + [LF] + (DATA + last), DATA + last;
    TrimmedLine(last);
    TrimAppend(block + [LF], d);
    var t := TrimRight(d);
    TrimRightShortens(d);
    assert LF !in t by {
      assert LF !in d;
    }
    assert e[0] == block[0] == DATA[0] && TrimLeft(e) == e;
    var line := block + [LF] + t;
    assert DATA <= line && line[|DATA|..] == block[|DATA|..] + [LF] + t;
    if block[|DATA|..] + [LF] + t == joined + [LF] + last {
      LastSegment(block[|DATA|..], t, joined, last);
    }
  }

  // What the writers take from a stream.
  function Payloads(stream: Bytes): (ps: seq<Bytes>)
    ensures |ps| == |Split(stream).events|
    ensures forall i | 0 <= i < |ps| :: ps[i] == Payload(Split(stream).events[i])
  {
    var events := Split(stream).events;
    seq(|events|, i requires 0 <= i < |events| => Payload(events[i]))
  }

  // One data line per event, with a plain payload.
  ghost predicate AllPlain(events: seq<seq<Bytes>>) {
    forall i | 0 <= i < |events| :: |events[i]| == 1 && PlainPayload(events[i][0])
  }

  /** On streams of events with any number of data lines the gateway reads what the standard reads exactly when every
      event has one data line, not empty and not ending in white space. */
  lemma {:induction false} StandardExactly(events: seq<seq<Bytes>>)
    requires DataEvents(events)
    ensures Payloads(Stream(events)) == Interpret(Stream(events)) <==> AllPlain(events)
  {
    NonEmpty(events);
    StandardData(events);
    StreamFrames(events);
    hide Interpret, Stream, Split, Payload, PlainPayload, Block, Joined, DataEvent;
    var ps, ds := Payloads(Stream(events)), AllJoined(events);
    forall i | 0 <= i < |events|
      ensures ps[i] == ds[i] <==> |events[i]| == 1 && PlainPayload(events[i][0])
    {
      EventExactly(events[i]);
    }
    assert ps == ds <==> forall i | 0 <= i < |events| :: ps[i] == ds[i];
  }

  /** An event with two data lines: the standard joins their values, the gateway keeps the second field name. */
  lemma TwoDataLines(a: Bytes, b: Bytes)
    requires OneLine(a) && OneLine(b) && PlainPayload(b)
    ensures Interpret(DATA + a + [LF] + (DATA + b) + BLANK) == [a + [LF] + b]
    ensures Payload(DATA + a + [LF] + (DATA + b)) == a + [LF] + (DATA + b)
  {
    hide Interpret, Payload;
    TwoLinesRead(a, b);
    TwoLinesTaken(a, b);
  }

  lemma TwoLinesRead(a: Bytes, b: Bytes)
    requires OneLine(a) && OneLine(b)
    ensures Interpret(DATA + a + [LF] + (DATA + b) + BLANK) == [a + [LF] + b]
  {
    hide Interpret;
    var lines := [a, b];
    assert lines[..1] == [a] && [a][..0] == [];
    assert Block([a]) == DATA + a && Joined([a]) == a;
    assert Block(lines) == DATA + a + [LF] + (DATA + b) && Joined(lines) == a + [LF] + b;
    hide Block, Joined;
    var events := [lines];
    StandardData(events);
    assert Blocks(events)[1..] == [];
    assert Stream(events) == Block(lines) + BLANK + Join([]) == Block(lines) + BLANK;
    assert AllJoined(events) == [Joined(lines)];
  }

  lemma TwoLinesTaken(a: Bytes, b: Bytes)
    requires PlainPayload(b)
    ensures Payload(DATA + a + [LF] + (DATA + b)) == a + [LF] + (DATA + b)
  {
    var rest := a + [LF] + (DATA + b);
    var e := DATA + a + [LF] + (DATA + b);
    assert e == DATA + rest;
    assert e[0] == 100 && e[|e| - 1] == b[|b| - 1];
    assert TrimLeft(e) == e && TrimRight(e) == e;
  }
}
