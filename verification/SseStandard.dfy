/**
 Section 9.2.6 ("Interpreting an event stream") of the WHATWG HTML Living Standard.

 The standard ends a line at CR, LF or CR LF, collects the values of `data` fields in a buffer and dispatches it at a
 blank line. `Stream` is the bytes of a sequence of events with any number of data lines each.
 */
module SseStandard {
  import opened SseFraming

  const CR: byte := 13
  const COLON: byte := 58
  const SPACE: byte := 32
  const DATA_FIELD: Bytes := [100, 97, 116, 97]   // "data"
  const BOM: Bytes := [0xEF, 0xBB, 0xBF]

  // The current line, the data buffer, whether the last byte was a CR, and the data of the dispatched events.
  datatype Parser = Parser(line: Bytes, data: Bytes, afterCR: bool, events: seq<Bytes>)

  const START := Parser([], [], false, [])

  function ColonAt(line: Bytes): (i: nat)
    ensures i <= |line| && (i < |line| ==> line[i] == COLON) && COLON !in line[..i]
  {
    if line == [] || line[0] == COLON then 0
    else
      var i := 1 + ColonAt(line[1..]);
      assert line[..i] == [line[0]] + line[1..][..i - 1];
      i
  }

  // The data buffer after a non-empty line. A comment has an empty field name.
  function AfterLine(data: Bytes, line: Bytes): Bytes {
    var i := ColonAt(line);
    var rest := if i < |line| then line[i + 1..] else [];
    var value := if rest != [] && rest[0] == SPACE then rest[1..] else rest;
    if line[..i] == DATA_FIELD then data + value + [LF] else data
  }

  function EndLine(p: Parser): Parser {
    if p.line != [] then p.(line := [], data := AfterLine(p.data, p.line))
    else if p.data == [] then p
    else p.(data := [], events := p.events + [p.data[..|p.data| - 1]])
  }

  function Step(p: Parser, b: byte): Parser {
    if b == LF then (if p.afterCR then p else EndLine(p)).(afterCR := false)
    else if b == CR then EndLine(p).(afterCR := true)
    else p.(line := p.line + [b], afterCR := false)
  }

  function Run(p: Parser, b: Bytes): Parser
    decreases |b|
  {
    if b == [] then p else Run(Step(p, b[0]), b[1..])
  }

  // An incomplete event at the end of the stream is discarded.
  function Interpret(stream: Bytes): seq<Bytes> {
    Run(START, if BOM <= stream then stream[|BOM|..] else stream).events
  }

  lemma {:induction false} RunAppend(p: Parser, a: Bytes, b: Bytes)
    ensures Run(p, a + b) == Run(Run(p, a), b)
    decreases |a|
  {
    if a == [] {
      assert a + b == b;
    } else {
      RunAppend(Step(p, a[0]), a[1..], b);
      assert (a + b)[0] == a[0] && (a + b)[1..] == a[1..] + b;
    }
  }

  lemma {:induction false} RunText(p: Parser, b: Bytes)
    requires LF !in b && CR !in b && !p.afterCR
    ensures Run(p, b) == p.(line := p.line + b)
    decreases |b|
  {
    if b == [] {
      assert p.line + b == p.line;
    } else {
      assert b[0] in b && b == [b[0]] + b[1..];
      RunText(Step(p, b[0]), b[1..]);
      assert p.line + [b[0]] + b[1..] == p.line + b;
    }
  }

  lemma ColonUnique(line: Bytes, i: nat)
    requires i < |line| && line[i] == COLON && COLON !in line[..i]
    ensures ColonAt(line) == i
  {
    var j := ColonAt(line);
    assert j <= |line|;
  }

  // A data line adds its value to the buffer.
  lemma AfterDataLine(data: Bytes, value: Bytes)
    ensures AfterLine(data, DATA + value) == data + value + [LF]
  {
    var line := DATA + value;
    assert line[..4] == DATA_FIELD && line[4] == COLON && line[5..] == [SPACE] + value;
    ColonUnique(line, 4);
  }

  lemma RunDataLine(p: Parser, value: Bytes)
    requires p.line == [] && !p.afterCR && LF !in value && CR !in value
    ensures Run(p, DATA + value + [LF]) == p.(data := p.data + value + [LF])
  {
    var line := DATA + value;
    RunText(p, line);
    assert [] + line == line;
    RunAppend(p, line, [LF]);
    AfterDataLine(p.data, value);
    var q := p.(line := line);
    assert Run(q, [LF]) == Run(Step(q, LF), []);
  }

  lemma RunBlank(p: Parser)
    requires p.line == [] && !p.afterCR && p.data != []
    ensures Run(p, [LF]) == p.(data := [], events := p.events + [p.data[..|p.data| - 1]])
  {
    assert Run(p, [LF]) == Run(Step(p, LF), []);
  }

  ghost predicate OneLine(p: Bytes) {
    LF !in p && CR !in p
  }

  // ---- Events with any number of data lines -----------------------------------------------------------

  // The bytes of an event up to its blank line, and the data the standard collects from it.
  function Block(lines: seq<Bytes>): Bytes
    requires lines != []
  {
    var init, last := lines[..|lines| - 1], lines[|lines| - 1];
    if init == [] then DATA + last else Block(init) + [LF] + (DATA + last)
  }

  function Joined(lines: seq<Bytes>): Bytes
    requires lines != []
  {
    var init, last := lines[..|lines| - 1], lines[|lines| - 1];
    if init == [] then last else Joined(init) + [LF] + last
  }

  ghost predicate DataEvent(lines: seq<Bytes>) {
    lines != [] && forall i | 0 <= i < |lines| :: OneLine(lines[i])
  }

  ghost predicate DataEvents(events: seq<seq<Bytes>>) {
    forall i | 0 <= i < |events| :: DataEvent(events[i])
  }

  function Blocks(events: seq<seq<Bytes>>): (bs: seq<Bytes>)
    requires forall i | 0 <= i < |events| :: events[i] != []
    ensures |bs| == |events| && forall i | 0 <= i < |bs| :: bs[i] == Block(events[i])
  {
    seq(|events|, i requires 0 <= i < |events| => Block(events[i]))
  }

  function AllJoined(events: seq<seq<Bytes>>): (ds: seq<Bytes>)
    requires forall i | 0 <= i < |events| :: events[i] != []
    ensures |ds| == |events| && forall i | 0 <= i < |ds| :: ds[i] == Joined(events[i])
  {
    seq(|events|, i requires 0 <= i < |events| => Joined(events[i]))
  }

  function Stream(events: seq<seq<Bytes>>): Bytes
    requires forall i | 0 <= i < |events| :: events[i] != []
  {
    Join(Blocks(events))
  }

  function Singles(payloads: seq<Bytes>): (events: seq<seq<Bytes>>)
    ensures |events| == |payloads| && forall i | 0 <= i < |events| :: events[i] == [payloads[i]]
  {
    seq(|payloads|, i requires 0 <= i < |payloads| => [payloads[i]])
  }

  // What the upstream encoder sends is the stream of its payloads, one data line each.
  lemma EncodeIsStream(payloads: seq<Bytes>)
    ensures Encode(payloads) == Stream(Singles(payloads))
  {
    EncodeIsJoin(payloads);
    var events := Singles(payloads);
    forall i | 0 <= i < |payloads| ensures Blocks(events)[i] == DataLines(payloads)[i] {
      assert [payloads[i]][..0] == [];
    }
    assert Blocks(events) == DataLines(payloads);
  }

  // ---- What the standard reads ------------------------------------------------------------------------

  lemma {:induction false} RunLines(p: Parser, lines: seq<Bytes>)
    requires p.line == [] && !p.afterCR && DataEvent(lines)
    ensures Run(p, Block(lines) + [LF]) == p.(data := p.data + Joined(lines) + [LF])
    decreases |lines|
  {
    hide Run, Step, AfterLine, OneLine;
    var init, last := lines[..|lines| - 1], lines[|lines| - 1];
    OneLineIs(last);
    if init == [] {
      RunDataLine(p, last);
    } else {
      RunLines(p, init);
      var q := p.(data := p.data + Joined(init) + [LF]);
      RunDataLine(q, last);
      RunAppend(p, Block(init) + [LF], DATA + last + [LF]);
      Regroup(Block(init), [LF], DATA + last, [LF]);
      Regroup(p.data, Joined(init), [LF], last);
    }
  }

  lemma OneLineIs(p: Bytes)
    ensures OneLine(p) <==> LF !in p && CR !in p
  {
  }

  lemma Regroup(a: Bytes, b: Bytes, c: Bytes, d: Bytes)
    ensures a + b + c + d == (a + b) + (c + d) == a + (b + c + d)
  {
  }

  lemma RunEvent(p: Parser, lines: seq<Bytes>)
    requires p.line == [] && p.data == [] && !p.afterCR && DataEvent(lines)
    ensures Run(p, Block(lines) + BLANK) == p.(events := p.events + [Joined(lines)])
  {
    hide Run, Step, AfterLine, Block, Joined;
    RunLines(p, lines);
    var d := Joined(lines);
    assert [] + d + [LF] == d + [LF] && (d + [LF])[..|d|] == d;
    RunBlank(p.(data := d + [LF]));
    RunAppend(p, Block(lines) + [LF], [LF]);
    assert Block(lines) + BLANK == Block(lines) + [LF] + [LF];
  }

  lemma StreamCons(events: seq<seq<Bytes>>)
    requires events != [] && DataEvents(events)
    ensures DataEvent(events[0]) && DataEvents(events[1..])
    ensures Stream(events) == Block(events[0]) + BLANK + Stream(events[1..])
    ensures AllJoined(events) == [Joined(events[0])] + AllJoined(events[1..])
  {
    hide Block, Joined;
    assert Blocks(events)[1..] == Blocks(events[1..]);
  }

  lemma {:induction false} RunStream(p: Parser, events: seq<seq<Bytes>>)
    requires p.line == [] && p.data == [] && !p.afterCR && DataEvents(events)
    ensures Run(p, Stream(events)) == p.(events := p.events + AllJoined(events))
    decreases |events|
  {
    hide Step, Block, Joined;
    if events == [] {
      assert p.events + AllJoined(events) == p.events;
    } else {
      hide Run, Stream, AllJoined, DataEvent;
      StreamCons(events);
      var first, rest := events[0], events[1..];
      NonEmpty(events);
      NonEmpty(rest);
      RunEvent(p, first);
      RunAppend(p, Block(first) + BLANK, Stream(rest));
      RunStream(p.(events := p.events + [Joined(first)]), rest);
      AppendAssoc(p.events, [Joined(first)], AllJoined(rest));
    }
  }

  lemma {:induction false} BlockStart(lines: seq<Bytes>)
    requires lines != []
    ensures DATA <= Block(lines)
  {
    if |lines| > 1 {
      BlockStart(lines[..|lines| - 1]);
    }
  }

  lemma NoMark(events: seq<seq<Bytes>>)
    requires forall i | 0 <= i < |events| :: events[i] != []
    ensures !(BOM <= Stream(events))
  {
    hide Block;
    if events != [] {
      BlockStart(events[0]);
      var s := Stream(events);
      assert s == Block(events[0]) + BLANK + Join(Blocks(events)[1..]);
      assert s[0] == Block(events[0])[0] == DATA[0];
    }
  }

  /** The standard reads the stream as one event per block, with its values joined by line feeds as data. */
  lemma StandardData(events: seq<seq<Bytes>>)
    requires DataEvents(events)
    ensures Interpret(Stream(events)) == AllJoined(events)
  {
    hide Run, Stream, DataEvents, AllJoined;
    assert forall i | 0 <= i < |events| :: events[i] != [] by { NonEmpty(events); }
    NoMark(events);
    RunStream(START, events);
    assert [] + AllJoined(events) == AllJoined(events);
  }

  lemma NonEmpty(events: seq<seq<Bytes>>)
    requires DataEvents(events)
    ensures forall i | 0 <= i < |events| :: events[i] != []
  {
    forall i | 0 <= i < |events| ensures events[i] != [] {
      assert DataEvent(events[i]);
    }
  }
}
