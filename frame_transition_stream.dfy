/**
 * The read loop of the first/last-frame video route
 * (app/api/optimize-frame-transition/stream/route.js). It splits the upstream text into lines
 * like the text-to-image route, but only lines that begin, untrimmed, with `data: ` are parsed,
 * each text found is appended to `completeText`, and it is forwarded as a `{text}` event rather
 * than a delta event.
 */
module FrameTransitionStream {
  import opened Wrappers
  import opened Strings
  import opened Json
  import opened Candidates
  import opened Events
  import GenerateStream

  const DataPrefix := "data: "

  /** Whether line 160 lets a line through to the parser. */
  predicate Admitted(line: string) {
    Trim(line) != "" && StartsWith(line, DataPrefix)
  }

  /** The text one complete line contributes: the parse of everything after `data: `, untrimmed. */
  function FrameLineText(line: string, parse: string -> Option<Json>): Option<string> {
    if !Admitted(line) then None
    else
      match parse(line[|DataPrefix|..])
      case None => None
      case Some(data) =>
        match FirstPartText(data)
        case Found(t) => Some(t)
        case _ => None
  }

  /** The `{text}` events a run of complete lines emits, in order. */
  function FrameEvents(lines: seq<string>, parse: string -> Option<Json>): seq<Event> {
    if |lines| == 0 then []
    else
      var t := FrameLineText(lines[|lines| - 1], parse);
      FrameEvents(lines[..|lines| - 1], parse) + (if t.Some? then [TextOnly(t.value)] else [])
  }

  /** `completeText` after a run of complete lines: every text found, in order. */
  function FrameText(lines: seq<string>, parse: string -> Option<Json>): string {
    if |lines| == 0 then ""
    else FrameText(lines[..|lines| - 1], parse) + FrameLineText(lines[|lines| - 1], parse).GetOr("")
  }

  /** The texts carried by the `{text}` events, concatenated in order. */
  function ShownText(events: seq<Event>): string {
    if |events| == 0 then ""
    else
      var last := events[|events| - 1];
      ShownText(events[..|events| - 1]) + (if last.TextOnly? then last.text else "")
  }

  lemma {:induction false} FrameEventsAppend(a: seq<string>, b: seq<string>, parse: string -> Option<Json>)
    ensures FrameEvents(a + b, parse) == FrameEvents(a, parse) + FrameEvents(b, parse)
    decreases |b|
  {
    if |b| == 0 {
      assert a + b == a;
    } else {
      var b' := b[..|b| - 1];
      assert (a + b)[..|a + b| - 1] == a + b';
      assert (a + b)[|a + b| - 1] == b[|b| - 1];
      FrameEventsAppend(a, b', parse);
    }
  }

  lemma FrameTextAppend(a: seq<string>, b: seq<string>, parse: string -> Option<Json>)
    ensures FrameText(a + b, parse) == FrameText(a, parse) + FrameText(b, parse)
  {
    FrameEventsShowFrameText(a + b, parse);
    FrameEventsShowFrameText(a, parse);
    FrameEventsShowFrameText(b, parse);
    FrameEventsAppend(a, b, parse);
    ShownTextAppend(FrameEvents(a, parse), FrameEvents(b, parse));
  }

  lemma {:induction false} ShownTextAppend(a: seq<Event>, b: seq<Event>)
    ensures ShownText(a + b) == ShownText(a) + ShownText(b)
    decreases |b|
  {
    if |b| > 0 {
      assert (a + b)[..|a + b| - 1] == a + b[..|b| - 1];
      ShownTextAppend(a, b[..|b| - 1]);
    } else {
      assert a + b == a;
    }
  }

  /** The server-side state of one frame-transition stream. */
  class FrameStream {
    const parse: string -> Option<Json>
    var buffer: string
    var completeText: string
    var events: seq<Event>
    var closed: bool
    ghost var received: string
    ghost var lines: seq<string>

    ghost predicate Valid()
      reads this
    {
      && '\n' !in buffer
      && (forall i :: 0 <= i < |lines| ==> '\n' !in lines[i])
      && received == Terminated(lines) + buffer
      && completeText == FrameText(lines, parse)
      && (!closed ==> events == FrameEvents(lines, parse))
      && (closed ==> |events| > 0 && events[..|events| - 1] == FrameEvents(lines, parse)
                     && IsTerminal(events[|events| - 1]))
    }

    constructor (parse: string -> Option<Json>)
      ensures Valid() && !closed && this.parse == parse
      ensures buffer == "" && completeText == "" && events == [] && received == "" && lines == []
    {
      this.parse := parse;
      buffer := "";
      completeText := "";
      events := [];
      closed := false;
      received := "";
      lines := [];
    }

    /** One iteration of the read loop: lines 139-197. */
    method Feed(chunk: string)
      requires Valid() && !closed
      modifies this
      ensures Valid() && !closed
      ensures received == old(received) + chunk
      ensures lines == old(lines) + CompleteLines(old(buffer) + chunk)
      ensures buffer == Tail(old(buffer) + chunk)
      ensures events == old(events) + FrameEvents(CompleteLines(old(buffer) + chunk), parse)
      ensures completeText == old(completeText) + FrameText(CompleteLines(old(buffer) + chunk), parse)
    {
      ghost var text := buffer + chunk;
      Regroup(lines, buffer, chunk);
      FrameEventsAppend(lines, CompleteLines(text), parse);
      FrameTextAppend(lines, CompleteLines(text), parse);
      var pieces := Split(buffer + chunk, '\n');
      var complete := pieces[..|pieces| - 1];
      assert complete == CompleteLines(text);
      var emitted, found := EmitFrames(complete, parse);
      buffer := pieces[|pieces| - 1];
      received := received + chunk;
      lines := lines + complete;
      events := events + emitted;
      completeText := completeText + found;
    }

    /** The end of the read loop: lines 205-216, a completion or the caught error, then close. */
    method Finish(failure: Option<string>)
      requires Valid() && !closed
      modifies this
      ensures Valid() && closed
      ensures events == old(events) + [Terminal(failure)]
      ensures buffer == old(buffer) && lines == old(lines) && received == old(received)
      ensures completeText == old(completeText)
    {
      events := events + [Terminal(failure)];
      closed := true;
    }
  }

  /** The `for` loop over the complete lines of one chunk: lines 156-197. */
  method EmitFrames(complete: seq<string>, parse: string -> Option<Json>)
    returns (emitted: seq<Event>, found: string)
    ensures emitted == FrameEvents(complete, parse)
    ensures found == FrameText(complete, parse)
  {
    emitted, found := [], "";
    var i := 0;
    while i < |complete|
      invariant 0 <= i <= |complete|
      invariant emitted == FrameEvents(complete[..i], parse)
      invariant found == FrameText(complete[..i], parse)
    {
      var t := FrameLineText(complete[i], parse);
      assert complete[..i + 1][..i] == complete[..i];
      if t.Some? {
        found := found + t.value;
        emitted := emitted + [TextOnly(t.value)];
      }
      i := i + 1;
    }
    assert complete[..i] == complete;
  }

  /**
   * The whole `start(controller)` body: the events, and the final `completeText`, which is
   * exactly the text the `{text}` events carried.
   */
  method RelayFrames(parse: string -> Option<Json>, chunks: seq<string>, failure: Option<string>)
    returns (events: seq<Event>, completeText: string)
    ensures events == FrameEvents(CompleteLines(Concat(chunks)), parse) + [Terminal(failure)]
    ensures completeText == FrameText(CompleteLines(Concat(chunks)), parse)
    ensures completeText == ShownText(events)
    ensures EndsOnce(events)
  {
    var stream := new FrameStream(parse);
    var k := 0;
    while k < |chunks|
      invariant 0 <= k <= |chunks|
      invariant stream.Valid() && !stream.closed && stream.parse == parse
      invariant stream.received == Concat(chunks[..k])
    {
      stream.Feed(chunks[k]);
      assert chunks[..k + 1][..k] == chunks[..k];
      k := k + 1;
    }
    assert chunks[..k] == chunks;
    SplitTerminated(stream.lines, stream.buffer);
    stream.Finish(failure);
    events, completeText := stream.events, stream.completeText;
    FrameStreamShowsText(CompleteLines(Concat(chunks)), parse, failure);
  }

  /** The terminal event carries no text, and it is the only terminal event. */
  lemma FrameStreamShowsText(lines: seq<string>, parse: string -> Option<Json>, failure: Option<string>)
    ensures var events := FrameEvents(lines, parse) + [Terminal(failure)];
      ShownText(events) == FrameText(lines, parse) && EndsOnce(events)
  {
    FrameEventsShowFrameText(lines, parse);
    ShownTextAppend(FrameEvents(lines, parse), [Terminal(failure)]);
    assert ShownText([Terminal(failure)]) == "";
    FrameEventsAreText(lines, parse);
  }

  /**
   * The events the route would write if each text were sent as the delta event the other
   * routes send: the same texts, in order, carrying exactly `completeText`.
   */
  function FrameDeltaEvents(lines: seq<string>, parse: string -> Option<Json>): (r: seq<Event>)
    ensures forall i :: 0 <= i < |r| ==> r[i].Delta?
    ensures DeltaText(r) == FrameText(lines, parse)
  {
    if |lines| == 0 then []
    else
      var init := FrameDeltaEvents(lines[..|lines| - 1], parse);
      var t := FrameLineText(lines[|lines| - 1], parse);
      var last := if t.Some? then [Delta(t.value)] else [];
      DeltaTextAppend(init, last);
      init + last
  }

  /** The `{text}` events carry exactly `completeText`. */
  lemma {:induction false} FrameEventsShowFrameText(lines: seq<string>, parse: string -> Option<Json>)
    ensures ShownText(FrameEvents(lines, parse)) == FrameText(lines, parse)
  {
    if |lines| > 0 {
      var init := lines[..|lines| - 1];
      var t := FrameLineText(lines[|lines| - 1], parse);
      FrameEventsShowFrameText(init, parse);
      ShownTextAppend(FrameEvents(init, parse), if t.Some? then [TextOnly(t.value)] else []);
    }
  }

  /** Lines only ever emit `{text}` events: never a delta, never a terminal event. */
  lemma {:induction false} FrameEventsAreText(lines: seq<string>, parse: string -> Option<Json>)
    ensures forall i :: 0 <= i < |FrameEvents(lines, parse)| ==> FrameEvents(lines, parse)[i].TextOnly?
  {
    if |lines| > 0 {
      FrameEventsAreText(lines[..|lines| - 1], parse);
    }
  }

  /** The `line.trim()` half of the test on line 160 never decides anything: the prefix alone does. */
  lemma TrimTestIsRedundant(line: string)
    ensures Admitted(line) <==> StartsWith(line, DataPrefix)
  {
    if StartsWith(line, DataPrefix) {
      assert line[0] == 'd';
      assert !Blank(line);
      TrimSpec(line);
    }
  }

  /** An indented `data:` line or a bare record line is dropped before parsing. */
  lemma IndentedOrBareLinesDropped(line: string, parse: string -> Option<Json>)
    requires !StartsWith(line, DataPrefix)
    ensures FrameLineText(line, parse) == None
    ensures FrameLineText(" " + line, parse) == None
  {
    assert (" " + line)[0] == ' ';
  }

  /**
   * The text-to-image route reads the same record from all three spellings that this route
   * treats differently: indented, prefixed and bare.
   */
  lemma SpellingsDifferFromTextToImage(record: string, parse: string -> Option<Json>)
    requires record != "" && Clean(record)
    requires !StartsWith(record, DataPrefix) && record != "[DONE]"
    ensures FrameLineText(" " + DataPrefix + record, parse) == FrameLineText(record, parse) == None
    ensures GenerateStream.LineDelta(" " + DataPrefix + record, parse)
         == GenerateStream.LineDelta(DataPrefix + record, parse)
         == GenerateStream.LineDelta(record, parse)
  {
    IndentedOrBareLinesDropped(record, parse);
    assert " " + DataPrefix + record == " " + (DataPrefix + record);
    assert DataPrefix + record == DataPrefix + record;
    assert !StartsWith(" " + DataPrefix + record, DataPrefix) by {
      assert (" " + DataPrefix + record)[0] == ' ';
    }
    GenerateStream.LeadingSpaceIgnored(DataPrefix + record, parse);
    GenerateStream.PrefixIsOptional(record, parse);
  }

  /**
   * A `null` record or an unparsable line is skipped by the inner `try`, and the lines after
   * it are still read.
   */
  lemma BadLineIsSkipped(before: seq<string>, line: string, after: seq<string>,
                         parse: string -> Option<Json>)
    requires Admitted(line)
    requires parse(line[|DataPrefix|..]) == None || parse(line[|DataPrefix|..]) == Some(JNull)
    ensures FrameEvents(before + [line] + after, parse) == FrameEvents(before, parse) + FrameEvents(after, parse)
  {
    assert FrameLineText(line, parse) == None;
    assert [line][..0] == [];
    assert FrameEvents([line], parse) == [];
    FrameEventsAppend(before + [line], after, parse);
    FrameEventsAppend(before, [line], parse);
  }
}
