/**
 * The line-delimited read loop of the text-to-image streaming route
 * (app/api/optimize-and-generate/stream/route.js): each chunk is appended to a buffer,
 * the buffer is split on `'\n'`, the unterminated tail is kept, and every complete line
 * may yield one delta event. The stream ends with one completion or error event.
 */
module GenerateStream {
  import opened Wrappers
  import opened Strings
  import opened Json
  import opened Candidates
  import opened Events

  const DataPrefix := "data: "
  const DoneLine := "data: [DONE]"

  /** The JSON text of one line, or `None` when the line is skipped before parsing. */
  function LinePayload(line: string): Option<string> {
    TrimmedPayload(Trim(line))
  }

  /** The JSON text of a trimmed line: blank lines and `data: [DONE]` are skipped, the prefix is dropped. */
  function TrimmedPayload(t: string): Option<string> {
    if t == "" || t == DoneLine then None
    else
      var json := if StartsWith(t, DataPrefix) then t[|DataPrefix|..] else t;
      if json == "" then None else Some(json)
  }

  /** The delta one complete line emits: its first part's text, when it parses and has one. */
  function LineDelta(line: string, parse: string -> Option<Json>): Option<string> {
    PayloadDelta(LinePayload(line), parse)
  }

  /** The delta of a line's JSON text, if any: the first part's text when it parses and has one. */
  function PayloadDelta(payload: Option<string>, parse: string -> Option<Json>): Option<string> {
    match payload
    case None => None
    case Some(json) =>
      match parse(json)
      case None => None
      case Some(data) =>
        match FirstPartText(data)
        case Found(t) => Some(t)
        case _ => None
  }

  /** The events a run of complete lines emits, in order. */
  function LineEvents(lines: seq<string>, parse: string -> Option<Json>): seq<Event> {
    if |lines| == 0 then []
    else
      var d := LineDelta(lines[|lines| - 1], parse);
      LineEvents(lines[..|lines| - 1], parse) + (if d.Some? then [Delta(d.value)] else [])
  }

  /** The per-line texts, each extracted on its own, concatenated in line order. */
  function LineTexts(lines: seq<string>, parse: string -> Option<Json>): string {
    if |lines| == 0 then ""
    else LineTexts(lines[..|lines| - 1], parse) + LineDelta(lines[|lines| - 1], parse).GetOr("")
  }

  lemma {:induction false} LineEventsAppend(a: seq<string>, b: seq<string>, parse: string -> Option<Json>)
    ensures LineEvents(a + b, parse) == LineEvents(a, parse) + LineEvents(b, parse)
    decreases |b|
  {
    if |b| == 0 {
      assert a + b == a;
    } else {
      assert (a + b)[..|a + b| - 1] == a + b[..|b| - 1];
      LineEventsAppend(a, b[..|b| - 1], parse);
    }
  }

  /** The server-side state of one streaming request: the line buffer and the events enqueued so far. */
  class LineStream {
    const parse: string -> Option<Json>
    var buffer: string
    var events: seq<Event>
    var closed: bool
    ghost var received: string      // every chunk so far, in order
    ghost var lines: seq<string>    // every complete line handed to the loop body so far

    ghost predicate Valid()
      reads this
    {
      && '\n' !in buffer
      && (forall i :: 0 <= i < |lines| ==> '\n' !in lines[i])
      && received == Terminated(lines) + buffer
      && (!closed ==> events == LineEvents(lines, parse))
      && (closed ==> |events| > 0 && events[..|events| - 1] == LineEvents(lines, parse)
                     && IsTerminal(events[|events| - 1]))
    }

    constructor (parse: string -> Option<Json>)
      ensures Valid() && !closed && this.parse == parse
      ensures buffer == "" && events == [] && received == "" && lines == []
    {
      this.parse := parse;
      buffer := "";
      events := [];
      closed := false;
      received := "";
      lines := [];
    }

    /** One iteration of the read loop: lines 85-118. */
    method Feed(chunk: string)
      requires Valid() && !closed
      modifies this
      ensures Valid() && !closed
      ensures received == old(received) + chunk
      ensures lines == old(lines) + CompleteLines(old(buffer) + chunk)
      ensures buffer == Tail(old(buffer) + chunk)
      ensures events == old(events) + LineEvents(CompleteLines(old(buffer) + chunk), parse)
    {
      ghost var text := buffer + chunk;
      Regroup(lines, buffer, chunk);
      var pieces := Split(buffer + chunk, '\n');
      var complete := pieces[..|pieces| - 1];
      assert complete == CompleteLines(text);
      LineEventsAppend(lines, complete, parse);
      var emitted := EmitLines(complete, parse);
      buffer := pieces[|pieces| - 1];
      received := received + chunk;
      lines := lines + complete;
      events := events + emitted;
    }

    /** The end of the read loop: lines 121-131, a completion or the caught error, then close. */
    method Finish(failure: Option<string>)
      requires Valid() && !closed
      modifies this
      ensures Valid() && closed
      ensures events == old(events) + [Terminal(failure)]
      ensures buffer == old(buffer) && lines == old(lines) && received == old(received)
    {
      events := events + [Terminal(failure)];
      closed := true;
    }
  }

  /** The `for (const line of lines)` loop: each complete line in order, at most one delta each. */
  method EmitLines(complete: seq<string>, parse: string -> Option<Json>) returns (emitted: seq<Event>)
    ensures emitted == LineEvents(complete, parse)
  {
    emitted := [];
    var i := 0;
    while i < |complete|
      invariant 0 <= i <= |complete|
      invariant emitted == LineEvents(complete[..i], parse)
    {
      var delta := LineDelta(complete[i], parse);
      assert complete[..i + 1][..i] == complete[..i];
      if delta.Some? {
        emitted := emitted + [Delta(delta.value)];
      }
      i := i + 1;
    }
    assert complete[..i] == complete;
  }

  /**
   * The whole `start(controller)` body: `chunks` are the decoded reads before the reader
   * reported done, or before it failed with `failure`. The events depend only on the
   * concatenated text, never on where the chunk boundaries fall, and the unterminated tail
   * is never parsed.
   */
  method RelayLines(parse: string -> Option<Json>, chunks: seq<string>, failure: Option<string>)
    returns (events: seq<Event>)
    ensures events == LineEvents(CompleteLines(Concat(chunks)), parse) + [Terminal(failure)]
    ensures EndsOnce(events)
  {
    var stream := new LineStream(parse);
    var k := 0;
    while k < |chunks|
      invariant 0 <= k <= |chunks|
      invariant stream.Valid() && !stream.closed && stream.parse == parse
      invariant stream.received == Concat(chunks[..k])
    {
      stream.Feed(chunks[k]);
      assert chunks[..k + 1][..k] == chunks[..k];
      k := k + 1;
    }
    assert chunks[..k] == chunks;
    SplitTerminated(stream.lines, stream.buffer);
    stream.Finish(failure);
    events := stream.events;
    LineEventsAreDeltas(CompleteLines(Concat(chunks)), parse);
  }

  /** Lines only ever emit deltas, never a terminal event. */
  lemma {:induction false} LineEventsAreDeltas(lines: seq<string>, parse: string -> Option<Json>)
    ensures forall i :: 0 <= i < |LineEvents(lines, parse)| ==> LineEvents(lines, parse)[i].Delta?
  {
    if |lines| > 0 {
      LineEventsAreDeltas(lines[..|lines| - 1], parse);
    }
  }

  /** Blank lines and the `data: [DONE]` sentinel, however indented, emit nothing. */
  lemma SkippedLines(line: string, parse: string -> Option<Json>)
    requires Blank(line) || Trim(line) == DoneLine
    ensures LineDelta(line, parse) == None
  {
    TrimSpec(line);
  }

  /**
   * The `if (jsonStr)` test never fails: a trimmed line that starts with `data: ` ends in a
   * non-blank character, so something follows the prefix.
   */
  lemma PayloadNeverEmpty(line: string)
    requires !Blank(line) && Trim(line) != DoneLine
    ensures LinePayload(line).Some?
  {
    var t := Trim(line);
    TrimSpec(line);
    assert t != "" && Clean(t);
    if StartsWith(t, DataPrefix) {
      assert t[..6] == DataPrefix;
      assert t[5] == ' ' && IsJsWhitespace(t[5]);
      assert |t| != 6;
      assert t[6..] != "";
    }
  }

  /** The `data: ` prefix is optional: a clean record line means the same with or without it. */
  lemma PrefixIsOptional(record: string, parse: string -> Option<Json>)
    requires record != "" && Clean(record)
    requires !StartsWith(record, DataPrefix) && record != "[DONE]"
    ensures LineDelta(DataPrefix + record, parse) == LineDelta(record, parse)
  {
    var line := DataPrefix + record;
    assert line[0] == 'd' && line[|line| - 1] == record[|record| - 1];
    assert Clean(line);
    TrimSpec(line);
    TrimSpec(record);
    assert Trim(line) == line && Trim(record) == record;
    assert line[..|DataPrefix|] == DataPrefix && line[|DataPrefix|..] == record;
    assert |line| != |DoneLine| || line[|DataPrefix|..] != DoneLine[|DataPrefix|..];
    assert TrimmedPayload(line) == Some(record);
    assert StartsWith(DoneLine, DataPrefix);
    assert TrimmedPayload(record) == Some(record);
  }

  /** Leading whitespace never matters: the line is trimmed before anything else. */
  lemma LeadingSpaceIgnored(line: string, parse: string -> Option<Json>)
    ensures LineDelta(" " + line, parse) == LineDelta(line, parse)
  {
    TrimLeadingSpace(line);
    assert LinePayload(" " + line) == LinePayload(line);
  }

  /** A line that fails to parse emits nothing and does not stop the lines after it. */
  lemma UnparsableLineIsSkipped(before: seq<string>, line: string, after: seq<string>,
                                parse: string -> Option<Json>)
    requires LinePayload(line).Some? && parse(LinePayload(line).value).None?
    ensures LineEvents(before + [line] + after, parse) == LineEvents(before, parse) + LineEvents(after, parse)
  {
    assert LineDelta(line, parse) == None;
    assert [line][..0] == [];
    assert LineEvents([line], parse) == [];
    LineEventsAppend(before + [line], after, parse);
    LineEventsAppend(before, [line], parse);
  }

  /** The emitted deltas concatenate to the per-line texts concatenated in line order. */
  lemma {:induction false} DeltasConcatenateLineTexts(lines: seq<string>, parse: string -> Option<Json>)
    ensures DeltaText(LineEvents(lines, parse)) == LineTexts(lines, parse)
  {
    if |lines| > 0 {
      var init := lines[..|lines| - 1];
      var d := LineDelta(lines[|lines| - 1], parse);
      DeltasConcatenateLineTexts(init, parse);
      DeltaTextAppend(LineEvents(init, parse), if d.Some? then [Delta(d.value)] else []);
    }
  }

  /**
   * A fragment after the last `'\n'` when the upstream ends is never parsed: appending it to
   * a text that ends on a line boundary does not change the complete lines.
   */
  lemma UnterminatedTailIgnored(lines: seq<string>, fragment: string)
    requires forall i :: 0 <= i < |lines| ==> '\n' !in lines[i]
    requires '\n' !in fragment
    ensures CompleteLines(Terminated(lines) + fragment) == CompleteLines(Terminated(lines)) == lines
  {
    SplitTerminated(lines, fragment);
    SplitTerminated(lines, "");
    assert Terminated(lines) + "" == Terminated(lines);
  }
}
