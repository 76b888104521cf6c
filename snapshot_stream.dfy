/**
 * The read loop shared by the image-edit, image-to-video and text-to-video routes
 * (app/api/optimize-and-edit/stream/route.js, app/api/optimize-and-edit-video/stream/route.js,
 * app/api/optimize-and-generate-video/stream/route.js). The upstream sends one JSON array that
 * grows chunk by chunk. After every chunk the whole buffer is searched for its bracketed span,
 * the span is parsed, the first-part texts of all items are concatenated into a snapshot, and
 * the part of the snapshot beyond the length already sent goes out as a delta.
 */
module SnapshotStream {
  import opened Wrappers
  import opened Strings
  import opened Json
  import opened Candidates
  import opened Events

  /** The index of the first `c` in `s`. */
  function FirstIndex(s: string, c: char): Option<nat> {
    if |s| == 0 then None
    else if s[0] == c then Some(0)
    else
      var rest := FirstIndex(s[1..], c);
      if rest.None? then None else Some(rest.value + 1)
  }

  /** `FirstIndex` finds the first `c`, with none before it, and fails exactly when there is none. */
  lemma {:induction false} FirstIndexSpec(s: string, c: char)
    ensures FirstIndex(s, c).None? <==> c !in s
    ensures FirstIndex(s, c).Some? ==>
      var k := FirstIndex(s, c).value; k < |s| && s[k] == c && c !in s[..k]
  {
    if |s| > 0 && s[0] != c {
      FirstIndexSpec(s[1..], c);
      assert s == [s[0]] + s[1..];
      var rest := FirstIndex(s[1..], c);
      if rest.Some? {
        assert s[..rest.value + 1] == [s[0]] + s[1..][..rest.value];
      }
    }
  }

  /** The index of the last `c` in `s`. */
  function LastIndex(s: string, c: char): Option<nat> {
    if |s| == 0 then None
    else if s[|s| - 1] == c then Some(|s| - 1)
    else LastIndex(s[..|s| - 1], c)
  }

  /** `LastIndex` finds the last `c`, with none after it, and fails exactly when there is none. */
  lemma {:induction false} LastIndexSpec(s: string, c: char)
    ensures LastIndex(s, c).None? <==> c !in s
    ensures LastIndex(s, c).Some? ==>
      var k := LastIndex(s, c).value; k < |s| && s[k] == c && c !in s[k + 1..]
  {
    if |s| > 0 && s[|s| - 1] != c {
      var init := s[..|s| - 1];
      LastIndexSpec(init, c);
      assert s == init + [s[|s| - 1]];
      var rest := LastIndex(init, c);
      if rest.Some? {
        assert s[rest.value + 1..] == init[rest.value + 1..] + [s[|s| - 1]];
      }
    }
  }

  /** A text that `/\[[\s\S]*\]/` matches as a whole: it opens with `[` and closes with `]`. */
  predicate Bracketed(t: string) {
    |t| >= 2 && t[0] == '[' && t[|t| - 1] == ']'
  }

  /** The bounds of `buffer.match(/\[[\s\S]*\]/)`: from the first `[` to the last `]` after it. */
  function BracketBounds(s: string): Option<(nat, nat)> {
    match (FirstIndex(s, '['), LastIndex(s, ']'))
    case (Some(i), Some(j)) => if i < j then Some((i, j + 1)) else None
    case _ => None
  }

  /** The matched text, when there is a match. */
  function BracketSpan(s: string): Option<string> {
    match BracketBounds(s)
    case None => None
    case Some((i, j)) => if i <= j <= |s| then Some(s[i..j]) else None
  }

  /**
   * What a backtracking regex engine returns for `/\[[\s\S]*\]/`: among the bracketed
   * substrings, the one that starts leftmost and, from there, ends rightmost.
   */
  predicate LeftmostLongest(s: string, i: nat, j: nat) {
    && i <= j <= |s| && Bracketed(s[i..j])
    && (forall i', j' :: 0 <= i' < i && i' <= j' <= |s| ==> !Bracketed(s[i'..j']))
    && (forall j' :: j < j' <= |s| ==> !Bracketed(s[i..j']))
  }

  /** The span is the regex match, and there is none exactly when no substring is bracketed. */
  lemma BracketSpanIsRegexMatch(s: string)
    ensures BracketBounds(s).Some? ==>
      var (i, j) := BracketBounds(s).value; LeftmostLongest(s, i, j) && BracketSpan(s) == Some(s[i..j])
    ensures BracketBounds(s).None? <==> forall i, j :: 0 <= i <= j <= |s| ==> !Bracketed(s[i..j])
  {
    if BracketBounds(s).Some? {
      BoundsAreLeftmostLongest(s);
    } else {
      NoBoundsNoBracket(s);
    }
  }

  lemma BoundsAreLeftmostLongest(s: string)
    requires BracketBounds(s).Some?
    ensures var (i, j) := BracketBounds(s).value; LeftmostLongest(s, i, j) && BracketSpan(s) == Some(s[i..j])
  {
    FirstIndexSpec(s, '[');
    LastIndexSpec(s, ']');
    var (i, j) := BracketBounds(s).value;
    assert s[i..j][0] == s[i] && s[i..j][j - i - 1] == s[j - 1];
    forall i', j' | 0 <= i' < i && i' <= j' <= |s|
      ensures !Bracketed(s[i'..j'])
    {
      assert s[..i][i'] == s[i'];
      if i' < j' {
        assert s[i'..j'][0] == s[i'];
      }
    }
    forall j' | j < j' <= |s|
      ensures !Bracketed(s[i..j'])
    {
      assert s[j..][j' - 1 - j] == s[j' - 1];
      assert s[i..j'][j' - i - 1] == s[j' - 1];
    }
  }

  lemma NoBoundsNoBracket(s: string)
    requires BracketBounds(s).None?
    ensures forall i, j :: 0 <= i <= j <= |s| ==> !Bracketed(s[i..j])
  {
    var fi, lj := FirstIndex(s, '['), LastIndex(s, ']');
    FirstIndexSpec(s, '[');
    LastIndexSpec(s, ']');
    forall i, j | 0 <= i <= j <= |s|
      ensures !Bracketed(s[i..j])
    {
      if j - i >= 2 {
        assert s[i..j][0] == s[i] && s[i..j][j - i - 1] == s[j - 1];
        if fi.None? {
          assert s[i] in s;
        } else if lj.None? {
          assert s[j - 1] in s;
        } else if i < fi.value {
          assert s[..fi.value][i] == s[i];
        } else {
          assert s[lj.value + 1..][j - 1 - lj.value - 1] == s[j - 1];
        }
      }
    }
  }

  /**
   * `extractedText` for the parsed array: the first-part texts of all items, each converted by
   * `+=` to a string, in order, or `None` when an item is `null`, which makes `item.candidates`
   * throw and abandons the chunk.
   */
  function ItemsText(items: seq<Json>): Option<string> {
    if |items| == 0 then Some("")
    else
      var init := ItemsText(items[..|items| - 1]);
      match FirstPartValue(items[|items| - 1])
      case Fails => None
      case Absent => init
      case Reached(v) => if init.Some? then Some(init.value + ToJsString(v)) else None
  }

  /** A truthy non-string `text` is not skipped: `+=` adds its string form, so `5` adds `"5"`. */
  lemma NumericTextIsConverted()
    ensures ItemsText([Record([CandidateWithParts([JObj([Field("text", JNum(5))])])])]) == Some("5")
  {
    var five := JObj([Field("text", JNum(5))]);
    var c := CandidateWithParts([five]);
    var items := [Record([c])];
    assert First(JArr([c])) == Some(c);
    assert First(JArr([five])) == Some(five);
    assert FirstPartValue(items[0]) == Reached(JNum(5));
    assert items[..0] == [];
    assert ToJsString(JNum(5)) == "5";
    assert "" + "5" == "5";
  }

  /** Iterating the items fails exactly when one of them is `null`. */
  lemma {:induction false} ItemsTextFailsOnNull(items: seq<Json>)
    ensures ItemsText(items).None? <==> JNull in items
  {
    if |items| > 0 {
      var init := items[..|items| - 1];
      ItemsTextFailsOnNull(init);
      assert items == init + [items[|items| - 1]];
    }
  }

  /**
   * The snapshot one chunk yields from the whole buffer, or `None` when the chunk changes
   * nothing: no bracketed span, a span that does not parse, or a `TypeError` while iterating
   * (a value that is not iterable, or a `null` item). A parsed string iterates as characters,
   * none of which has candidates.
   */
  function SnapshotText(buffer: string, parse: string -> Option<Json>): Option<string> {
    match BracketSpan(buffer)
    case None => None
    case Some(span) =>
      match parse(span)
      case Some(JArr(items)) => ItemsText(items)
      case Some(JStr(_)) => Some("")
      case _ => None
  }

  /** `s.slice(start)`: empty when `start` is past the end. */
  function Slice(s: string, start: nat): string {
    if start <= |s| then s[start..] else ""
  }

  /** The delta sent for a snapshot, if any: lines 159-171 of the image-edit route. */
  function Advance(complete: string, snapshot: Option<string>): Option<string> {
    if snapshot.None? then None
    else
      var e := snapshot.value;
      if e != "" && e != complete then
        var delta := Slice(e, |complete|);
        if delta != "" then Some(delta) else None
      else None
  }

  /** `completeText` and the deltas sent so far. */
  datatype Progress = Progress(complete: string, deltas: seq<string>)

  function Step(p: Progress, snapshot: Option<string>): Progress {
    match Advance(p.complete, snapshot)
    case None => p
    case Some(delta) => Progress(snapshot.value, p.deltas + [delta])
  }

  /** The progress after a run of snapshots, one per chunk. */
  function Replay(snapshots: seq<Option<string>>): Progress {
    if |snapshots| == 0 then Progress("", [])
    else Step(Replay(snapshots[..|snapshots| - 1]), snapshots[|snapshots| - 1])
  }

  /** The snapshot each chunk yields, in order: the buffer is never cut, so each sees every earlier chunk. */
  function Snapshots(chunks: seq<string>, parse: string -> Option<Json>): (r: seq<Option<string>>)
    ensures |r| == |chunks|
  {
    if |chunks| == 0 then []
    else Snapshots(chunks[..|chunks| - 1], parse) + [SnapshotText(Concat(chunks), parse)]
  }

  /**
   * A delta goes out exactly when the snapshot is longer than the text already sent, and it is
   * the snapshot past that length: the `extractedText &&` and `!== completeText` tests never
   * decide anything beyond `if (delta)`.
   */
  lemma AdvanceExactlyWhenLonger(complete: string, e: string)
    ensures Advance(complete, Some(e)).Some? <==> |e| > |complete|
    ensures Advance(complete, Some(e)).Some? ==> Advance(complete, Some(e)).value == e[|complete|..]
  {
  }

  /** The text sent always has the length of `completeText`, which is the longest snapshot so far. */
  lemma {:induction false} ReplayLength(snapshots: seq<Option<string>>)
    ensures |Concat(Replay(snapshots).deltas)| == |Replay(snapshots).complete|
    ensures forall i :: 0 <= i < |snapshots| && snapshots[i].Some? ==>
      |snapshots[i].value| <= |Replay(snapshots).complete|
  {
    if |snapshots| > 0 {
      var init := snapshots[..|snapshots| - 1];
      var last := snapshots[|snapshots| - 1];
      var p := Replay(init);
      var q := Replay(snapshots);
      ReplayLength(init);
      assert q == Step(p, last);
      if last.Some? {
        AdvanceExactlyWhenLonger(p.complete, last.value);
      }
      match Advance(p.complete, last) {
        case None =>
          assert q == p;
        case Some(d) =>
          assert q == Progress(last.value, p.deltas + [d]);
          ConcatAppend(p.deltas, [d]);
          assert [d][..0] == [];
      }
      assert |p.complete| <= |q.complete|;
      forall i | 0 <= i < |snapshots| && snapshots[i].Some?
        ensures |snapshots[i].value| <= |q.complete|
      {
        if i < |init| {
          assert snapshots[i] == init[i];
        }
      }
    }
  }

  /** `completeText` is empty or one of the snapshots. */
  lemma {:induction false} CompleteIsASnapshot(snapshots: seq<Option<string>>)
    ensures Replay(snapshots).complete == ""
         || exists i :: 0 <= i < |snapshots| && snapshots[i] == Some(Replay(snapshots).complete)
  {
    if |snapshots| > 0 {
      var init := snapshots[..|snapshots| - 1];
      CompleteIsASnapshot(init);
      if Replay(snapshots).complete != Replay(init).complete {
        assert snapshots[|snapshots| - 1] == Some(Replay(snapshots).complete);
      } else if Replay(init).complete != "" {
        var i :| 0 <= i < |init| && init[i] == Some(Replay(init).complete);
        assert snapshots[i] == init[i];
      }
    }
  }

  /** Every snapshot the upstream yields extends every earlier one. */
  predicate Growing(snapshots: seq<Option<string>>) {
    forall i, j :: 0 <= i < j < |snapshots| && snapshots[i].Some? && snapshots[j].Some? ==>
      IsPrefix(snapshots[i].value, snapshots[j].value)
  }

  predicate IsPrefix(a: string, b: string) {
    |a| <= |b| && b[..|a|] == a
  }

  /**
   * When the snapshots only grow, the deltas concatenate to `completeText`, and
   * `completeText` is the latest snapshot: the client sees the upstream text exactly.
   */
  lemma {:induction false} GrowingSnapshotsReassemble(snapshots: seq<Option<string>>)
    requires Growing(snapshots)
    ensures Concat(Replay(snapshots).deltas) == Replay(snapshots).complete
    ensures |snapshots| > 0 && snapshots[|snapshots| - 1].Some? ==>
      Replay(snapshots).complete == snapshots[|snapshots| - 1].value
  {
    if |snapshots| > 0 {
      var init := snapshots[..|snapshots| - 1];
      var p := Replay(init);
      var last := snapshots[|snapshots| - 1];
      assert Growing(init);
      GrowingSnapshotsReassemble(init);
      if last.Some? {
        var e := last.value;
        CompleteIsASnapshot(init);
        assert IsPrefix(p.complete, e) by {
          if p.complete != "" {
            var i :| 0 <= i < |init| && init[i] == Some(p.complete);
            assert snapshots[i] == init[i];
          }
        }
        AdvanceExactlyWhenLonger(p.complete, e);
        if |e| > |p.complete| {
          ConcatAppend(p.deltas, [e[|p.complete|..]]);
          assert p.complete + e[|p.complete|..] == e;
        }
      }
    }
  }

  /**
   * A snapshot that rewrites earlier text but is longer still sends only its new tail, so the
   * text sent is no longer `completeText`: here `"ab"` then `"xyz"` sends `"ab"` and `"z"`.
   */
  lemma DivergentSnapshotSendsOnlyItsTail()
    ensures Replay([Some("ab"), Some("xyz")]) == Progress("xyz", ["ab", "z"])
    ensures Concat(Replay([Some("ab"), Some("xyz")]).deltas) != Replay([Some("ab"), Some("xyz")]).complete
  {
    assert [Some("ab"), Some("xyz")][..1] == [Some("ab")];
    assert [Some("ab")][..0] == [];
    assert Replay([Some("ab")]) == Progress("ab", ["ab"]);
    assert "xyz"[2..] == "z";
    assert ["ab", "z"][..1] == ["ab"];
    assert Concat(["ab", "z"]) == "abz";
  }

  /** Three growing snapshots send the three new tails. */
  lemma ThreeSnapshotsSendTheirTails()
    ensures Replay([Some("a"), Some("a cat walking"), Some("a cat walking, golden hour lighting")]).deltas
         == ["a", " cat walking", ", golden hour lighting"]
  {
    var s1, s2, s3 := "a", "a cat walking", "a cat walking, golden hour lighting";
    var snaps := [Some(s1), Some(s2), Some(s3)];
    assert snaps[..2] == [Some(s1), Some(s2)];
    assert snaps[..2][..1] == [Some(s1)];
    assert [Some(s1)][..0] == [];
    assert Replay([Some(s1)]) == Progress(s1, [s1]);
    assert s2[|s1|..] == " cat walking";
    assert Replay(snaps[..2]) == Progress(s2, [s1, " cat walking"]);
    assert s3[|s2|..] == ", golden hour lighting";
  }

  /** The `for (const item of responseArray)` loop, stopped by the `TypeError` a `null` item raises. */
  method ItemsLoop(items: seq<Json>) returns (r: Option<string>)
    ensures r == ItemsText(items)
  {
    var extracted := "";
    var i := 0;
    while i < |items|
      invariant 0 <= i <= |items|
      invariant ItemsText(items[..i]) == Some(extracted)
    {
      assert items[..i + 1][..i] == items[..i];
      match FirstPartValue(items[i]) {
        case Fails =>
          assert items[..i + 1][i] == JNull;
          ItemsTextFailsOnNull(items[..i + 1]);
          ItemsPrefixFails(items, i + 1);
          return None;
        case Absent =>
        case Reached(text) =>
          extracted := extracted + ToJsString(text);
      }
      i := i + 1;
    }
    assert items[..i] == items;
    return Some(extracted);
  }

  /** Once an item is `null`, more items do not help: the iteration has already thrown. */
  lemma {:induction false} ItemsPrefixFails(items: seq<Json>, k: nat)
    requires k <= |items| && ItemsText(items[..k]).None?
    ensures ItemsText(items).None?
    decreases |items| - k
  {
    if k < |items| {
      assert items[..k + 1][..k] == items[..k];
      ItemsPrefixFails(items, k + 1);
    } else {
      assert items[..k] == items;
    }
  }

  /** Lines 140-158 of the image-edit route: the snapshot of the whole buffer after one chunk. */
  method ExtractSnapshot(buffer: string, parse: string -> Option<Json>) returns (r: Option<string>)
    ensures r == SnapshotText(buffer, parse)
  {
    var span := BracketSpan(buffer);
    if span.None? {
      return None;
    }
    var parsed := parse(span.value);
    if parsed.None? {
      return None;
    }
    match parsed.value
    case JArr(items) =>
      r := ItemsLoop(items);
    case JStr(_) =>
      r := Some("");
    case _ =>
      r := None;
  }

  /** Feeding one more chunk replays one more snapshot, taken from the whole grown buffer. */
  lemma ReplayNext(chunks: seq<string>, chunk: string, parse: string -> Option<Json>)
    ensures Concat(chunks + [chunk]) == Concat(chunks) + chunk
    ensures Snapshots(chunks + [chunk], parse) == Snapshots(chunks, parse) + [SnapshotText(Concat(chunks) + chunk, parse)]
    ensures Replay(Snapshots(chunks + [chunk], parse))
         == Step(Replay(Snapshots(chunks, parse)), SnapshotText(Concat(chunks) + chunk, parse))
  {
    var all := chunks + [chunk];
    assert all[..|all| - 1] == chunks;
    var snaps := Snapshots(chunks, parse) + [SnapshotText(Concat(chunks) + chunk, parse)];
    assert snaps[..|snaps| - 1] == Snapshots(chunks, parse);
  }

  /** The server-side state of one snapshot-diffing stream. */
  class SnapshotRelay {
    const parse: string -> Option<Json>
    var buffer: string
    var completeText: string
    var events: seq<Event>
    var closed: bool
    ghost var chunks: seq<string>
    ghost var progress: Progress   // `completeText` and the deltas sent, as replayed from the chunks

    ghost predicate Valid()
      reads this
    {
      && buffer == Concat(chunks)
      && progress == Replay(Snapshots(chunks, parse))
      && completeText == progress.complete
      && (!closed ==> events == AsDeltas(progress.deltas))
      && (closed ==> |events| > 0 && events[..|events| - 1] == AsDeltas(progress.deltas)
                     && IsTerminal(events[|events| - 1]))
    }

    constructor (parse: string -> Option<Json>)
      ensures Valid() && !closed && this.parse == parse
      ensures buffer == "" && completeText == "" && events == [] && chunks == []
    {
      this.parse := parse;
      buffer := "";
      completeText := "";
      events := [];
      closed := false;
      chunks := [];
      progress := Progress("", []);
    }

    /** One iteration of the read loop: lines 129-177 of the image-edit route. */
    method Feed(chunk: string)
      requires Valid() && !closed
      modifies this
      ensures Valid() && !closed
      ensures chunks == old(chunks) + [chunk] && buffer == old(buffer) + chunk
      ensures var delta := Advance(old(completeText), SnapshotText(buffer, parse));
        && events == old(events) + (if delta.Some? then [Delta(delta.value)] else [])
        && completeText == (if delta.Some? then SnapshotText(buffer, parse).value else old(completeText))
    {
      ReplayNext(chunks, chunk, parse);
      buffer := buffer + chunk;
      chunks := chunks + [chunk];
      var extracted := ExtractSnapshot(buffer, parse);
      Emit(extracted);
    }

    /** Lines 159-171 of the image-edit route: send the snapshot past `completeText`, if anything. */
    method Emit(extracted: Option<string>)
      requires !closed && completeText == progress.complete && events == AsDeltas(progress.deltas)
      modifies this`completeText, this`events, this`progress
      ensures progress == Step(old(progress), extracted)
      ensures completeText == progress.complete && events == AsDeltas(progress.deltas)
      ensures var delta := Advance(old(completeText), extracted);
        && events == old(events) + (if delta.Some? then [Delta(delta.value)] else [])
        && completeText == (if delta.Some? then extracted.value else old(completeText))
    {
      ghost var d := Advance(completeText, extracted);
      if extracted.Some? && extracted.value != "" && extracted.value != completeText {
        var delta := Slice(extracted.value, |completeText|);
        if delta != "" {
          events := events + [Delta(delta)];
          completeText := extracted.value;
        }
      }
      if d.Some? {
        AsDeltasAppend(progress.deltas, d.value);
      }
      progress := Step(progress, extracted);
    }

    /** The end of the read loop: lines 179-193 of the image-edit route. */
    method Finish(failure: Option<string>)
      requires Valid() && !closed
      modifies this
      ensures Valid() && closed
      ensures events == old(events) + [Terminal(failure)]
      ensures buffer == old(buffer) && chunks == old(chunks) && completeText == old(completeText)
    {
      events := events + [Terminal(failure)];
      closed := true;
    }
  }

  /**
   * The whole `start(controller)` body: `chunks` are the decoded reads before the reader
   * reported done, or before it failed with `failure`.
   */
  method RelaySnapshots(parse: string -> Option<Json>, chunks: seq<string>, failure: Option<string>)
    returns (events: seq<Event>)
    ensures events == SnapshotEvents(chunks, parse, failure)
  {
    var relay := new SnapshotRelay(parse);
    var k := 0;
    while k < |chunks|
      invariant 0 <= k <= |chunks|
      invariant relay.Valid() && !relay.closed && relay.parse == parse
      invariant relay.chunks == chunks[..k]
    {
      relay.Feed(chunks[k]);
      assert chunks[..k + 1] == chunks[..k] + [chunks[k]];
      k := k + 1;
    }
    assert chunks[..k] == chunks;
    relay.Finish(failure);
    events := relay.events;
  }

  /** The events of a whole snapshot stream: one delta per advancing snapshot, then the terminal event. */
  function SnapshotEvents(chunks: seq<string>, parse: string -> Option<Json>, failure: Option<string>): seq<Event> {
    AsDeltas(Replay(Snapshots(chunks, parse)).deltas) + [Terminal(failure)]
  }

  /**
   * A snapshot stream ends with exactly one terminal event, and what its deltas spell has the
   * length of the final `completeText`.
   */
  lemma SnapshotStreamEndsOnce(chunks: seq<string>, parse: string -> Option<Json>, failure: Option<string>)
    ensures EndsOnce(SnapshotEvents(chunks, parse, failure))
    ensures |DeltaText(SnapshotEvents(chunks, parse, failure))| == |Replay(Snapshots(chunks, parse)).complete|
  {
    var p := Replay(Snapshots(chunks, parse));
    DeltasThenTerminal(p.deltas, failure);
    ReplayLength(Snapshots(chunks, parse));
  }
}
