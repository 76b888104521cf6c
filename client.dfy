/**
 * The browser side (app/page.jsx): when the form may be submitted, which request each tab
 * sends, the reasoning log, and `streamSSE`, which splits the response body into `\n\n`
 * separated events, gathers their `data:` lines, accumulates the delta texts and takes the
 * trimmed text as the result when the completion event arrives.
 */
module Client {
  import opened Wrappers
  import opened Strings
  import opened Json
  import opened Events
  import Routes
  import GenerateStream
  import FrameTransitionStream
  import SnapshotStream

  // ---------------------------------------------------------------- submitting

  datatype Tab = TextToImage | ImageToImage | TextToVideo | ImageToVideo | FramesToVideo

  /** A file picked in the page. */
  datatype Upload = Upload(bytes: nat, mime: string)

  /** The page state a submission reads. */
  datatype Page = Page(tab: Tab, prompt: string, language: string,
                       file: Option<Upload>, firstFrame: Option<Upload>, lastFrame: Option<Upload>)

  /** The file inputs the tab needs are filled. */
  predicate FilesPresent(p: Page) {
    && ((p.tab == ImageToImage || p.tab == ImageToVideo) ==> p.file.Some?)
    && (p.tab == FramesToVideo ==> p.firstFrame.Some? && p.lastFrame.Some?)
  }

  /** `canSubmit` (lines 35-40): a prompt that is not blank, and the files the tab needs. */
  predicate CanSubmit(p: Page) {
    Trim(p.prompt) != "" && FilesPresent(p)
  }

  /** A POST as `handleOptimizeAndRun` builds it. */
  datatype Request = JsonPost(path: string, body: Json) | FormPost(path: string, form: Routes.Form)

  function AsFile(u: Upload): Routes.FormValue {
    Routes.File(u.bytes, u.mime)
  }

  /** `prompt` and `language`, then each picked file under its field name. */
  function FormOf(p: Page, files: seq<(string, Option<Upload>)>): Routes.Form
    decreases |files|
  {
    if |files| == 0 then map["prompt" := Routes.Text(p.prompt), "language" := Routes.Text(p.language)]
    else
      var (name, u) := files[|files| - 1];
      var form := FormOf(p, files[..|files| - 1]);
      if u.Some? then form[name := AsFile(u.value)] else form
  }

  /** Lines 321-351: the route and the body each tab sends. */
  function BuildRequest(p: Page): Request {
    match p.tab
    case TextToImage =>
      JsonPost("/api/optimize-and-generate/stream", JObj([Field("prompt", JStr(p.prompt)), Field("language", JStr(p.language))]))
    case TextToVideo =>
      JsonPost("/api/optimize-and-generate-video/stream", JObj([Field("prompt", JStr(p.prompt)), Field("language", JStr(p.language))]))
    case ImageToImage => FormPost("/api/optimize-and-edit/stream", FormOf(p, [("image", p.file)]))
    case ImageToVideo => FormPost("/api/optimize-and-edit-video/stream", FormOf(p, [("image", p.file)]))
    case FramesToVideo =>
      FormPost("/api/optimize-frame-transition/stream", FormOf(p, [("firstFrame", p.firstFrame), ("lastFrame", p.lastFrame)]))
  }

  /** The route handler each path reaches; `null` is what a body that is not JSON decodes to. */
  function Serve(r: Request, hasKey: bool, upstream: Routes.Upstream): Routes.Reply {
    match r
    case JsonPost(path, body) =>
      if path == "/api/optimize-and-generate/stream" then Routes.JsonStreamRoute(Some(body), hasKey, upstream, false)
      else Routes.JsonStreamRoute(Some(body), hasKey, upstream, true)
    case FormPost(path, form) =>
      if path == "/api/optimize-and-edit/stream" then Routes.FormStreamRoute(form, hasKey, upstream, false)
      else if path == "/api/optimize-and-edit-video/stream" then Routes.FormStreamRoute(form, hasKey, upstream, true)
      else Routes.FrameRoute(form, hasKey, upstream)
  }

  /**
   * With the key set and Gemini answering, the route relays a submitted page's prompt exactly
   * when the prompt is non-empty and the tab's files are there (and, for image-to-video, the
   * image is at most 4 MiB): the only page the server relays but `canSubmit` holds back is one
   * whose prompt is whitespace.
   */
  lemma ServerAgreesWithCanSubmit(p: Page, upstream: Routes.Upstream)
    requires upstream.Answered? && upstream.ok
    requires p.tab == ImageToVideo && p.file.Some? ==> p.file.value.bytes <= Routes.MaxImageBytes
    ensures Serve(BuildRequest(p), true, upstream).Relayed? <==> p.prompt != "" && FilesPresent(p)
    ensures Serve(BuildRequest(p), true, upstream).Relayed? ==> Serve(BuildRequest(p), true, upstream).call.prompt == p.prompt
    ensures CanSubmit(p) ==> Serve(BuildRequest(p), true, upstream).Relayed?
  {
    if p.tab == TextToImage || p.tab == TextToVideo {
      TextTabAgrees(p, upstream);
    } else if p.tab == FramesToVideo {
      FramesTabAgrees(p, upstream);
    } else {
      ImageTabAgrees(p, upstream);
    }
    if CanSubmit(p) {
      assert p.prompt != "";
    }
  }

  lemma TextTabAgrees(p: Page, upstream: Routes.Upstream)
    requires upstream.Answered? && upstream.ok
    requires p.tab == TextToImage || p.tab == TextToVideo
    ensures var r := Serve(BuildRequest(p), true, upstream);
      (r.Relayed? <==> p.prompt != "") && (r.Relayed? ==> r.call.prompt == p.prompt)
  {
    JsonBody(p);
  }

  lemma ImageTabAgrees(p: Page, upstream: Routes.Upstream)
    requires upstream.Answered? && upstream.ok
    requires p.tab == ImageToImage || p.tab == ImageToVideo
    requires p.tab == ImageToVideo && p.file.Some? ==> p.file.value.bytes <= Routes.MaxImageBytes
    ensures var r := Serve(BuildRequest(p), true, upstream);
      (r.Relayed? <==> p.prompt != "" && p.file.Some?) && (r.Relayed? ==> r.call.prompt == p.prompt)
  {
    ImageForm(p);
  }

  lemma FramesTabAgrees(p: Page, upstream: Routes.Upstream)
    requires upstream.Answered? && upstream.ok
    requires p.tab == FramesToVideo
    ensures var r := Serve(BuildRequest(p), true, upstream);
      && (r.Relayed? <==> p.prompt != "" && p.firstFrame.Some? && p.lastFrame.Some?)
      && (r.Relayed? ==> r.call.prompt == p.prompt)
  {
    FramesForm(p);
  }

  /** The JSON body carries the prompt as a string. */
  lemma JsonBody(p: Page)
    ensures var body := JObj([Field("prompt", JStr(p.prompt)), Field("language", JStr(p.language))]);
      Get(body, "prompt") == Some(JStr(p.prompt))
  {
    var fields := [Field("prompt", JStr(p.prompt)), Field("language", JStr(p.language))];
    assert fields[..1] == [Field("prompt", JStr(p.prompt))];
    assert Lookup(fields, "prompt") == Lookup(fields[..1], "prompt");
  }

  /** The form of an image tab: the prompt as text and the image as a file when one was picked. */
  lemma ImageForm(p: Page)
    ensures Routes.FormGet(FormOf(p, [("image", p.file)]), "prompt") == Some(Routes.Text(p.prompt))
    ensures Routes.FormGet(FormOf(p, [("image", p.file)]), "image")
         == (if p.file.Some? then Some(AsFile(p.file.value)) else None)
  {
    assert [("image", p.file)][..0] == [];
  }

  /** The form of the frame tab: the prompt as text and each frame as a file when one was picked. */
  lemma FramesForm(p: Page)
    ensures var form := FormOf(p, [("firstFrame", p.firstFrame), ("lastFrame", p.lastFrame)]);
      && Routes.FormGet(form, "prompt") == Some(Routes.Text(p.prompt))
      && Routes.FormGet(form, "firstFrame") == (if p.firstFrame.Some? then Some(AsFile(p.firstFrame.value)) else None)
      && Routes.FormGet(form, "lastFrame") == (if p.lastFrame.Some? then Some(AsFile(p.lastFrame.value)) else None)
  {
    var files := [("firstFrame", p.firstFrame), ("lastFrame", p.lastFrame)];
    assert files[..1] == [("firstFrame", p.firstFrame)];
    assert files[..1][..0] == [];
    var base := map["prompt" := Routes.Text(p.prompt), "language" := Routes.Text(p.language)];
    var first := if p.firstFrame.Some? then base["firstFrame" := AsFile(p.firstFrame.value)] else base;
    assert FormOf(p, files[..1]) == first;
    var form := if p.lastFrame.Some? then first["lastFrame" := AsFile(p.lastFrame.value)] else first;
    assert FormOf(p, files) == form;
  }

  // ---------------------------------------------------------------- the reasoning log

  /** Leading `'\n'`s dropped. */
  function DropNewlines(s: string): (r: string)
    ensures |r| <= |s| && (r == [] || r[0] != '\n')
  {
    if |s| > 0 && s[0] == '\n' then DropNewlines(s[1..]) else s
  }

  /** `s.split(/\n+/)`: the pieces between maximal runs of `'\n'`. */
  function SplitRuns(s: string): (r: seq<string>)
    ensures |r| >= 1
    decreases |s|
  {
    if s == [] then [""]
    else if s[0] == '\n' then [""] + SplitRuns(DropNewlines(s))
    else
      var rest := SplitRuns(s[1..]);
      [[s[0]] + rest[0]] + rest[1..]
  }

  /** `.map((s) => s.trim()).filter(Boolean)`: the trimmed pieces that are not empty. */
  function Kept(pieces: seq<string>): (r: seq<string>)
    ensures forall i :: 0 <= i < |r| ==> r[i] != "" && Clean(r[i])
  {
    if |pieces| == 0 then []
    else
      TrimSpec(pieces[0]);
      (if Trim(pieces[0]) != "" then [Trim(pieces[0])] else []) + Kept(pieces[1..])
  }

  const MaxLogLines := 200

  /** `next.slice(-200)`. */
  function LastLines(lines: seq<string>): (r: seq<string>)
    ensures |r| == (if |lines| <= MaxLogLines then |lines| else MaxLogLines)
    ensures lines == lines[..|lines| - |r|] + r
  {
    if |lines| <= MaxLogLines then lines else lines[|lines| - MaxLogLines..]
  }

  /** `appendReasoning(text)` (lines 82-90) as the state update it schedules. */
  function AppendReasoning(prev: seq<string>, text: string): seq<string> {
    if text == "" then prev
    else
      var pieces := Kept(SplitRuns(text));
      if |pieces| == 0 then prev else LastLines(prev + pieces)
  }

  lemma {:induction false} KeptSkipsNewlines(s: string)
    ensures Kept(Split(s, '\n')) == Kept(Split(DropNewlines(s), '\n'))
    decreases |s|
  {
    if |s| > 0 && s[0] == '\n' {
      KeptSkipsNewlines(s[1..]);
      assert Split(s, '\n') == [""] + Split(s[1..], '\n');
      assert (([""] + Split(s[1..], '\n'))[1..]) == Split(s[1..], '\n');
    }
  }

  /** Splitting on runs and on single newlines agree on the first piece and keep the same later lines. */
  lemma {:induction false} RunsAndSingles(s: string)
    ensures SplitRuns(s)[0] == Split(s, '\n')[0]
    ensures Kept(SplitRuns(s)[1..]) == Kept(Split(s, '\n')[1..])
    decreases |s|
  {
    if s == [] {
    } else if s[0] == '\n' {
      var d := DropNewlines(s);
      RunsAndSingles(d);
      KeptSkipsNewlines(s[1..]);
      assert DropNewlines(s[1..]) == d;
      KeptHead(SplitRuns(d));
      KeptHead(Split(d, '\n'));
      assert SplitRuns(s)[1..] == SplitRuns(d);
      assert Split(s, '\n')[1..] == Split(s[1..], '\n');
    } else {
      RunsAndSingles(s[1..]);
      var rest, q := SplitRuns(s[1..]), Split(s[1..], '\n');
      assert SplitRuns(s)[1..] == rest[1..];
      assert Split(s, '\n') == [[s[0]] + q[0]] + q[1..];
      assert Split(s, '\n')[1..] == q[1..];
    }
  }

  lemma KeptHead(pieces: seq<string>)
    requires |pieces| >= 1
    ensures Kept(pieces) == (if Trim(pieces[0]) != "" then [Trim(pieces[0])] else []) + Kept(pieces[1..])
  {
  }

  /**
   * The log gains the non-blank lines of `text`, trimmed, in order (splitting on single
   * newlines finds the same lines), and keeps only the last 200; a text without any leaves it
   * as it was.
   */
  lemma ReasoningKeepsNonBlankLines(prev: seq<string>, text: string)
    ensures var lines := Kept(Split(text, '\n'));
      AppendReasoning(prev, text) == (if lines == [] then prev else LastLines(prev + lines))
  {
    if text == "" {
      assert Split(text, '\n') == [""];
      assert Trim("") == "";
      assert Kept([""]) == [];
    } else {
      RunsKeepTheSameLines(text);
    }
  }

  /** Splitting on runs of newlines or on each newline keeps the same non-blank lines. */
  lemma RunsKeepTheSameLines(s: string)
    ensures Kept(SplitRuns(s)) == Kept(Split(s, '\n'))
  {
    RunsAndSingles(s);
    var runs, singles := SplitRuns(s), Split(s, '\n');
    KeptHead(runs);
    KeptHead(singles);
  }

  /** A log of at most 200 non-empty trimmed lines stays one. */
  lemma ReasoningLogStaysBounded(prev: seq<string>, text: string)
    requires |prev| <= MaxLogLines
    requires forall i :: 0 <= i < |prev| ==> prev[i] != "" && Clean(prev[i])
    ensures var next := AppendReasoning(prev, text);
      |next| <= MaxLogLines && forall i :: 0 <= i < |next| ==> next[i] != "" && Clean(next[i])
  {
    var pieces := Kept(SplitRuns(text));
    if text != "" && |pieces| > 0 {
      var all := prev + pieces;
      var next := LastLines(all);
      var dropped := |all| - |next|;
      forall i | 0 <= i < |next| ensures next[i] != "" && Clean(next[i]) {
        assert next[i] == all[dropped + i];
        if dropped + i >= |prev| {
          assert all[dropped + i] == pieces[dropped + i - |prev|];
        }
      }
    }
  }

  // ---------------------------------------------------------------- event framing

  const Separator := "\n\n"

  /** A `\n\n` starts at `i`. */
  predicate PairAt(s: string, i: int) {
    0 <= i && i + 1 < |s| && s[i] == '\n' && s[i + 1] == '\n'
  }

  /** `buffer.indexOf('\n\n', k)`. */
  function PairFrom(s: string, k: nat): (r: Option<nat>)
    ensures r.Some? ==> k <= r.value && PairAt(s, r.value)
    decreases |s| - k
  {
    if k + 1 >= |s| then None
    else if PairAt(s, k) then Some(k)
    else PairFrom(s, k + 1)
  }

  /** `indexOf` finds the first `\n\n` at or after `k`, and answers `-1` only when there is none. */
  lemma {:induction false} PairFromSpec(s: string, k: nat)
    ensures var r := PairFrom(s, k);
      && (r.Some? ==> forall j :: k <= j < r.value ==> !PairAt(s, j))
      && (r.None? ==> forall j :: k <= j ==> !PairAt(s, j))
    decreases |s| - k
  {
    if k + 1 < |s| && !PairAt(s, k) {
      PairFromSpec(s, k + 1);
    }
  }

  /** `buffer.indexOf('\n\n')`. */
  function IndexOfPair(s: string): Option<nat> {
    PairFrom(s, 0)
  }

  /** What the `indexOf` loop splits a buffer into: whole events, and what is left over. */
  datatype Framing = Framing(events: seq<string>, rest: string)

  /** Each event followed by its `\n\n`: the text a list of events came from. */
  function Separated(events: seq<string>): string {
    if |events| == 0 then "" else events[0] + Separator + Separated(events[1..])
  }

  /**
   * The inner `while` loop of `streamSSE` (lines 278-293), as the split it computes: every
   * event up to the first `\n\n` is cut off, until no `\n\n` is left.
   */
  function SplitEvents(s: string): Framing
    decreases |s|
  {
    match IndexOfPair(s)
    case None => Framing([], s)
    case Some(i) =>
      var tail := SplitEvents(s[i + 2..]);
      Framing([s[..i]] + tail.events, tail.rest)
  }

  /** No `\n\n` is left over, and the events, each with its separator, then the rest, are the text. */
  lemma SplitEventsSpec(s: string)
    ensures IndexOfPair(SplitEvents(s).rest).None?
    ensures Separated(SplitEvents(s).events) + SplitEvents(s).rest == s
    ensures forall k :: 0 <= k < |SplitEvents(s).events| ==> CutAtFirstPair(SplitEvents(s).events[k])
  {
    RestHasNoPair(s);
    SplitEventsRebuild(s);
    EventsEndAtFirstPair(s);
  }

  /** An event followed by its separator has its first `\n\n` there: it holds none and does not end in `\n`. */
  predicate CutAtFirstPair(event: string) {
    IndexOfPair(event + Separator) == Some(|event|)
  }

  lemma {:induction false} EventsEndAtFirstPair(s: string)
    ensures forall k :: 0 <= k < |SplitEvents(s).events| ==> CutAtFirstPair(SplitEvents(s).events[k])
    decreases |s|
  {
    match IndexOfPair(s)
    case None =>
      assert SplitEvents(s).events == [];
    case Some(i) =>
      EventsEndAtFirstPair(s[i + 2..]);
      FirstPairCut(s, i);
      var tail := SplitEvents(s[i + 2..]).events;
      var events := SplitEvents(s).events;
      assert events == [s[..i]] + tail;
      forall k | 0 <= k < |events|
        ensures CutAtFirstPair(events[k])
      {
        if k == 0 {
          assert events[0] == s[..i] && |s[..i]| == i;
        } else {
          assert events[k] == tail[k - 1];
        }
      }
  }

  /** Cutting `"a\n\nb\n\n"` once, as `"a\n\nb"`, is not what the loop does: that event holds a pair. */
  lemma WholeTextIsNotOneEvent()
    ensures !CutAtFirstPair("a\n\nb")
  {
    var t := "a\n\nb" + Separator;
    assert !PairAt(t, 0) && PairAt(t, 1);
    assert PairFrom(t, 0) == PairFrom(t, 1) == Some(1);
  }

  /** The text before the first pair, followed by a separator, has its first pair right after the text. */
  lemma FirstPairCut(s: string, i: nat)
    requires IndexOfPair(s) == Some(i)
    ensures IndexOfPair(s[..i] + Separator) == Some(i)
  {
    var t := s[..i] + Separator;
    assert PairFrom(s, 0) == Some(i);
    PairFromSpec(s, 0);
    PairFromSpec(t, 0);
    assert PairAt(t, i);
    forall j | 0 <= j < i
      ensures !PairAt(t, j)
    {
      assert !PairAt(s, j);
      assert t[j] == s[j] && t[j + 1] == s[j + 1];
    }
  }

  lemma {:induction false} RestHasNoPair(s: string)
    ensures IndexOfPair(SplitEvents(s).rest).None?
    decreases |s|
  {
    match IndexOfPair(s)
    case None =>
    case Some(i) =>
      RestHasNoPair(s[i + 2..]);
  }

  lemma {:induction false} SplitEventsRebuild(s: string)
    ensures Separated(SplitEvents(s).events) + SplitEvents(s).rest == s
    decreases |s|
  {
    if IndexOfPair(s).Some? {
      var i := IndexOfPair(s).value;
      SplitEventsRebuild(s[i + 2..]);
      RebuildStep(s, i, SplitEvents(s[i + 2..]));
    }
  }

  /** One event and its separator in front of a split that rebuilds the rest. */
  lemma RebuildStep(s: string, i: nat, tail: Framing)
    requires IndexOfPair(s) == Some(i)
    requires tail == SplitEvents(s[i + 2..])
    requires Separated(tail.events) + tail.rest == s[i + 2..]
    ensures Separated(SplitEvents(s).events) + SplitEvents(s).rest == s
  {
    assert SplitEvents(s) == Framing([s[..i]] + tail.events, tail.rest);
    SeparatedCons(s[..i], tail.events);
    CutAtPair(s, i);
    Assoc3(s[..i] + Separator, Separated(tail.events), tail.rest);
  }

  lemma SeparatedCons(event: string, events: seq<string>)
    ensures Separated([event] + events) == event + Separator + Separated(events)
  {
    assert ([event] + events)[1..] == events;
  }

  lemma CutAtPair(s: string, i: nat)
    requires PairAt(s, i)
    ensures s == s[..i] + Separator + s[i + 2..]
  {
  }

  /** One turn of the loop: the event before the first `\n\n` is cut off and the rest split again. */
  lemma SplitEventsStep(s: string)
    requires IndexOfPair(s).Some?
    ensures var i := IndexOfPair(s).value; var tail := SplitEvents(s[i + 2..]);
      SplitEvents(s) == Framing([s[..i]] + tail.events, tail.rest)
  {
  }

  /** The first `\n\n` of a text is still the first once more text arrives. */
  lemma FirstPairStaysFirst(s: string, c: string)
    requires IndexOfPair(s).Some?
    ensures IndexOfPair(s + c) == IndexOfPair(s)
  {
    var i := IndexOfPair(s).value;
    assert PairAt(s + c, i);
    PairFromSpec(s, 0);
    PairFromSpec(s + c, 0);
    var r := IndexOfPair(s + c);
    assert r.Some?;
    assert r.value <= i;
    if r.value < i {
      assert !PairAt(s, r.value);
      assert PairAt(s, r.value);
    }
  }

  /** The events cut from a text do not depend on how the text was divided into reads. */
  lemma {:induction false} SplitEventsAppend(s: string, c: string)
    ensures var first := SplitEvents(s); var next := SplitEvents(first.rest + c);
      SplitEvents(s + c) == Framing(first.events + next.events, next.rest)
    decreases |s|
  {
    match IndexOfPair(s)
    case None =>
      assert SplitEvents(s) == Framing([], s);
      assert [] + SplitEvents(s + c).events == SplitEvents(s + c).events;
    case Some(i) =>
      FirstPairStaysFirst(s, c);
      assert (s + c)[..i] == s[..i];
      assert (s + c)[i + 2..] == s[i + 2..] + c;
      SplitEventsAppend(s[i + 2..], c);
      var first := SplitEvents(s[i + 2..]);
      var next := SplitEvents(first.rest + c);
      assert [s[..i]] + (first.events + next.events) == ([s[..i]] + first.events) + next.events;
  }

  // ---------------------------------------------------------------- handling one event

  const DataField := "data:"
  const ConnectFailed := "流式连接失败"
  const ModelStreamError := "模型流式错误"
  const DeltaType := "response.output_text.delta"
  const CompletedType := "response.completed"
  const ErrorType := "response.error"

  /** `dataLines`: each line that starts with `data:`, without it, trimmed; built as the loop pushes. */
  function DataLines(lines: seq<string>): seq<string> {
    if |lines| == 0 then []
    else
      var line := lines[|lines| - 1];
      DataLines(lines[..|lines| - 1]) + (if StartsWith(line, DataField) then [Trim(line[|DataField|..])] else [])
  }

  /** `dataLines.join('\n')` when there are any (lines 282-292). */
  function DataPayload(raw: string): Option<string> {
    var d := DataLines(Split(raw, '\n'));
    if |d| > 0 then Some(Join(d, "\n")) else None
  }

  /** The accumulated `finalText` and `optimizedRef.current`. */
  datatype View = View(finalText: string, optimized: string)

  /**
   * `handleEvent` (lines 250-271) as written: a delta with a string `delta` is appended, the
   * completion event sets the result to the trimmed text, and anything else — an unparsable
   * payload, `null`, and the error event, whose `throw` is caught by the function's own
   * `catch` — changes nothing.
   */
  function HandleEvent(v: View, payload: string, parse: string -> Option<Json>): (r: View)
    ensures |v.finalText| <= |r.finalText| && r.finalText[..|v.finalText|] == v.finalText
    ensures r.optimized == v.optimized || (r.finalText == v.finalText && r.optimized == Trim(v.finalText))
  {
    match parse(payload)
    case None => v
    case Some(data) =>
      if data == JNull then v
      else
        var t := Get(data, "type");
        if t == Some(JStr(DeltaType)) then
          match Get(data, "delta")
          case Some(JStr(d)) => View(v.finalText + d, v.optimized)
          case _ => v
        else if t == Some(JStr(CompletedType)) then View(v.finalText, Trim(v.finalText))
        else v
  }

  /** Every event of a received text handled in order. */
  function Deliver(v: View, raws: seq<string>, parse: string -> Option<Json>): View {
    if |raws| == 0 then v
    else
      var w := Deliver(v, raws[..|raws| - 1], parse);
      match DataPayload(raws[|raws| - 1])
      case None => w
      case Some(p) => HandleEvent(w, p, parse)
  }

  lemma {:induction false} DeliverAppend(v: View, a: seq<string>, b: seq<string>, parse: string -> Option<Json>)
    ensures Deliver(v, a + b, parse) == Deliver(Deliver(v, a, parse), b, parse)
    decreases |b|
  {
    if |b| == 0 {
      assert a + b == a;
    } else {
      assert (a + b)[..|a + b| - 1] == a + b[..|b| - 1];
      assert (a + b)[|a + b| - 1] == b[|b| - 1];
      DeliverAppend(v, a, b[..|b| - 1], parse);
    }
  }

  lemma Associative<T>(a: seq<T>, b: seq<T>, c: seq<T>)
    ensures a + (b + c) == (a + b) + c
  {
  }

  /** Handling one more event. */
  lemma DeliverSnoc(v: View, raws: seq<string>, raw: string, parse: string -> Option<Json>)
    ensures Deliver(v, raws + [raw], parse)
         == match DataPayload(raw)
            case None => Deliver(v, raws, parse)
            case Some(p) => HandleEvent(Deliver(v, raws, parse), p, parse)
  {
    assert (raws + [raw])[..|raws|] == raws;
  }

  // ---------------------------------------------------------------- reading the stream

  /** The `for (const line of lines)` loop of one event. */
  method ReadDataLines(raw: string) returns (payload: Option<string>)
    ensures payload == DataPayload(raw)
  {
    var lines := Split(raw, '\n');
    var dataLines: seq<string> := [];
    var i := 0;
    while i < |lines|
      invariant 0 <= i <= |lines|
      invariant dataLines == DataLines(lines[..i])
    {
      assert lines[..i + 1][..i] == lines[..i];
      if StartsWith(lines[i], DataField) {
        dataLines := dataLines + [Trim(lines[i][|DataField|..])];
      }
      i := i + 1;
    }
    assert lines[..i] == lines;
    if |dataLines| > 0 {
      payload := Some(Join(dataLines, "\n"));
    } else {
      payload := None;
    }
  }

  /** The `indexOf('\n\n')` loop run on one buffer: every whole event handled, the rest kept. */
  method Drain(buffer: string, view: View, parse: string -> Option<Json>) returns (rest: string, after: View)
    ensures rest == SplitEvents(buffer).rest
    ensures after == Deliver(view, SplitEvents(buffer).events, parse)
  {
    rest, after := buffer, view;
    ghost var done: seq<string> := [];
    var idx := IndexOfPair(rest);
    while idx.Some?
      invariant idx == IndexOfPair(rest)
      invariant SplitEvents(buffer) == Framing(done + SplitEvents(rest).events, SplitEvents(rest).rest)
      invariant after == Deliver(view, done, parse)
      decreases |rest|
    {
      var raw := rest[..idx.value];
      SplitEventsStep(rest);
      ghost var tail := SplitEvents(rest[idx.value + 2..]);
      rest := rest[idx.value + 2..];
      var payload := ReadDataLines(raw);
      ghost var before := after;
      if payload.Some? {
        after := HandleEvent(after, payload.value, parse);
      }
      DeliverSnoc(view, done, raw, parse);
      assert after == Deliver(view, done + [raw], parse);
      Associative(done, [raw], tail.events);
      done := done + [raw];
      idx := IndexOfPair(rest);
    }
    assert done + [] == done;
  }

  /** The state kept for a received text, advanced by the events one more read completes. */
  lemma ReadMore(received: string, chunk: string, v: View, parse: string -> Option<Json>)
    requires v == Deliver(View("", ""), SplitEvents(received).events, parse)
    ensures var later := SplitEvents(SplitEvents(received).rest + chunk);
      && SplitEvents(received + chunk).rest == later.rest
      && Deliver(View("", ""), SplitEvents(received + chunk).events, parse) == Deliver(v, later.events, parse)
  {
    var earlier := SplitEvents(received).events;
    var later := SplitEvents(SplitEvents(received).rest + chunk);
    SplitEventsAppend(received, chunk);
    DeliverAppend(View("", ""), earlier, later.events, parse);
  }

  /** The reading side of one `streamSSE` call. */
  class SseReader {
    const parse: string -> Option<Json>
    var buffer: string
    var finalText: string
    var optimized: string
    ghost var received: string

    ghost predicate Valid()
      reads this
    {
      && buffer == SplitEvents(received).rest
      && View(finalText, optimized) == Deliver(View("", ""), SplitEvents(received).events, parse)
    }

    /** `optimizedRef.current` was reset to `''` by the caller (line 302). */
    constructor (parse: string -> Option<Json>)
      ensures Valid() && this.parse == parse && received == ""
    {
      this.parse := parse;
      buffer := "";
      finalText := "";
      optimized := "";
      received := "";
    }

    /** One decoded read appended to the buffer, and the events it completes handled (lines 276-293). */
    method Feed(chunk: string)
      requires Valid()
      modifies this
      ensures Valid() && received == old(received) + chunk
      ensures buffer == SplitEvents(old(buffer) + chunk).rest
      ensures View(finalText, optimized)
           == Deliver(old(View(finalText, optimized)), SplitEvents(old(buffer) + chunk).events, parse)
    {
      ReadMore(received, chunk, View(finalText, optimized), parse);
      var rest, after := Drain(buffer + chunk, View(finalText, optimized), parse);
      buffer := rest;
      finalText, optimized := after.finalText, after.optimized;
      received := received + chunk;
    }
  }

  /** How a `streamSSE` call settles. */
  datatype Outcome = Resolved(text: string) | Rejected(message: Option<string>)

  /** The result `handleEvent` leaves for a whole received text: the trimmed text at the last completion. */
  function ClientText(received: string, parse: string -> Option<Json>): string {
    Deliver(View("", ""), SplitEvents(received).events, parse).optimized
  }

  /**
   * `streamSSE` (lines 238-297): a failed or bodiless response rejects with `流式连接失败`; a
   * read that fails after `chunks` (`interrupted`) rejects with the runtime's message;
   * otherwise the call resolves with what the events left, and a partial event at the end
   * is dropped.
   */
  method StreamSse(ok: bool, hasBody: bool, chunks: seq<string>, interrupted: bool,
                   parse: string -> Option<Json>) returns (r: Outcome)
    ensures !ok || !hasBody ==> r == Rejected(Some(ConnectFailed))
    ensures ok && hasBody && interrupted ==> r == Rejected(None)
    ensures ok && hasBody && !interrupted ==> r == Resolved(ClientText(Concat(chunks), parse))
  {
    if !ok || !hasBody {
      return Rejected(Some(ConnectFailed));
    }
    var reader := new SseReader(parse);
    var k := 0;
    while k < |chunks|
      invariant 0 <= k <= |chunks|
      invariant reader.Valid() && reader.parse == parse
      invariant reader.received == Concat(chunks[..k])
    {
      reader.Feed(chunks[k]);
      assert chunks[..k + 1][..k] == chunks[..k];
      k := k + 1;
    }
    assert chunks[..k] == chunks;
    if interrupted {
      return Rejected(None);
    }
    return Resolved(reader.optimized);
  }

  // ---------------------------------------------------------------- server to client

  /** The parser reads back every event the routes write. */
  ghost predicate ReadsEvents(parse: string -> Option<Json>) {
    forall e: Event :: parse(Payload(e)) == Some(EventJson(e))
  }

  /** A reader of event payloads: the event written as `s`, if there is one. */
  ghost function ReadEvent(s: string): (r: Option<Json>)
    ensures r.Some? ==> exists e: Event :: Payload(e) == s && r == Some(EventJson(e))
    ensures (exists e: Event :: Payload(e) == s) ==> r.Some?
  {
    if exists e: Event :: Payload(e) == s then
      var e :| Payload(e) == s;
      Some(EventJson(e))
    else
      None
  }

  /** Every event is read back from its payload, so the lemmas assuming a parser that does so are not vacuous. */
  lemma ReadsEventsIsSatisfiable()
    ensures ReadsEvents(ReadEvent)
  {
    forall e: Event
      ensures ReadEvent(Payload(e)) == Some(EventJson(e))
    {
      var s := Payload(e);
      assert Payload(e) == s;
      var e' :| Payload(e') == s && ReadEvent(s) == Some(EventJson(e'));
      PayloadInjective(e', e);
    }
  }

  /** What each event does to the client's state, once parsed. */
  function React(v: View, e: Event): View {
    match e
    case Delta(d) => View(v.finalText + d, v.optimized)
    case Completed => View(v.finalText, Trim(v.finalText))
    case Failed(_) => v
    case TextOnly(_) => v
  }

  function Observe(v: View, events: seq<Event>): View {
    if |events| == 0 then v else React(Observe(v, events[..|events| - 1]), events[|events| - 1])
  }

  /** The events as `streamSSE` cuts them from the wire: one `data: ` line each. */
  function Raws(events: seq<Event>): (r: seq<string>)
    ensures |r| == |events|
  {
    if |events| == 0 then [] else Raws(events[..|events| - 1]) + ["data: " + Payload(events[|events| - 1])]
  }

  /** A message is cut off as one event: its `data: ` line. */
  lemma OneFrame(e: Event)
    ensures SplitEvents(Frame(e)) == Framing(["data: " + Payload(e)], "")
  {
    var p := Payload(e);
    PayloadIsOneCleanLine(e);
    NoNewlineAfterField(p);
    assert Frame(e) == ("data: " + p) + Separator;
    LineThenPair("data: " + p);
  }

  lemma NoNewlineAfterField(p: string)
    requires '\n' !in p
    ensures '\n' !in "data: " + p
  {
    var line := "data: " + p;
    forall j | 0 <= j < |line| ensures line[j] != '\n' {
      if j >= 6 {
        assert line[j] == p[j - 6];
      }
    }
  }

  /** A line without `\n` followed by the separator is cut off whole, leaving nothing. */
  lemma LineThenPair(line: string)
    requires '\n' !in line
    ensures SplitEvents(line + Separator) == Framing([line], "")
  {
    var s := line + Separator;
    assert PairAt(s, |line|);
    forall j | 0 <= j < |line| ensures !PairAt(s, j) {
      assert s[j] == line[j];
    }
    PairFromSpec(s, 0);
    var i := IndexOfPair(s).value;
    assert i == |line|;
    assert s[..i] == line;
    assert s[i + 2..] == "";
    assert SplitEvents("") == Framing([], "");
  }

  /** Everything the server writes is cut back into its events, with nothing left over. */
  lemma {:induction false} WireFrames(events: seq<Event>)
    ensures SplitEvents(Wire(events)) == Framing(Raws(events), "")
  {
    if |events| == 0 {
      assert SplitEvents("") == Framing([], "");
    } else {
      var init, last := events[..|events| - 1], events[|events| - 1];
      WireFrames(init);
      SplitEventsAppend(Wire(init), Frame(last));
      assert "" + Frame(last) == Frame(last);
      OneFrame(last);
    }
  }

  /** A server message's `data:` line gives back exactly the payload it was written from. */
  lemma PayloadRoundTrip(e: Event)
    ensures DataPayload("data: " + Payload(e)) == Some(Payload(e))
  {
    var p := Payload(e);
    var line := "data: " + p;
    PayloadIsOneCleanLine(e);
    assert '\n' !in line by {
      forall j | 0 <= j < |line| ensures line[j] != '\n' {
        if j >= 6 {
          assert line[j] == p[j - 6];
        }
      }
    }
    SplitNoSeparator(line, '\n');
    assert StartsWith(line, DataField);
    assert line[|DataField|..] == " " + p;
    assert TrimStart(" " + p) == TrimStart(p) by {
      assert (" " + p)[1..] == p;
    }
    assert Trim(" " + p) == p;
    assert [line][..0] == [];
    assert DataLines([line]) == [p];
  }

  /** Handling a parsed payload is reacting to the event it came from. */
  lemma HandleEventReadsEvent(v: View, e: Event, payload: string, parse: string -> Option<Json>)
    requires parse(payload) == Some(EventJson(e))
    ensures HandleEvent(v, payload, parse) == React(v, e)
  {
    var j := EventJson(e);
    match e
    case Delta(d) =>
      var fields := [Field("type", JStr(DeltaType)), Field("delta", JStr(d))];
      assert j == JObj(fields);
      assert fields[..1] == [Field("type", JStr(DeltaType))];
      assert Lookup(fields, "type") == Lookup(fields[..1], "type");
      assert Get(j, "type") == Some(JStr(DeltaType));
      assert Get(j, "delta") == Some(JStr(d));
    case Completed =>
      assert Get(j, "type") == Some(JStr(CompletedType));
    case Failed(m) =>
      var fields := [Field("type", JStr(ErrorType)), Field("error", JObj([Field("message", JStr(m))]))];
      assert j == JObj(fields);
      assert fields[..1] == [Field("type", JStr(ErrorType))];
      assert Lookup(fields, "type") == Lookup(fields[..1], "type");
      assert Get(j, "type") == Some(JStr(ErrorType));
    case TextOnly(t) =>
      var fields := [Field("text", JStr(t))];
      assert j == JObj(fields);
      assert fields[0].key[2] != "type"[2];
      assert fields[..0] == [];
      assert Lookup(fields, "type") == Lookup(fields[..0], "type");
      assert Get(j, "type") == None;
  }

  /** The client's state after reading a server's whole output is the events' effect, in order. */
  lemma {:induction false} DeliverWire(v: View, events: seq<Event>, parse: string -> Option<Json>)
    requires ReadsEvents(parse)
    ensures Deliver(v, Raws(events), parse) == Observe(v, events)
  {
    if |events| > 0 {
      var init, last := events[..|events| - 1], events[|events| - 1];
      DeliverWire(v, init, parse);
      assert Raws(events)[..|events| - 1] == Raws(init);
      PayloadRoundTrip(last);
      HandleEventReadsEvent(Deliver(v, Raws(init), parse), last, Payload(last), parse);
    }
  }

  /** The accumulated text is the deltas' text; the result changes only on completion. */
  lemma {:induction false} ObserveText(v: View, events: seq<Event>)
    ensures Observe(v, events).finalText == v.finalText + DeltaText(events)
    ensures (forall i :: 0 <= i < |events| ==> events[i] != Completed) ==> Observe(v, events).optimized == v.optimized
  {
    if |events| > 0 {
      var init := events[..|events| - 1];
      ObserveText(v, init);
      assert forall i :: 0 <= i < |init| ==> init[i] == events[i];
    }
  }

  /**
   * The text a client resolves with after a server writes `events` and then completion: the
   * delta texts, concatenated and trimmed.
   */
  lemma ClientReadsCompletedStream(events: seq<Event>, parse: string -> Option<Json>)
    requires ReadsEvents(parse)
    ensures ClientText(Wire(events + [Completed]), parse) == Trim(DeltaText(events))
  {
    var all := events + [Completed];
    var start := View("", "");
    WireFrames(all);
    assert SplitEvents(Wire(all)).events == Raws(all);
    DeliverWire(start, all, parse);
    assert all[..|events|] == events && all[|events|] == Completed;
    var before := Observe(start, events);
    assert Observe(start, all) == React(before, Completed);
    ObserveText(start, events);
    assert before.finalText == DeltaText(events);
  }

  /** End to end for the text-to-image stream: the client gets the upstream lines' texts, trimmed. */
  lemma LineRelayReachesClient(lines: seq<string>, parse: string -> Option<Json>)
    requires ReadsEvents(parse)
    ensures ClientText(Wire(GenerateStream.LineEvents(lines, parse) + [Completed]), parse)
         == Trim(GenerateStream.LineTexts(lines, parse))
  {
    ClientReadsCompletedStream(GenerateStream.LineEvents(lines, parse), parse);
    GenerateStream.DeltasConcatenateLineTexts(lines, parse);
  }

  /**
   * End to end for the snapshot routes: the client gets the deltas concatenated and trimmed,
   * which is the last snapshot's text when each snapshot extends the one before.
   */
  lemma SnapshotRelayReachesClient(snapshots: seq<Option<string>>, parse: string -> Option<Json>)
    requires ReadsEvents(parse)
    ensures var p := SnapshotStream.Replay(snapshots);
      ClientText(Wire(AsDeltas(p.deltas) + [Completed]), parse) == Trim(Concat(p.deltas))
    ensures SnapshotStream.Growing(snapshots) ==>
      ClientText(Wire(AsDeltas(SnapshotStream.Replay(snapshots).deltas) + [Completed]), parse)
        == Trim(SnapshotStream.Replay(snapshots).complete)
  {
    var p := SnapshotStream.Replay(snapshots);
    ClientReadsCompletedStream(AsDeltas(p.deltas), parse);
    DeltaTextOfDeltas(p.deltas);
    if SnapshotStream.Growing(snapshots) {
      SnapshotStream.GrowingSnapshotsReassemble(snapshots);
    }
  }

  // ---------------------------------------------------------------- findings

  /**
   * As written, the first/last-frame route's `{text}` events carry no `type`, so the client
   * resolves with `""` however much text the route relayed.
   */
  lemma FrameTextIsLost(lines: seq<string>, parse: string -> Option<Json>)
    requires ReadsEvents(parse)
    ensures ClientText(Wire(FrameTransitionStream.FrameEvents(lines, parse) + [Completed]), parse) == ""
  {
    var events := FrameTransitionStream.FrameEvents(lines, parse);
    ClientReadsCompletedStream(events, parse);
    FrameTransitionStream.FrameEventsAreText(lines, parse);
    NoDeltaText(events);
  }

  lemma {:induction false} NoDeltaText(events: seq<Event>)
    requires forall i :: 0 <= i < |events| ==> events[i].TextOnly?
    ensures DeltaText(events) == ""
  {
    if |events| > 0 {
      NoDeltaText(events[..|events| - 1]);
    }
  }

  /** With delta events the client gets exactly the route's `completeText`, trimmed. */
  lemma FrameDeltasReachClient(lines: seq<string>, parse: string -> Option<Json>)
    requires ReadsEvents(parse)
    ensures ClientText(Wire(FrameTransitionStream.FrameDeltaEvents(lines, parse) + [Completed]), parse)
         == Trim(FrameTransitionStream.FrameText(lines, parse))
  {
    ClientReadsCompletedStream(FrameTransitionStream.FrameDeltaEvents(lines, parse), parse);
  }

  /**
   * As written, a stream that ends with the error event resolves with `""`: the page shows an
   * empty result instead of the error.
   */
  lemma StreamErrorIsSwallowed(texts: seq<string>, message: string, chunks: seq<string>,
                               parse: string -> Option<Json>)
    requires ReadsEvents(parse)
    requires Concat(chunks) == Wire(AsDeltas(texts) + [Failed(message)])
    ensures ClientText(Concat(chunks), parse) == ""
  {
    var events := AsDeltas(texts) + [Failed(message)];
    AsDeltasAt(texts);
    WireFrames(events);
    DeliverWire(View("", ""), events, parse);
    ObserveText(View("", ""), events);
  }

  /**
   * The message the error event in a raw event reports: `new Error(data.error?.message ||
   * '模型流式错误')` converts a truthy message with `String`, so `5` reports `"5"`.
   */
  function ReportedError(raw: string, parse: string -> Option<Json>): Option<string> {
    match DataPayload(raw)
    case None => None
    case Some(p) =>
      match parse(p)
      case Some(data) =>
        if data != JNull && Get(data, "type") == Some(JStr(ErrorType)) then
          var message := match Get(data, "error")
            case Some(err) => Get(err, "message")
            case None => None;
          Some(if message.Some? && Truthy(message.value) then ToJsString(message.value) else ModelStreamError)
        else None
      case None => None
  }

  /**
   * `handleEvent` with the error rethrown out of `streamSSE`: the view after the events before
   * the first error event, and that error.
   */
  function DeliverReporting(v: View, raws: seq<string>, parse: string -> Option<Json>): (View, Option<string>)
    ensures DeliverReporting(v, raws, parse).1.None? ==> DeliverReporting(v, raws, parse).0 == Deliver(v, raws, parse)
  {
    if |raws| == 0 then (v, None)
    else
      var (w, failure) := DeliverReporting(v, raws[..|raws| - 1], parse);
      if failure.Some? then (w, failure)
      else
        var raw := raws[|raws| - 1];
        if ReportedError(raw, parse).Some? then
          assert DataPayload(raw).Some?;
          assert HandleEvent(w, DataPayload(raw).value, parse) == w;
          (w, ReportedError(raw, parse))
        else (Deliver(v, raws, parse), None)
  }

  /** `streamSSE` with the error event rejecting the call, as the page's `catch` expects. */
  function ReportingOutcome(received: string, parse: string -> Option<Json>): Outcome {
    var (v, failure) := DeliverReporting(View("", ""), SplitEvents(received).events, parse);
    if failure.Some? then Rejected(failure) else Resolved(v.optimized)
  }

  /** The error a parsed event reports: only the error event does, with its message or the default. */
  lemma ReportedErrorOf(e: Event, raw: string, payload: string, parse: string -> Option<Json>)
    requires DataPayload(raw) == Some(payload) && parse(payload) == Some(EventJson(e))
    ensures ReportedError(raw, parse)
         == if e.Failed? then Some(if e.message != "" then e.message else ModelStreamError) else None
  {
    var j := EventJson(e);
    match e
    case Delta(d) =>
      var fields := [Field("type", JStr(DeltaType)), Field("delta", JStr(d))];
      assert j == JObj(fields);
      assert fields[..1] == [Field("type", JStr(DeltaType))];
      assert Lookup(fields, "type") == Lookup(fields[..1], "type");
      assert Get(j, "type") == Some(JStr(DeltaType));
    case Completed =>
      assert Get(j, "type") == Some(JStr(CompletedType));
    case Failed(m) =>
      var err := JObj([Field("message", JStr(m))]);
      var fields := [Field("type", JStr(ErrorType)), Field("error", err)];
      assert j == JObj(fields);
      assert fields[..1] == [Field("type", JStr(ErrorType))];
      assert Lookup(fields, "type") == Lookup(fields[..1], "type");
      assert Get(j, "type") == Some(JStr(ErrorType));
      assert Get(j, "error") == Some(err);
      assert Get(err, "message") == Some(JStr(m));
    case TextOnly(t) =>
      var fields := [Field("text", JStr(t))];
      assert j == JObj(fields);
      assert fields[0].key[2] != "type"[2];
      assert fields[..0] == [];
      assert Lookup(fields, "type") == Lookup(fields[..0], "type");
      assert Get(j, "type") == None;
  }

  lemma {:induction false} NoErrorBeforeEnd(events: seq<Event>, parse: string -> Option<Json>)
    requires ReadsEvents(parse)
    requires forall i :: 0 <= i < |events| ==> events[i].Delta?
    ensures DeliverReporting(View("", ""), Raws(events), parse).1 == None
  {
    if |events| > 0 {
      var init, last := events[..|events| - 1], events[|events| - 1];
      NoErrorBeforeEnd(init, parse);
      assert Raws(events)[..|events| - 1] == Raws(init);
      PayloadRoundTrip(last);
      ReportedErrorOf(last, "data: " + Payload(last), Payload(last), parse);
    }
  }

  /**
   * With the error rethrown, a stream that ends with the error event rejects with the error's
   * message, and one that completes resolves exactly as before.
   */
  lemma StreamErrorIsReported(texts: seq<string>, message: string, parse: string -> Option<Json>)
    requires ReadsEvents(parse)
    ensures ReportingOutcome(Wire(AsDeltas(texts) + [Failed(message)]), parse)
         == Rejected(Some(if message != "" then message else ModelStreamError))
    ensures ReportingOutcome(Wire(AsDeltas(texts) + [Completed]), parse) == Resolved(Trim(Concat(texts)))
  {
    var deltas := AsDeltas(texts);
    AsDeltasAt(texts);
    NoErrorBeforeEnd(deltas, parse);
    ErrorEndsTheStream(deltas, message, parse);
    CompletionEndsTheStream(deltas, parse);
    DeltaTextOfDeltas(texts);
  }

  lemma ErrorEndsTheStream(deltas: seq<Event>, message: string, parse: string -> Option<Json>)
    requires ReadsEvents(parse)
    requires DeliverReporting(View("", ""), Raws(deltas), parse).1 == None
    ensures ReportingOutcome(Wire(deltas + [Failed(message)]), parse)
         == Rejected(Some(if message != "" then message else ModelStreamError))
  {
    var all := deltas + [Failed(message)];
    WireFrames(all);
    var raws := Raws(all);
    assert raws[..|deltas|] == Raws(deltas);
    var raw := "data: " + Payload(Failed(message));
    assert raws[|deltas|] == raw;
    PayloadRoundTrip(Failed(message));
    ReportedErrorOf(Failed(message), raw, Payload(Failed(message)), parse);
  }

  lemma CompletionEndsTheStream(deltas: seq<Event>, parse: string -> Option<Json>)
    requires ReadsEvents(parse)
    requires DeliverReporting(View("", ""), Raws(deltas), parse).1 == None
    ensures ReportingOutcome(Wire(deltas + [Completed]), parse) == Resolved(Trim(DeltaText(deltas)))
  {
    var all := deltas + [Completed];
    WireFrames(all);
    var raws := Raws(all);
    assert raws[..|deltas|] == Raws(deltas);
    var raw := "data: " + Payload(Completed);
    assert raws[|deltas|] == raw;
    PayloadRoundTrip(Completed);
    ReportedErrorOf(Completed, raw, Payload(Completed), parse);
    ClientReadsCompletedStream(deltas, parse);
  }
}
