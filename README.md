# Prompt-Optimization relay: the stream normalisers, the extractor, the routes and the page

The relay is a Next.js application. The browser page (`app/page.jsx`) posts a draft prompt,
and sometimes reference images, to one of seven route handlers. Each route asks Gemini to
rewrite the prompt and hands back the result.

- **Streaming routes.** Five routes read Gemini's streamed reply chunk by chunk and re-emit
  it to the browser as Server-Sent Events. The events are deltas
  (`response.output_text.delta`), then one `response.completed` or `response.error`.
- **Non-streaming routes.** Two routes wait for the whole reply, extract its text with
  `extractTextFromResponse`, and answer `{optimizedPrompt, language}`.

This project models that core in Dafny and proves its properties.

| module (file) | what it models |
|---|---|
| `Strings` (strings.dfy) | `trim`, `startsWith`, `split('\n')` and `join` with their JavaScript meaning; the complete-lines/tail decomposition of a buffer |
| `Json` (json.dfy) | JSON values as `JSON.parse` returns them; property reads and truthiness; `JSON.stringify`, which always yields one line |
| `Candidates` (candidates.dfy) | the guarded walk `data.candidates[0].content.parts[0].text` shared by the streaming routes |
| `Events` (events.dfy) | the four event shapes, their `data: <JSON>\n\n` framing, and "deltas, then exactly one terminal event" |
| `GenerateStream` (generate_stream.dfy) | the line-delimited read loop of the text-to-image stream, as class `LineStream` |
| `FrameTransitionStream` (frame_transition_stream.dfy) | the `data: `-only line loop of the first/last-frame route, as class `FrameStream` |
| `SnapshotStream` (snapshot_stream.dfy) | the snapshot-array read loop, modelled once as class `SnapshotRelay` |
| `StaticExtract` (static_extract.dfy) | `extractTextFromResponse`, as a function and as the loop the source runs |
| `Routes` (routes.dfy) | request validation, language defaults, the 4 MiB rule, the upstream status check, and the prompt fallback of all seven handlers |
| `Client` (client.dfy) | `canSubmit`, the request each tab builds, `appendReasoning`, and `streamSSE` with `handleEvent` (class `SseReader`); end-to-end lemmas from route to page |
| `Wrappers` (wrappers.dfy) | `Option` |

## Shared snapshot loop

The snapshot-array loop appears three times, line for line. `SnapshotStream` cites the
image-edit copy. The same statements sit at these lines in the three files:

- **Image-edit route** (`app/api/optimize-and-edit/stream/route.js`):
  - buffer and `completeText` declared: 124-125
  - read loop: 129-177
  - regex match: 143
  - item loop: 150-157
  - diff: 160-171
  - terminal events: 181-193
- **Image-to-video route** (`app/api/optimize-and-edit-video/stream/route.js`):
  - buffer and `completeText` declared: 149-150
  - read loop: 154-202
  - regex match: 168
  - item loop: 175-182
  - diff: 185-196
  - terminal events: 206-218
- **Text-to-video route** (`app/api/optimize-and-generate-video/stream/route.js`):
  - buffer and `completeText` declared: 93-94
  - read loop: 98-146
  - regex match: 112
  - item loop: 119-126
  - diff: 129-140
  - terminal events: 150-162

## External behaviour as parameters

- **`JSON.parse`.** Every operation that parses takes it as a parameter
  `parse: string -> Option<Json>`, where `None` stands for the `SyntaxError`. Every property
  except the end-to-end ones holds for every parser. The end-to-end lemmas rely only on
  `Client.ReadsEvents`: the parser reads back what `JSON.stringify` wrote for the relay's own
  events.
- **Chunks.** A chunk is an already-decoded string.
- **`controller.enqueue`.** Enqueuing appends to a sequence of events.
- **Upstream `fetch`.** Its outcome is a parameter: `Routes.Upstream`.
- **Environment.** Whether `AIHUBMIX_API_KEY` is set is a boolean parameter.

## Behaviour of the code worth knowing

- **Snapshot deltas.** A snapshot loop sends the part of each snapshot past the text already
  sent. The snapshots `["a"]`, `["a cat walking"]` and `["a cat walking, golden hour lighting"]`
  send `"a"`, `" cat walking"` and `", golden hour lighting"`
  (`SnapshotStream.ThreeSnapshotsSendTheirTails`).
- **Blank winning candidate.** A candidate whose texts trim to nothing still wins: the
  extractor returns `""` for it, and later candidates are never consulted
  (`StaticExtract.BlankWinnerHidesLaterCandidates`).
- **The extractor can throw.** It throws on a `null` candidate, a `null` part, or a truthy
  non-string `text`. The non-streaming routes then answer 500
  (`StaticExtract.ThrowsExactlyWhenReached`, `Routes.GenerateRoute`).
- **Route errors do not reach the page.** A 400 or 500 answer is never shown as such:
  `streamSSE` rejects every non-ok response with the same `流式连接失败`
  (`Client.StreamSse`). A `response.error` event is ignored by the page; see Findings.

## Model

| member | source | states |
|---|---|---|
| Strings.Trim | app/api/optimize-and-generate/stream/route.js:92 | `trim`, as `trimEnd` of `trimStart`; its meaning is stated by `TrimStartSpec`, `TrimEndSpec` and `TrimSpec` |
| Strings.TrimStartSpec | app/api/optimize-and-generate/stream/route.js:92 | `trimStart` removes exactly the leading whitespace: the input is a whitespace prefix followed by the result, which does not start with whitespace |
| Strings.TrimEndSpec | app/api/optimize-and-generate/stream/route.js:92 | `trimEnd` removes exactly the trailing whitespace: the input is the result followed by a whitespace suffix, and the result does not end with whitespace |
| Strings.TrimSpec | app/api/optimize-and-generate/stream/route.js:92 | `trim` leaves no whitespace at either end, is empty exactly when the input is all whitespace, and returns a clean string unchanged |
| Strings.Split | app/api/optimize-and-generate/stream/route.js:88 | `split('\n')` with a one-character separator, always at least one piece; its meaning is stated by `SplitSpec` |
| Strings.SplitSpec | app/api/optimize-and-generate/stream/route.js:88 | no piece that `split('\n')` yields holds the separator, and joining them with it gives back the input |
| Strings.LinesAndTail | app/api/optimize-and-generate/stream/route.js:85-89 | the received text is its complete lines, each followed by `'\n'`, then the kept tail; neither the tail nor any line holds `'\n'` |
| Strings.SplitTerminated | app/api/optimize-and-generate/stream/route.js:88-89 | splitting newline-free lines, each terminated, plus a newline-free tail gives back exactly those lines and that tail |
| Strings.Regroup | app/api/optimize-and-generate/stream/route.js:85-89 | after a chunk, the processed lines joined with `'\n'` plus the new buffer still equal everything received |
| Json.Stringify | app/api/optimize-and-generate/stream/route.js:110 | `JSON.stringify` without indentation; `StringifyOneLine`, `EscapeInjective` and `Events.PayloadShape` state what it writes |
| Json.ToJsStringSpec | app/api/optimize-and-edit/stream/route.js:154 | `String(v)`, the conversion `extractedText += parts[0].text` applies: a string is itself, a number, boolean or `null` is written as `JSON.stringify` writes it, and a truthy non-array value is never empty |
| Json.NullArrayConvertsToCommas | app/api/optimize-and-edit/stream/route.js:154 | a truthy array of `null`s converts to separators only, so `+=` can add the empty string for a truthy `text` |
| Json.EscapeInjective | app/api/optimize-and-generate/stream/route.js:110 | two strings with the same escaped form are equal: no escape sequence is a prefix of another |
| Json.StringifyOneLine | app/api/optimize-and-generate/stream/route.js:110 | `JSON.stringify` output never contains a newline, so every message is one `data:` line |
| Events.PayloadIsOneCleanLine | app/api/optimize-and-generate/stream/route.js:110 | an event's payload is one line that begins with `{`, ends with `}`, and is unchanged by `trim` |
| Events.PayloadShape | app/api/optimize-and-generate/stream/route.js:106-110 | each event's payload is its constant head, the one string it carries escaped, and its constant rear |
| Events.PayloadInjective | app/api/optimize-and-generate/stream/route.js:106-110 | two events with the same payload are the same event, so the page can read every event back |
| Events.DeltasThenTerminal | app/api/optimize-and-generate/stream/route.js:106-131 | deltas followed by completion or the caught error end with exactly one terminal event, and the deltas concatenate to the texts in order |
| Events.DeltaTextOfDeltas | app/api/optimize-and-generate/stream/route.js:106-110 | the texts carried by the delta events built from a list of texts concatenate to that list's concatenation |
| Candidates.FirstPartValue | app/api/optimize-and-edit/stream/route.js:151-153 | the guarded walk to `parts[0].text`: it throws exactly for a `null` record, and a value it reaches is truthy, whatever its type |
| Candidates.FirstPartText | app/api/optimize-and-generate/stream/route.js:100-105 | the guarded walk throws exactly for a `null` record, and a text it finds is never empty |
| Candidates.OnlyFirstPartOfFirstCandidate | app/api/optimize-and-generate/stream/route.js:103-108 | a non-empty first text of the first candidate is the delta, whatever other parts and candidates follow |
| Candidates.EmptyFirstPartHidesLaterParts | app/api/optimize-and-generate/stream/route.js:105 | an empty first part yields no text even when the second part has one |
| GenerateStream.LineDelta | app/api/optimize-and-generate/stream/route.js:92-110 | the delta one complete line emits: its first part's text, when the line is a record that parses and has one; `SkippedLines`, `PrefixIsOptional`, `LeadingSpaceIgnored` and `UnparsableLineIsSkipped` state its cases |
| GenerateStream.LineEvents | app/api/optimize-and-generate/stream/route.js:91-118 | the delta events of a run of complete lines, one per line with text, in line order; `LineEventsAppend`, `LineEventsAreDeltas` and `DeltasConcatenateLineTexts` state its properties |
| GenerateStream.LineStream.constructor | app/api/optimize-and-generate/stream/route.js:79 | the buffer starts empty, with nothing received or sent |
| GenerateStream.LineStream.Feed | app/api/optimize-and-generate/stream/route.js:85-118 | the buffer becomes the text after the last `'\n'` of old buffer plus chunk; the new complete lines are added to the processed ones; the events gain exactly their deltas; `Valid` (no `'\n'` in the buffer, lines plus buffer equal the input) is kept |
| GenerateStream.LineStream.Finish | app/api/optimize-and-generate/stream/route.js:121-131 | exactly one completion or error event is appended, and nothing else changes |
| GenerateStream.EmitLines | app/api/optimize-and-generate/stream/route.js:91-118 | the `for` loop over complete lines emits exactly the line-wise events, in order |
| GenerateStream.RelayLines | app/api/optimize-and-generate/stream/route.js:76-132 | the events are the deltas of the complete lines of all chunks concatenated, wherever chunk boundaries fall, followed by one terminal event |
| GenerateStream.LineEventsAppend | app/api/optimize-and-generate/stream/route.js:91-118 | the events of two runs of lines are the events of each run, concatenated |
| GenerateStream.LineEventsAreDeltas | app/api/optimize-and-generate/stream/route.js:106-110 | lines only ever emit delta events |
| GenerateStream.SkippedLines | app/api/optimize-and-generate/stream/route.js:92-93 | a line that is blank, or is `data: [DONE]` after trimming, emits nothing |
| GenerateStream.PayloadNeverEmpty | app/api/optimize-and-generate/stream/route.js:96-99 | every other line reaches `JSON.parse`; the `if (jsonStr)` test never fails |
| GenerateStream.PrefixIsOptional | app/api/optimize-and-generate/stream/route.js:96-97 | a record line means the same with or without the `data: ` prefix |
| GenerateStream.LeadingSpaceIgnored | app/api/optimize-and-generate/stream/route.js:92 | leading whitespace never changes what a line emits |
| GenerateStream.UnparsableLineIsSkipped | app/api/optimize-and-generate/stream/route.js:114-116 | a line that fails to parse emits nothing, and the lines after it are processed as if it were absent |
| GenerateStream.DeltasConcatenateLineTexts | app/api/optimize-and-generate/stream/route.js:91-118 | the emitted deltas concatenate to the per-line extracted texts in line order |
| GenerateStream.UnterminatedTailIgnored | app/api/optimize-and-generate/stream/route.js:82-89 | a final fragment without `'\n'` adds no complete line, so it is never parsed |
| FrameTransitionStream.FrameEvents | app/api/optimize-frame-transition/stream/route.js:156-197 | the `{text}` events of a run of complete lines, one per admitted line with text, in line order; `FrameEventsShowFrameText` and `FrameEventsAreText` state its properties |
| FrameTransitionStream.FrameStream.constructor | app/api/optimize-frame-transition/stream/route.js:134-135 | buffer and `completeText` start empty |
| FrameTransitionStream.FrameStream.Feed | app/api/optimize-frame-transition/stream/route.js:139-197 | the buffer becomes the remainder after the last `'\n'`; the events gain one `{text}` per admitted line with text; `completeText` grows by exactly those texts; `Valid` is kept, which includes `completeText` equalling the text of every line so far |
| FrameTransitionStream.FrameStream.Finish | app/api/optimize-frame-transition/stream/route.js:205-216 | one completion or error event is appended; buffer and `completeText` are unchanged |
| FrameTransitionStream.EmitFrames | app/api/optimize-frame-transition/stream/route.js:156-197 | the indexed `for` loop returns exactly the line-wise `{text}` events and their concatenated text |
| FrameTransitionStream.RelayFrames | app/api/optimize-frame-transition/stream/route.js:131-217 | the events are the `{text}` events of all complete lines and then exactly one terminal event; the final `completeText` is exactly the text those events carried |
| FrameTransitionStream.FrameStreamShowsText | app/api/optimize-frame-transition/stream/route.js:173-216 | after the terminal event the `{text}` events still carry exactly `completeText`, and there is one terminal event |
| FrameTransitionStream.FrameEventsShowFrameText | app/api/optimize-frame-transition/stream/route.js:173-181 | `completeText` equals the in-order concatenation of the `{text}` payloads |
| FrameTransitionStream.FrameEventsAreText | app/api/optimize-frame-transition/stream/route.js:181 | the line loop emits only `{text}` events, never one with a `type` |
| FrameTransitionStream.TrimTestIsRedundant | app/api/optimize-frame-transition/stream/route.js:160 | a line is admitted exactly when it starts with `data: `; the `trim()` half of the test never decides |
| FrameTransitionStream.IndentedOrBareLinesDropped | app/api/optimize-frame-transition/stream/route.js:160-196 | a line without the untrimmed `data: ` prefix, indented or bare, yields nothing |
| FrameTransitionStream.SpellingsDifferFromTextToImage | app/api/optimize-frame-transition/stream/route.js:160-162 | indented and bare record lines are dropped here but read by the text-to-image loop, which treats all three spellings alike |
| FrameTransitionStream.BadLineIsSkipped | app/api/optimize-frame-transition/stream/route.js:189-193 | an admitted line that fails to parse, or parses to `null`, is skipped and the following lines are still read |
| FrameTransitionStream.FrameTextAppend | app/api/optimize-frame-transition/stream/route.js:174 | the text of two runs of lines is the two texts concatenated |
| FrameTransitionStream.FrameDeltaEvents | app/api/optimize-frame-transition/stream/route.js:181 | sending each text as a delta event instead carries exactly `completeText` (corrected half of Finding 1) |
| SnapshotStream.FirstIndexSpec | app/api/optimize-and-edit/stream/route.js:143 | the index of the first `[`, with none before it; `None` exactly when there is none |
| SnapshotStream.LastIndexSpec | app/api/optimize-and-edit/stream/route.js:143 | the index of the last `]`, with none after it; `None` exactly when there is none |
| SnapshotStream.BracketSpanIsRegexMatch | app/api/optimize-and-edit/stream/route.js:143-145 | the span from the first `[` to the last `]` is the leftmost-longest bracketed substring, which is what `/\[[\s\S]*\]/` matches; it is absent exactly when no substring is bracketed |
| SnapshotStream.ItemsTextFailsOnNull | app/api/optimize-and-edit/stream/route.js:149-157 | iterating the items fails exactly when an item is `null`; otherwise each reached `text` is added with `String` conversion |
| SnapshotStream.ItemsLoop | app/api/optimize-and-edit/stream/route.js:149-157 | the `for…of` loop computes `ItemsText`, stopping at the first `null` item and adding each reached `text` as `String(text)` |
| SnapshotStream.NumericTextIsConverted | app/api/optimize-and-edit/stream/route.js:154 | a snapshot whose `text` is the number `5` contributes `"5"`, as `+=` converts it |
| SnapshotStream.ExtractSnapshot | app/api/optimize-and-edit/stream/route.js:140-158 | the snapshot of the whole buffer: none without a match, a parse failure or a non-iterable value; otherwise the reached texts, each converted with `String`, concatenated |
| SnapshotStream.Advance | app/api/optimize-and-edit/stream/route.js:159-171 | the delta a snapshot sends past `completeText`, if any; `AdvanceExactlyWhenLonger` states when and what |
| SnapshotStream.Replay | app/api/optimize-and-edit/stream/route.js:129-171 | `completeText` and the deltas after a run of snapshots, one per chunk; `ReplayLength`, `CompleteIsASnapshot` and `GrowingSnapshotsReassemble` state its properties |
| SnapshotStream.AdvanceExactlyWhenLonger | app/api/optimize-and-edit/stream/route.js:160-171 | a delta is sent exactly when the snapshot is longer than `completeText`, and it is the snapshot past that length; shorter or equal-length divergent snapshots send nothing |
| SnapshotStream.ReplayLength | app/api/optimize-and-edit/stream/route.js:160-171 | the deltas sent always have the length of `completeText`, which is at least as long as every snapshot so far |
| SnapshotStream.CompleteIsASnapshot | app/api/optimize-and-edit/stream/route.js:169 | `completeText` is empty or one of the snapshots |
| SnapshotStream.GrowingSnapshotsReassemble | app/api/optimize-and-edit/stream/route.js:160-171 | when every snapshot extends the earlier ones, the deltas concatenate to `completeText`, which is the latest snapshot |
| SnapshotStream.DivergentSnapshotSendsOnlyItsTail | app/api/optimize-and-edit/stream/route.js:160-171 | `"ab"` then `"xyz"` sends `"ab"` and `"z"`, so the text sent is not `completeText` |
| SnapshotStream.ThreeSnapshotsSendTheirTails | app/api/optimize-and-generate-video/stream/route.js:129-140 | snapshots `"a"`, `"a cat walking"`, `"a cat walking, golden hour lighting"` send `"a"`, `" cat walking"`, `", golden hour lighting"` |
| SnapshotStream.SnapshotRelay.constructor | app/api/optimize-and-edit/stream/route.js:124-125 | buffer and `completeText` start empty |
| SnapshotStream.SnapshotRelay.Feed | app/api/optimize-and-edit/stream/route.js:129-177 | the buffer only grows by the chunk; a delta is appended and `completeText` set to the snapshot exactly when the snapshot of the whole buffer advances; otherwise nothing changes |
| SnapshotStream.SnapshotRelay.Finish | app/api/optimize-and-edit/stream/route.js:179-193 | one completion or error event is appended; buffer and `completeText` are unchanged |
| SnapshotStream.SnapshotRelay.Emit | app/api/optimize-and-edit/stream/route.js:160-171 | the diff step: a delta is appended and `completeText` set to the snapshot exactly when the snapshot advances past `completeText`; the replayed progress takes the same step |
| SnapshotStream.ReplayNext | app/api/optimize-and-edit/stream/route.js:129-171 | one more chunk adds one snapshot, of the whole buffer so far, and the replay takes one more step |
| SnapshotStream.RelaySnapshots | app/api/optimize-and-edit-video/stream/route.js:146-219 | the events are one delta per advancing snapshot of the growing buffer, in order, then one terminal event |
| SnapshotStream.SnapshotStreamEndsOnce | app/api/optimize-and-edit-video/stream/route.js:185-218 | a snapshot stream ends with exactly one terminal event, and its deltas have the length of the final `completeText` |
| StaticExtract.ExtractText | app/api/optimize-and-generate/route.js:11-50 | `extractTextFromResponse` as one function; `ExtractedIsTrimmed`, `FirstWinnerDecides`, `ThrowsExactlyWhenReached`, `NoWinnerGivesEmpty` and `NoCandidatesGivesEmpty` state its properties |
| StaticExtract.PartText | app/api/optimize-and-generate/route.js:31-35 | a `null` part or a truthy non-string `text` throws; a non-empty string is kept; anything else is skipped |
| StaticExtract.PartTexts | app/api/optimize-and-generate/route.js:30-36 | the `texts` array fails exactly when some part throws, and holds only non-empty texts |
| StaticExtract.CollectTexts | app/api/optimize-and-edit/route.js:39-45 | the inner `for…of` loop computes `PartTexts` |
| StaticExtract.ExtractTextFromResponse | app/api/optimize-and-generate/route.js:11-50 | the two loops compute `ExtractText`, the specification of the whole function |
| StaticExtract.ExtractedIsTrimmed | app/api/optimize-and-generate/route.js:37-40 | the result never has whitespace at either end |
| StaticExtract.ScannedIsTrimmed | app/api/optimize-and-generate/route.js:24-43 | every text the candidate scan returns is trimmed |
| StaticExtract.FirstWinnerDecides | app/api/optimize-and-generate/route.js:24-43 | after candidates skipped without throwing, the first with any text decides the result, whatever follows |
| StaticExtract.ThrowsExactlyWhenReached | app/api/optimize-and-edit/route.js:33-52 | extraction throws if and only if some candidate throws and every earlier one was skipped |
| StaticExtract.NoWinnerGivesEmpty | app/api/optimize-and-generate/route.js:46-49 | with no candidate that throws or has text, the result is `""` |
| StaticExtract.BlankWinnerHidesLaterCandidates | app/api/optimize-and-generate/route.js:37-40 | a candidate whose texts are whitespace wins with `""`, and a later candidate is never consulted |
| StaticExtract.NoCandidatesGivesEmpty | app/api/optimize-and-generate/route.js:14-22 | a falsy reply, or one whose `candidates` is missing or not an array, extracts `""` |
| Routes.GoodPrompt | app/api/optimize-and-generate/stream/route.js:14 | `!prompt || typeof prompt !== 'string'` lets exactly a non-empty string through; `BodyRejection` states it on whole bodies |
| Routes.Echo | app/api/optimize-and-edit/route.js:185 | how `NextResponse.json` writes an echoed form value: a string as itself, a `File` as `{}` |
| Routes.ImageMime | app/api/optimize-and-edit/stream/route.js:46 | `fileObj.type || 'image/png'`; `MimeDefault` states the default |
| Routes.Interpolated | app/api/optimize-frame-transition/stream/route.js:64 | the prompt as the template interpolates it: a string as itself, a `File` as `[object File]` |
| Routes.RoundMiB | app/api/optimize-and-edit-video/stream/route.js:50 | `Math.round(bytes / 1024 / 1024)`: the nearest whole MiB, halves rounded up |
| Routes.BodyRejection | app/api/optimize-and-generate/stream/route.js:13-16 | a body is accepted exactly when it parses, is not `null`, and holds a non-empty string prompt; a missing or `null` body is a 500 and any other refused body the 400 `提示词不能为空` |
| Routes.UpstreamRejection | app/api/optimize-and-generate-video/stream/route.js:69-85 | the call proceeds exactly when `fetch` answered `ok`; every other outcome is a 500 |
| Routes.JsonStreamRoute | app/api/optimize-and-generate/stream/route.js:11-147 | relays exactly when the body passes, the key is set and Gemini answered `ok`; the relayed prompt is non-empty; language defaults to English; `JsonPromptRequired` states the 400 |
| Routes.GenerateRoute | app/api/optimize-and-generate/route.js:52-157 | answers `{optimizedPrompt, language}` exactly when validation, key, upstream, `response.json()` and extraction all succeed; `optimizedPrompt` is never empty; `language` is echoed with default `'en'`; `JsonPromptRequired` states the 400 and `FallsBackToPrompt` the fallback |
| Routes.FormPrompt | app/api/optimize-and-edit/stream/route.js:22-26 | a prompt passes only as a non-empty string |
| Routes.ImageRejection | app/api/optimize-and-edit/route.js:3-10 | the image is accepted exactly when it is a `File`; missing or empty is 400; a non-empty string throws |
| Routes.FormStreamRoute | app/api/optimize-and-edit-video/stream/route.js:19-57 | relays exactly when prompt, image, key, the 4 MiB limit (image-to-video only) and the upstream status pass; it sends one non-empty MIME type |
| Routes.EditRoute | app/api/optimize-and-edit/route.js:61-195 | answers exactly when every check and the extraction succeed; `optimizedPrompt` is never empty; `language` is echoed with default `'en'`; `EditChecksInOrder` states the refusals and `EditFallsBackToPrompt` the fallback |
| Routes.FrameRoute | app/api/optimize-frame-transition/stream/route.js:3-237 | relays exactly when prompt and both frames are present, the key is set, both frames are files and Gemini answered `ok`; a missing or empty prompt or frame is the 400 missing-input error whatever the key and the upstream, and it is the only 400; every refusal carries this route's own message |
| Routes.ChecksRunInSourceOrder | app/api/optimize-and-edit-video/stream/route.js:24-53 | on both multipart streaming routes the checks run in order: prompt (400), then image (400), then key (500), then, for image-to-video, size (400), none depending on the upstream |
| Routes.JsonPromptRequired | app/api/optimize-and-generate/route.js:52-62 | a missing, `null` or empty prompt is the 400 `提示词不能为空` on both JSON streaming routes and the non-streaming one, whatever the key and the upstream |
| Routes.EditChecksInOrder | app/api/optimize-and-edit/route.js:61-95 | a `File` prompt is a 500 from the log line; then a missing or empty prompt is a 400; then a missing or empty image is a 400 and a string image a 500; then a missing key is a 500 |
| Routes.ValidationPrecedesUpstream | app/api/optimize-and-edit/stream/route.js:24-30 | a 400 answer depends neither on the key nor on what the upstream would answer |
| Routes.SizeLimitBoundary | app/api/optimize-and-edit-video/stream/route.js:47-53 | exactly 4 MiB is accepted; one byte more is refused as `图片过大（4MB）…`; the image-edit route has no limit |
| Routes.FallsBackToPrompt | app/api/optimize-and-generate/route.js:136-147 | `optimizedPrompt` is the extracted text when non-empty, else the original prompt |
| Routes.EditFallsBackToPrompt | app/api/optimize-and-edit/route.js:181-185 | on the image-to-image route, `optimizedPrompt` is the extracted text when non-empty, else the form's prompt |
| Routes.LanguageDefaultsDiffer | app/api/optimize-frame-transition/stream/route.js:7-35 | JSON and multipart routes default to English; the frame route defaults to Chinese and picks English only for `'en'` |
| Routes.NullLanguageIsKept | app/api/optimize-and-generate/route.js:56 | an explicit `null` language is echoed, because the destructuring default applies only to a missing key |
| Routes.NumericPromptDiffers | app/api/optimize-and-generate/route.js:57-62 | a numeric prompt is a 400 on the streaming route but a 500 on the non-streaming one, whose log line calls `substring` first |
| Routes.MimeDefault | app/api/optimize-and-edit-video/stream/route.js:57 | an image without a type is sent as `image/png`; the frame route sends the frames' types as given |
| Client.CanSubmit | app/page.jsx:35-40 | `canSubmit`: a prompt that is not blank and the files the tab needs; `ServerAgreesWithCanSubmit` relates it to the routes |
| Client.TextTabAgrees | app/page.jsx:321-332 | for the text tabs, the route relays exactly when the prompt is non-empty, and relays that prompt |
| Client.ImageTabAgrees | app/page.jsx:333-344 | for the image tabs, within the size limit, the route relays exactly when the prompt is non-empty and a file was picked, and relays that prompt |
| Client.FramesTabAgrees | app/page.jsx:345-351 | for the frame tab, the route relays exactly when the prompt is non-empty and both frames were picked, and relays that prompt |
| Client.JsonBody | app/page.jsx:325 | the body object `{ prompt, language }` holds the prompt, as a string, under `prompt` |
| Client.FramesForm | app/page.jsx:346-350 | the frame form holds the prompt as text, and each frame as a file exactly when one was picked |
| Client.ServerAgreesWithCanSubmit | app/page.jsx:35-40 | with the key set and Gemini answering, the route reached by a page's request relays its prompt exactly when the prompt is non-empty and the tab's files are present; every page `canSubmit` accepts is relayed |
| Client.AppendReasoning | app/page.jsx:82-90 | the state update `appendReasoning` schedules; `ReasoningKeepsNonBlankLines` and `ReasoningLogStaysBounded` state its properties |
| Client.DropNewlines | app/page.jsx:85 | leading `'\n'`s removed: never longer, and not starting with `'\n'` |
| Client.KeptSkipsNewlines | app/page.jsx:85 | leading newlines add no kept piece |
| Client.RunsAndSingles | app/page.jsx:85 | `split(/\n+/)` and `split('\n')` agree on the first piece and keep the same later lines |
| Client.Kept | app/page.jsx:85 | the kept pieces are trimmed and non-empty |
| Client.LastLines | app/page.jsx:88 | `slice(-200)` keeps exactly the last `min(n, 200)` entries: the input is what was dropped followed by the result |
| Client.ReasoningKeepsNonBlankLines | app/page.jsx:82-90 | the log gains the trimmed non-blank lines of the text, in order, and keeps the last 200; a falsy text, or one without such lines, leaves the log unchanged |
| Client.RunsKeepTheSameLines | app/page.jsx:85 | splitting on `/\n+/` and on single newlines keep the same non-blank lines |
| Client.ReasoningLogStaysBounded | app/page.jsx:82-90 | a log of at most 200 non-empty trimmed lines stays one |
| Client.PairFrom | app/page.jsx:278 | a position `indexOf('\n\n', k)` reports holds a pair and is at or after `k` |
| Client.PairFromSpec | app/page.jsx:278 | the reported pair is the first at or after `k`, and `-1` is reported only when there is none |
| Client.SplitEvents | app/page.jsx:273-293 | the inner `while` loop as the split it computes; `SplitEventsSpec` and `SplitEventsAppend` state its meaning |
| Client.SplitEventsSpec | app/page.jsx:278-293 | the cut events, each followed by `\n\n`, plus the remaining buffer give back the input; the remainder holds no `\n\n`; and each event is cut at the first `\n\n`, so it holds none and does not end in `\n` |
| Client.EventsEndAtFirstPair | app/page.jsx:278-280 | each `indexOf('\n\n')` cut ends an event where, with its separator, the first `\n\n` begins |
| Client.FirstPairCut | app/page.jsx:278-279 | the text before the first `\n\n`, followed by `\n\n`, has its first pair right after that text |
| Client.WholeTextIsNotOneEvent | app/page.jsx:278-280 | `"a\n\nb"` is never one event: a split of `"a\n\nb\n\n"` into it alone is not the loop's |
| Client.SplitEventsAppend | app/page.jsx:273-293 | the events cut from a text do not depend on how it was divided into reads |
| Client.DataPayload | app/page.jsx:282-292 | the `data:` lines of one event, each sliced and trimmed, joined with `'\n'`; `ReadDataLines` and `PayloadRoundTrip` state its meaning |
| Client.ReadDataLines | app/page.jsx:282-291 | the payload is the `slice(5).trim()` of each `data:` line, joined with `'\n'`; none without a `data:` line |
| Client.Drain | app/page.jsx:278-293 | the `indexOf` loop handles every whole event in order and keeps exactly the remainder |
| Client.SseReader.constructor | app/page.jsx:247-248 | buffer and `finalText` start empty, and the result starts as the `''` it was reset to |
| Client.SseReader.Feed | app/page.jsx:273-293 | the buffer becomes the remainder after the chunk's whole events, and the view advances by exactly those events |
| Client.StreamSse | app/page.jsx:238-297 | a non-ok or bodiless response rejects with `流式连接失败`; a failed read rejects; otherwise the call resolves with what the events left, and a trailing partial event is dropped |
| Client.OneFrame | app/page.jsx:278-281 | a server message is cut off as exactly one event, its `data:` line |
| Client.LineThenPair | app/page.jsx:278-281 | a newline-free line followed by `\n\n` is cut off whole, leaving an empty buffer |
| Client.WireFrames | app/page.jsx:273-293 | everything a route writes is cut back into its events with nothing left over |
| Client.PayloadRoundTrip | app/page.jsx:282-291 | the `data:` line of a server message `'data: ' + P + '\n\n'` yields exactly `P` |
| Client.HandleEvent | app/page.jsx:250-271 | `finalText` only grows, and the result changes only to the trimmed `finalText` |
| Client.ReadsEventsIsSatisfiable | app/page.jsx:252 | a parser that reads back every event the routes write exists, so the end-to-end lemmas that assume one are not vacuous |
| Client.HandleEventReadsEvent | app/page.jsx:250-271 | a parsed delta appends its text, completion sets the result to the trimmed text, and error and `{text}` events change nothing |
| Client.DeliverWire | app/page.jsx:273-293 | after reading a route's whole output, the page state is the events' effect in order |
| Client.ObserveText | app/page.jsx:255-266 | `finalText` grows only by delta texts, and the result changes only on completion |
| Client.ClientReadsCompletedStream | app/page.jsx:238-297 | after deltas and completion, the page resolves with the deltas concatenated and trimmed |
| Client.LineRelayReachesClient | app/api/optimize-and-generate/stream/route.js:91-123 | end to end, the page gets the upstream lines' texts concatenated and trimmed |
| Client.SnapshotRelayReachesClient | app/api/optimize-and-edit/stream/route.js:160-183 | end to end, the page gets the deltas concatenated and trimmed; for growing snapshots that is the last snapshot, trimmed |
| Client.FrameTextIsLost | app/api/optimize-frame-transition/stream/route.js:181 | as written, the page resolves with `""` after the frame route's `{text}` events, whatever they carried (Finding 1) |
| Client.FrameDeltasReachClient | app/api/optimize-frame-transition/stream/route.js:173-181 | with delta events the page gets exactly the route's `completeText`, trimmed (Finding 1, corrected) |
| Client.StreamErrorIsSwallowed | app/page.jsx:262-270 | as written, a stream ending with `response.error` resolves with `""` instead of rejecting (Finding 2) |
| Client.DeliverReporting | app/page.jsx:250-271 | with the error rethrown, the state before the first error is the ordinary one |
| Client.StreamErrorIsReported | app/page.jsx:262-270 | with the error rethrown, an error stream rejects with its message, converted with `String` when truthy, or `模型流式错误`, and a completed stream resolves as before (Finding 2, corrected) |

## Left out

- **Network, timers and other runtime services.** These are not modelled: network I/O
  (`fetch`, `Response`, `ReadableStream` controllers, headers), `AbortController` with the
  60-second timeout of the image-to-video route, `TextDecoder`/`TextEncoder` with UTF-8
  handling, base64 via `Buffer`, and the internals of `FormData`/`File`. Their outcomes are
  parameters.
- **Byte-level decoding.** Chunks are decoded strings. The non-streaming `decode` of the
  frame route, which can split a multi-byte character across chunks, is not modelled.
- **JSON.** `JSON.parse` is a parameter. Numbers are integers only; fractions and exponents
  are not modelled. `Json.ToJsString` writes every integer in plain decimal, whereas
  JavaScript writes `1e+21` from 10^21 up, and `JSON.parse` rounds integers beyond 2^53. It
  writes every object as `[object Object]`; an object whose own `toString` or `valueOf` key
  is not callable makes `+=` throw a `TypeError`, which is not modelled.
- **Forms.** A failing `req.formData()` is not modelled, and neither are repeated form fields
  (`form.get` returns the first).
- **Prompt templates and request bodies.** Beyond the language they select, they are
  constant text and are not modelled.
- **The page's UI.** `startFakeReasoning`, the progress bar, transitions, previews and JSX
  rendering involve `Math.random`, timers and the DOM; none of them is modelled.
- **Excluded files.** `app/api/check-config/route.js`, `next.config.js` and `app/layout.jsx`
  are not part of this model. Neither is the logging (`console.*`), except where a log line
  throws.
- **Finish reasons and synthesised errors.** The code has no finish-reason or `SAFETY`
  handling, no `MAX_TOKENS` flag, no language post-filter, no synthesised error for an empty
  result or for a buffer that never parses, no read timeout in the streaming loops and no
  client-disconnect propagation, so none of these is modelled.
- Candidates.FirstPartText treats a truthy `text` that is not a string as absent. The
  text-to-image loop would send it, unconverted, as the `delta` of its event
  (app/api/optimize-and-generate/stream/route.js:106-110). The page ignores such a delta
  (`typeof data.delta === 'string'`), so what the page shows is the same. The snapshot loops
  convert it with `String`; that conversion is modelled (`Candidates.FirstPartValue`,
  `Json.ToJsString`).
- FrameTransitionStream.FrameLineText treats a truthy non-string `text` as absent. The frame
  route would send it unconverted in a `{text}` event and add `String(text)` to
  `completeText`. The page ignores `{text}` events, and this `completeText` is only logged.
- SnapshotStream.Advance, SnapshotStream.Slice and SnapshotStream.AdvanceExactlyWhenLonger
  count lengths in Unicode scalar values. JavaScript's `length` and `slice` count UTF-16 code
  units. For text outside the Basic Multilingual Plane the two differ. A snapshot can be
  longer in code units but not in scalar values. For example, `"ab"` then `"😀c"`: the source
  sends `"c"` and the model sends nothing. A slice can also split a surrogate pair, which a
  string of scalar values cannot represent.
- **Routes.JsonStreamRoute, Routes.GenerateRoute, Routes.FormStreamRoute and
  Routes.EditRoute** report a runtime error's own message (a `TypeError`, a network error) as
  `None`. Only the messages the source writes itself are modelled.
- **Client.StreamSse** rejects a failed read with `None`; the runtime's message is not
  modelled.

## Findings

| source | as written | input that shows it | evidently intended | confidence | as-written member | corrected member |
|---|---|---|---|---|---|---|
| app/api/optimize-frame-transition/stream/route.js:181 | each text goes out as `{text}` with no `type`, and `handleEvent` (app/page.jsx:253-266) acts only on typed events | an upstream line `data: {"candidates":[{"content":{"parts":[{"text":"x"}]}}]}` then end of stream: the route sends `{"text":"x"}` and completion, and the page resolves with `""` | send the delta event every other route sends, so the page receives `completeText` | not executed | Client.FrameTextIsLost | Client.FrameDeltasReachClient |
| app/page.jsx:262-270 | the `throw` for `response.error` sits inside `handleEvent`'s own `try`, whose `catch` discards it | a body `data: {"type":"response.error","error":{"message":"boom"}}\n\n`: `streamSSE` resolves with `""` and the page shows no result panel instead of `boom` | let the error leave `streamSSE`, so `handleOptimizeAndRun`'s `catch` reports it | not executed | Client.StreamErrorIsSwallowed | Client.StreamErrorIsReported |
